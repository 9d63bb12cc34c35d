/**
 What becomes of objects hooked both ways when a vtable hook of the engine has failed: runs in which an object misses
 its vtable hook for good, and runs in which its calls never reach the native function.
 */
module ObjectHookLimits {
  import opened HookModel
  import opened HookProofs
  import opened HookRuns
  import opened ObjectHookRuns
  import opened ObjectHooks
  import opened Options

  /** An engine event whose object hook cannot fail, for an object that has none yet. */
  ghost predicate HooksObject(c: Config, p: ObjectConfig, s: State, e: Event)
    requires ObjectsInv(c, p, s) && ValidObjects(c, p) && OneVtablePerClass(c)
  {
    e.EngineEvent? && Possible(c, p, s, e) && e.o !in s.replaced && s.w.objects[e.o].class_ in p && e.fault == NoFault
  }

  /** Such an event is sound. */
  lemma FirstHookSound(c: Config, p: ObjectConfig, s: State, e: Event)
    requires ObjectsInv(c, p, s) && ValidObjects(c, p) && OneVtablePerClass(c) && HooksObject(c, p, s, e)
    ensures SoundEvent(c, p, s, e)
  {
  }

  /** The tracked keys after the engine's vtable hook. */
  ghost function TrackedAfter(c: Config, s: State, e: Event): set<TrackKey>
    requires e.EngineEvent? && e.o in s.w.objects
    requires Select(c, s.w.objects[e.o].class_).Some? ==> Select(c, s.w.objects[e.o].class_).value in c.specs
  {
    if e.vtableFault == NoFault && Select(c, s.w.objects[e.o].class_).Some?
    then s.w.tracked.Keys + {TrackKeyOf(c, s.w, Select(c, s.w.objects[e.o].class_).value, e.o)} else s.w.tracked.Keys
  }

  lemma Engine(c: Config, p: ObjectConfig, s: State, e: Event) returns (u: State)
    requires ObjectsInv(c, p, s) && ValidObjects(c, p) && OneVtablePerClass(c) && HooksObject(c, p, s, e)
    ensures u == After(c, p, s, e) && ObjectsInv(c, p, u)
    ensures e.vtableFault == NoFault ==> Tracks(c, u.w, e.o)
    ensures e.o in u.w.objects && u.w.objects == s.w.objects[e.o := u.w.objects[e.o]] &&
      u.w.objects[e.o].class_ == s.w.objects[e.o].class_
    ensures u.replaced == s.replaced[e.o := s.w.objects[e.o].vptr]
    ensures u.w.hookers.Keys == s.w.hookers.Keys && u.w.vts.Keys <= s.w.vts.Keys + {e.id} &&
      u.w.tracked.Keys == TrackedAfter(c, s, e)
    ensures e.vtableFault != NoFault ==> u.w.hooked == s.w.hooked
    ensures var m := s.w.objects[e.o].class_;
      && m in s.per && m in u.per && u.per.Keys == s.per.Keys && u.per[m].copy.Some?
      && (u.per[m].patched <==> if s.per[m].copy.Some? then s.per[m].patched
        else IsHooked(c, u.w, s.w.objects[e.o].vptr))
  {
    u := After(c, p, s, e);
    var t := EngineWorld(c, p, s, e);
    VtableFirstShapes(c, p, s, e);
    var t' := EngineEffect(c, p, s, e);
    EngineObject(c, p, t, u, e);
  }

  /** What the object hook leaves, after the vtable hook. */
  lemma EngineObject(c: Config, p: ObjectConfig, t: State, u: State, e: Event)
    requires ObjectsInv(c, p, t) && ValidObjects(c, p) && OneVtablePerClass(c) && e.EngineEvent? && e.fault == NoFault
    requires ReadyFor(c, p, t, e.o) && e.at !in t.w.vtables && e.at !in c.native && HookEffect(c, t, u, e.o)
    requires t.w.objects[e.o].vptr in t.w.vtables
    requires forall i: nat {:trigger p[t.w.objects[e.o].class_][i]} :: i < |p[t.w.objects[e.o].class_]| ==>
      1 <= p[t.w.objects[e.o].class_][i].index <= |t.w.vtables[t.w.objects[e.o].vptr]|
    requires u == HookObject(c, p, t, e.o, e.fault, e.at).0
    ensures ObjectsInv(c, p, u) && u.replaced == t.replaced[e.o := t.w.objects[e.o].vptr]
    ensures e.o in u.w.objects && u.w.objects == t.w.objects[e.o := u.w.objects[e.o]] &&
      u.w.objects[e.o].class_ == t.w.objects[e.o].class_
    ensures var m := t.w.objects[e.o].class_;
      && m in t.per && m in u.per && u.per.Keys == t.per.Keys && u.per[m].copy.Some?
      && (u.per[m].patched <==> if t.per[m].copy.Some? then t.per[m].patched
        else IsHooked(c, t.w, t.w.objects[e.o].vptr))
  {
    HookObjectKeeps(c, p, t, e.o, e.fault, e.at);
    assert ReplacedOk(c, u, e.o);
  }

  /** What the vtable hook leaves. */
  lemma EngineWorld(c: Config, p: ObjectConfig, s: State, e: Event) returns (t: State)
    requires ObjectsInv(c, p, s) && ValidObjects(c, p) && OneVtablePerClass(c) && HooksObject(c, p, s, e)
    ensures t == HookVtableFirst(c, s, e.o, e.vtableFault, e.id) && ObjectsInv(c, p, t) && ReadyFor(c, p, t, e.o)
    ensures t.w.objects == s.w.objects && t.per == s.per && t.replaced == s.replaced && e.at !in t.w.vtables
    ensures t.w.hookers.Keys == s.w.hookers.Keys && t.w.vts.Keys <= s.w.vts.Keys + {e.id} &&
      t.w.tracked.Keys == TrackedAfter(c, s, e)
    ensures e.vtableFault == NoFault ==> Tracks(c, t.w, e.o)
    ensures e.vtableFault != NoFault ==> t.w.hooked == s.w.hooked
  {
    VtableFirstKeeps(c, p, s, e);
    VtableFirstShapes(c, p, s, e);
    t := HookVtableFirst(c, s, e.o, e.vtableFault, e.id);
    var m := s.w.objects[e.o].class_;
    if Select(c, m).Some? { HookBeside(c, s, Select(c, m).value, e.o, e.vtableFault, e.id); }
  }

  lemma HookObjectAddresses(c: Config, p: ObjectConfig, t: State, o: Obj, fault: Fault, at: Addr)
    requires o in t.w.objects && t.w.objects[o].vptr in t.w.vtables
    requires var m := t.w.objects[o].class_;
      m in t.per && m in p && forall i: nat {:trigger p[m][i]} :: i < |p[m]| ==>
        1 <= p[m][i].index <= |t.w.vtables[t.w.objects[o].vptr]|
    ensures HookObject(c, p, t, o, fault, at).0.w.vtables.Keys <= t.w.vtables.Keys + {at}
  {
    var m, v := t.w.objects[o].class_, t.w.objects[o].vptr;
    assert MakeCopy(c, p, t, m, v, at).w.vtables.Keys == t.w.vtables.Keys + {at};
  }

  lemma EngineAddresses(c: Config, p: ObjectConfig, s: State, e: Event)
    requires ObjectsInv(c, p, s) && ValidObjects(c, p) && OneVtablePerClass(c) && HooksObject(c, p, s, e)
    ensures After(c, p, s, e).w.vtables.Keys <= s.w.vtables.Keys + {e.at}
  {
    VtableFirstShapes(c, p, s, e);
    HookObjectAddresses(c, p, HookVtableFirst(c, s, e.o, e.vtableFault, e.id), e.o, e.fault, e.at);
  }

  /** What an object needs so that the engine can hook it both ways. */
  lemma CanBeHooked(c: Config, p: ObjectConfig, s: State, e: Event)
    requires ObjectsInv(c, p, s) && ValidObjects(c, p) && OneVtablePerClass(c)
    requires e.EngineEvent? && e.fault == NoFault && e.o in s.w.objects && e.o !in s.replaced &&
      s.w.objects[e.o].vptr in c.home
    requires var m := s.w.objects[e.o].class_;
      m in p && m in s.per && (Select(c, m).Some? ==> Select(c, m).value in s.w.hookers && e.id !in s.w.vts)
    requires e.at !in s.w.vtables && e.at !in c.native
    ensures HooksObject(c, p, s, e)
  {
    if Select(c, s.w.objects[e.o].class_).Some? { OwnVtableFits(c, s.w, e.o); }
  }

  /** A second object can be hooked after a first one as well as before it. */
  lemma StillPossible(c: Config, p: ObjectConfig, s: State, e: Event, f: Event)
    requires ObjectsInv(c, p, s) && ValidObjects(c, p) && OneVtablePerClass(c) && HooksObject(c, p, s, e) &&
      HooksObject(c, p, s, f)
    requires e.o != f.o && e.id != f.id && e.at != f.at
    ensures ObjectsInv(c, p, After(c, p, s, e)) && HooksObject(c, p, After(c, p, s, e), f)
  {
    var u := AfterFirst(c, p, s, e, f.o);
    CanBeHooked(c, p, u, f);
  }

  /** What an engine event leaves as it was for another object. */
  lemma AfterFirst(c: Config, p: ObjectConfig, s: State, e: Event, o: Obj) returns (u: State)
    requires ObjectsInv(c, p, s) && ValidObjects(c, p) && OneVtablePerClass(c) && HooksObject(c, p, s, e) &&
      o in s.w.objects && o !in s.replaced && o != e.o
    ensures u == After(c, p, s, e) && ObjectsInv(c, p, u)
    ensures o in u.w.objects && u.w.objects[o] == s.w.objects[o] && o !in u.replaced && u.per.Keys == s.per.Keys
    ensures u.w.hookers.Keys == s.w.hookers.Keys && u.w.vts.Keys <= s.w.vts.Keys + {e.id} &&
      u.w.vtables.Keys <= s.w.vtables.Keys + {e.at}
  {
    u := Engine(c, p, s, e);
    EngineAddresses(c, p, s, e);
  }

  ghost predicate Runs(c: Config, p: ObjectConfig, s: State, events: seq<Event>, u: State)
    requires ObjectsInv(c, p, s) && ValidObjects(c, p) && OneVtablePerClass(c)
  {
    CanHappen(c, p, s, events) && AfterAll(c, p, s, events) == u
  }

  /** An event in front of a run. */
  lemma RunFrom(c: Config, p: ObjectConfig, s: State, e: Event, t: State, events: seq<Event>, u: State)
    requires ObjectsInv(c, p, s) && ValidObjects(c, p) && OneVtablePerClass(c) && Possible(c, p, s, e) &&
      SoundEvent(c, p, s, e) && t == After(c, p, s, e)
    requires ObjectsInv(c, p, t) && Runs(c, p, t, events, u)
    ensures Runs(c, p, s, [e] + events, u)
  {
    assert ([e] + events)[1..] == events;
  }

  /** The hooks of an object when the copy of its class was made from the vtable without hooks. */
  lemma Misses(c: Config, p: ObjectConfig, s: State, o: Obj, x: nat, n: nat)
    requires ObjectsInv(c, p, s) && ValidObjects(c, p) && OneVtablePerClass(c) && o in s.replaced && o in s.w.objects &&
      n >= 2
    requires s.replaced[o] in c.native && x < |c.native[s.replaced[o]]|
    requires s.w.objects[o].class_ in s.per && !s.per[s.w.objects[o].class_].patched
    ensures s.w.objects[o].vptr in s.w.vtables && x < |s.w.vtables[s.w.objects[o].vptr]|
    ensures Path(c, p, s, o, x, s.w.vtables[s.w.objects[o].vptr][x], n) ==
      Listed(ObjectHook(p, s.w.objects[o].class_, x)) + [c.native[s.replaced[o]][x]]
  {
    CallPath(c, p, s, o, x, n);
    assert [] + [c.native[s.replaced[o]][x]] == [c.native[s.replaced[o]][x]];
  }

  /**
   When the vtable hook of the first object of a class fails, the copy lacks the vtable hooks; an object hooked both
   ways later, without any failure, is tracked, its vtable is hooked, and its calls pass through no vtable hook.
   */
  lemma LaterObjectMisses(c: Config, p: ObjectConfig, s: State, e: Event, f: Event, x: nat, n: nat) returns (u: State)
    requires ObjectsInv(c, p, s) && ValidObjects(c, p) && OneVtablePerClass(c) && HooksObject(c, p, s, e) &&
      e.vtableFault != NoFault
    requires var m := s.w.objects[e.o].class_;
      m in s.per && s.per[m].copy == None && !IsHooked(c, s.w, s.w.objects[e.o].vptr)
    requires ObjectsInv(c, p, After(c, p, s, e)) && HooksObject(c, p, After(c, p, s, e), f) && f.vtableFault == NoFault
    requires f.o != e.o && f.o in s.w.objects && s.w.objects[f.o].class_ == s.w.objects[e.o].class_ &&
      s.w.objects[f.o].vptr in c.native
    requires n >= 2 && x < |c.native[s.w.objects[f.o].vptr]| && VtableHook(c, s.w.objects[f.o].class_, x).Some?
    ensures CanHappen(c, p, s, [e, f]) && u == AfterAll(c, p, s, [e, f])
    ensures f.o in u.replaced && f.o in u.w.objects && Tracks(c, u.w, f.o) && u.replaced[f.o] in c.native &&
      IsHooked(c, u.w, u.replaced[f.o])
    ensures var v, m := s.w.objects[f.o].vptr, s.w.objects[f.o].class_;
      && u.replaced[f.o] == v && u.w.objects[f.o].class_ == m && u.w.objects[f.o].vptr in u.w.vtables &&
        x < |u.w.vtables[u.w.objects[f.o].vptr]|
      && Path(c, p, u, f.o, x, u.w.vtables[u.w.objects[f.o].vptr][x], n) ==
        Listed(ObjectHook(p, m, x)) + [c.native[v][x]]
  {
    u := SecondCopied(c, p, s, e, f);
    TwoEvents(c, p, s, e, f);
    HookedWhenTracked(c, p, u, f.o);
    Misses(c, p, u, f.o, x, n);
  }

  lemma OneEvent(c: Config, p: ObjectConfig, s: State, e: Event, u: State)
    requires ObjectsInv(c, p, s) && ValidObjects(c, p) && OneVtablePerClass(c) && Possible(c, p, s, e) &&
      SoundEvent(c, p, s, e) && u == After(c, p, s, e) && ObjectsInv(c, p, u)
    ensures CanHappen(c, p, s, [e]) && AfterAll(c, p, s, [e]) == u
  {
    RunFrom(c, p, s, e, u, [], u);
    assert [e] + [] == [e];
  }

  lemma TwoEvents(c: Config, p: ObjectConfig, s: State, e: Event, f: Event)
    requires ObjectsInv(c, p, s) && ValidObjects(c, p) && OneVtablePerClass(c) && Possible(c, p, s, e) &&
      SoundEvent(c, p, s, e)
    requires ObjectsInv(c, p, After(c, p, s, e)) && Possible(c, p, After(c, p, s, e), f) &&
      SoundEvent(c, p, After(c, p, s, e), f)
    ensures CanHappen(c, p, s, [e, f]) && AfterAll(c, p, s, [e, f]) == After(c, p, After(c, p, s, e), f)
  {
    var t := After(c, p, s, e);
    AfterKeeps(c, p, t, f);
    var u := After(c, p, t, f);
    RunFrom(c, p, t, f, u, [], u);
    RunFrom(c, p, s, e, t, [f], u);
    assert [f] + [] == [f] && [e] + [f] == [e, f];
  }

  lemma SecondCopied(c: Config, p: ObjectConfig, s: State, e: Event, f: Event) returns (u: State)
    requires ObjectsInv(c, p, s) && ValidObjects(c, p) && OneVtablePerClass(c) && HooksObject(c, p, s, e) &&
      e.vtableFault != NoFault
    requires var m := s.w.objects[e.o].class_;
      m in s.per && s.per[m].copy == None && !IsHooked(c, s.w, s.w.objects[e.o].vptr)
    requires ObjectsInv(c, p, After(c, p, s, e)) && HooksObject(c, p, After(c, p, s, e), f) && f.vtableFault == NoFault
    requires f.o != e.o && f.o in s.w.objects && s.w.objects[f.o].class_ == s.w.objects[e.o].class_
    ensures u == After(c, p, After(c, p, s, e), f) && ObjectsInv(c, p, u)
    ensures f.o in u.replaced && u.replaced[f.o] == s.w.objects[f.o].vptr && f.o in u.w.objects && Tracks(c, u.w, f.o)
    ensures var m := s.w.objects[f.o].class_; u.w.objects[f.o].class_ == m && m in u.per && !u.per[m].patched
  {
    var t := Engine(c, p, s, e);
    u := Engine(c, p, t, f);
  }

  // ---------- an object hooked a second time ----------

  /** The vtable of a tracked object's class is hooked. */
  lemma TrackedMeansHooked(c: Config, w: World, o: Obj, h: HookerId)
    requires ValidConfig(c) && Inv(c, w) && OneVtablePerClass(c) && o in w.objects && w.objects[o].vptr in c.home
    requires h in c.specs
    ensures TrackKeyOf(c, w, h, o) in w.tracked ==> IsHooked(c, w, w.objects[o].vptr)
  {
    assert ObjectOk(c, w, o);
    var k := TrackKeyOf(c, w, h, o);
    if k in w.tracked {
      TrackedAtHome(c, w, k);
      assert c.home[w.tracked[k].original] == c.home[w.objects[o].vptr];
    }
  }

  lemma TrackedAtHome(c: Config, w: World, k: TrackKey)
    requires ValidConfig(c) && Inv(c, w) && k in w.tracked
    ensures w.tracked[k].original in c.home && c.home[w.tracked[k].original] == k.class_
    ensures IsHooked(c, w, w.tracked[k].original)
  {
    assert TrackedOk(c, w, k) && EntryOk(c, w, w.tracked[k].vtEntry);
  }

  /** The first object of a class, whose vtable hook has failed. */
  ghost predicate FailsFirst(c: Config, p: ObjectConfig, s: State, e: Event)
    requires ObjectsInv(c, p, s) && ValidObjects(c, p) && OneVtablePerClass(c)
  {
    && HooksObject(c, p, s, e) && e.vtableFault != NoFault
    && var m := s.w.objects[e.o].class_;
    && m in s.per && s.per[m].copy == None && Select(c, m).Some? && !IsHooked(c, s.w, s.w.objects[e.o].vptr)
  }

  /** The state after it: the object is alone on a copy without the vtable hooks, and it is not tracked. */
  lemma AfterFailure(c: Config, p: ObjectConfig, s: State, e: Event) returns (u: State)
    requires ObjectsInv(c, p, s) && ValidObjects(c, p) && OneVtablePerClass(c) && FailsFirst(c, p, s, e)
    ensures u == After(c, p, s, e) && ObjectsInv(c, p, u) && e.o in u.replaced && e.o in u.w.objects
    ensures u.w.vts.Keys <= s.w.vts.Keys + {e.id} && u.w.vtables.Keys <= s.w.vtables.Keys + {e.at}
    ensures var m := s.w.objects[e.o].class_;
      && u.w.objects[e.o].class_ == m && m in u.per && !u.per[m].patched && Hooked(u, m) == {e.o}
      && Select(c, m).value in c.specs && Select(c, m).value in u.w.hookers
      && TrackKeyOf(c, u.w, Select(c, m).value, e.o) !in u.w.tracked
  {
    var m := s.w.objects[e.o].class_;
    u := Engine(c, p, s, e);
    EngineAddresses(c, p, s, e);
    TrackedMeansHooked(c, s.w, e.o, Select(c, m).value);
    AloneOnCopy(c, p, s, u, e.o);
  }

  lemma AloneOnCopy(c: Config, p: ObjectConfig, s: State, u: State, o: Obj)
    requires ObjectsInv(c, p, s) && o in s.w.objects && s.w.objects[o].class_ in s.per
    requires s.per[s.w.objects[o].class_].copy == None && o in u.w.objects && o in u.replaced
    requires u.replaced == s.replaced[o := u.replaced[o]] && u.w.objects == s.w.objects[o := u.w.objects[o]]
    requires u.w.objects[o].class_ == s.w.objects[o].class_
    ensures Hooked(u, s.w.objects[o].class_) == {o}
  {
    var m := s.w.objects[o].class_;
    assert CopyOk(c, p, s, m);
    if o !in s.replaced { HookedGains(s, u, o, m); }
  }

  /**
   The vtable hook of the first object of a class fails, and the engine hooks the object again, this time without a
   failure: that second event is possible and not sound. It patches the copy and gives it an entry; when the object then
   leaves its object hook, the copy is gone and the entry still names it.
   */
  lemma SecondCallBreaks(c: Config, p: ObjectConfig, s: State, e: Event, f: Event) returns (u: State)
    requires ObjectsInv(c, p, s) && ValidObjects(c, p) && OneVtablePerClass(c) && FailsFirst(c, p, s, e)
    requires f.EngineEvent? && f.o == e.o && f.vtableFault == NoFault
    requires f.id != e.id && f.id !in s.w.vts && f.at != e.at && f.at !in s.w.vtables && f.at !in c.native
    ensures CanHappen(c, p, s, [e]) && u == AfterAll(c, p, s, [e])
    ensures Possible(c, p, u, f) && !SoundEvent(c, p, u, f) && !ObjectsInv(c, p, After(c, p, u, f))
    ensures var w := After(c, p, u, f);
      && e.o in w.w.objects && w.w.objects[e.o].class_ in w.per
      && var gone := UnhookObject(w, e.o).w;
      && f.id in gone.vts && gone.vts[f.id].vtable == u.w.objects[e.o].vptr && gone.vts[f.id].vtable !in gone.vtables
  {
    u := AfterFailure(c, p, s, e);
    OneEvent(c, p, s, e, u);
    HookedAgain(c, p, u, f, Select(c, s.w.objects[e.o].class_).value);
    UnsoundLeaves(c, p, u, f);
  }

  /** Hooking an untracked object again that is alone on a copy without the vtable hooks. */
  lemma HookedAgain(c: Config, p: ObjectConfig, u: State, f: Event, h: HookerId)
    requires ObjectsInv(c, p, u) && ValidObjects(c, p) && OneVtablePerClass(c) && f.EngineEvent? &&
      f.vtableFault == NoFault
    requires f.o in u.replaced && f.o in u.w.objects && Select(c, u.w.objects[f.o].class_) == Some(h) && h in c.specs
    requires h in u.w.hookers && TrackKeyOf(c, u.w, h, f.o) !in u.w.tracked
    requires var m := u.w.objects[f.o].class_; m in u.per && !u.per[m].patched
    requires f.id !in u.w.vts && f.at !in u.w.vtables && f.at !in c.native
    ensures Possible(c, p, u, f) && !SoundEvent(c, p, u, f) && !ObjectsInv(c, p, After(c, p, u, f))
  {
    DoubleHookOnCopy(c, p, u, f.o, h);
    SoundEngineIff(c, p, u, f);
    AfterKeepsIff(c, p, u, f);
  }

  // ---------- an untracked object left behind ----------

  /** No tracked object of class `m` but `o`. */
  ghost predicate OnlyTracked(w: World, m: MetaClass, o: Obj) {
    forall k: TrackKey {:trigger k in w.tracked} :: k in w.tracked && k.class_ == m ==> k.obj == o
  }

  lemma NobodyTracked(c: Config, p: ObjectConfig, s: State, m: MetaClass, v: Addr)
    requires ObjectsInv(c, p, s) && OneVtablePerClass(c) && v in c.home && c.home[v] == m
    requires forall k: TrackKey {:trigger k in s.w.tracked} :: k in s.w.tracked ==> k.class_ != m
    ensures !IsHooked(c, s.w, v)
  {
    HookedIffTracked(c, s.w, v);
    forall k: TrackKey {:trigger s.w.tracked[k]} | k in s.w.tracked ensures s.w.tracked[k].original != v {
      assert TrackedOk(c, s.w, k) && EntryOk(c, s.w, s.w.tracked[k].vtEntry);
    }
  }

  /** The object leaves its object hook; another one of its class keeps the copy. */
  lemma LeavesFirst(c: Config, p: ObjectConfig, s: State, o: Obj, q: Obj) returns (u: State)
    requires ObjectsInv(c, p, s) && ValidObjects(c, p) && OneVtablePerClass(c) && o in s.replaced && q in s.replaced &&
      o != q
    requires o in s.w.objects && q in s.w.objects && s.w.objects[o].class_ == s.w.objects[q].class_ &&
      s.w.objects[o].class_ in s.per
    ensures Possible(c, p, s, LeaveObjectHook(o)) && u == After(c, p, s, LeaveObjectHook(o)) && ObjectsInv(c, p, u)
    ensures u.replaced == s.replaced - {o} && u.w.tracked == s.w.tracked && u.w.hookers == s.w.hookers
    ensures u.w.objects.Keys == s.w.objects.Keys && u.w.objects[q] == s.w.objects[q] &&
      u.w.objects[o].class_ == s.w.objects[o].class_
    ensures var m := s.w.objects[o].class_; m in u.per && u.per[m].copy.Some? && u.per[m].patched == s.per[m].patched
  {
    var m := s.w.objects[o].class_;
    u := UnhookObject(s, o);
    UnhookObjectKeeps(c, p, s, o);
    UnhookingUnhooks(c, p, s, o);
    assert q in Hooked(s, m) - {o};
  }

  /** Then it leaves its vtable hook, and nothing of the class is tracked any more. */
  lemma LeavesLast(c: Config, p: ObjectConfig, s: State, o: Obj, q: Obj, h: HookerId) returns (u: State)
    requires ObjectsInv(c, p, s) && ValidObjects(c, p) && OneVtablePerClass(c) && o !in s.replaced && q in s.replaced &&
      o in s.w.objects
    requires q in s.w.objects && s.w.objects[o].class_ == s.w.objects[q].class_ &&
      Select(c, s.w.objects[o].class_) == Some(h) && h in c.specs
    requires h in s.w.hookers && OnlyTracked(s.w, s.w.objects[o].class_, o) && s.replaced[q] in c.home &&
      c.home[s.replaced[q]] == s.w.objects[q].class_
    ensures Possible(c, p, s, LeaveVtableHook(h, o)) && SoundEvent(c, p, s, LeaveVtableHook(h, o)) &&
      u == After(c, p, s, LeaveVtableHook(h, o)) &&
      ObjectsInv(c, p, u)
    ensures u.replaced == s.replaced && u.per == s.per && u.w.objects == s.w.objects && !IsHooked(c, u.w, s.replaced[q])
  {
    var k := TrackKeyOf(c, s.w, h, o);
    if k in s.w.tracked { TrackedBy(c, s.w, k); }
    SoundUnhookIff(c, s.w, h, o);
    u := After(c, p, s, LeaveVtableHook(h, o));
    AfterKeeps(c, p, s, LeaveVtableHook(h, o));
    NoneLeft(c, s.w, h, o);
    NobodyTracked(c, p, u, s.w.objects[o].class_, s.replaced[q]);
  }

  /** A tracked object is tracked by the hooker the engine picks for its class. */
  lemma TrackedBy(c: Config, w: World, k: TrackKey)
    requires Inv(c, w) && k in w.tracked
    ensures Select(c, k.class_) == Some(w.tracked[k].hooker) && w.tracked[k].hooker in c.specs
    ensures c.specs[w.tracked[k].hooker].depth == k.depth
  {
    assert TrackedOk(c, w, k) && EntryOk(c, w, w.tracked[k].vtEntry);
  }

  /** Without the only tracked object of a class, none of the class is tracked. */
  lemma NoneLeft(c: Config, w: World, h: HookerId, o: Obj)
    requires ValidConfig(c) && Inv(c, w) && h in w.hookers && h in c.specs && o in w.objects
    requires Select(c, w.objects[o].class_) == Some(h) && OnlyTracked(w, w.objects[o].class_, o)
    ensures var u := Unhook(c, w, h, o);
      && u.objects == w.objects
      && forall x: TrackKey {:trigger x in u.tracked} :: x in u.tracked ==> x.class_ != w.objects[o].class_
  {
    var u, k := Unhook(c, w, h, o), TrackKeyOf(c, w, h, o);
    if k in w.tracked { UnhookDefined(c, w, k); }
    forall x: TrackKey {:trigger x in u.tracked} | x in u.tracked ensures x.class_ != w.objects[o].class_ {
      assert x in w.tracked && x != k;
      TrackedBy(c, w, x);
    }
  }

  /**
   When the vtable hook of a later object fails, it shares a copy with the vtable hooks in it. Once the tracked object
   has left both its hooks in the right order, the calls of the other one on a slot with a vtable hook never end.
   */
  lemma LeftBehindNeverEnds(c: Config, p: ObjectConfig, s: State, e: Event, f: Event, x: nat, n: nat) returns (u: State)
    requires ObjectsInv(c, p, s) && ValidObjects(c, p) && OneVtablePerClass(c) && HooksObject(c, p, s, e) &&
      e.vtableFault == NoFault
    requires var m := s.w.objects[e.o].class_;
      && m in s.per && s.per[m].copy == None && Select(c, m).Some? &&
        (forall k: TrackKey {:trigger k in s.w.tracked} :: k in s.w.tracked ==> k.class_ != m)
    requires ObjectsInv(c, p, After(c, p, s, e)) && HooksObject(c, p, After(c, p, s, e), f) && f.vtableFault != NoFault
    requires f.o != e.o && f.o in s.w.objects && s.w.objects[f.o].class_ == s.w.objects[e.o].class_ &&
      s.w.objects[f.o].vptr in c.native
    requires n >= 2 && x < |c.native[s.w.objects[f.o].vptr]| && VtableHook(c, s.w.objects[f.o].class_, x).Some?
    ensures var h := Select(c, s.w.objects[e.o].class_).value;
      var run := [e, f, LeaveObjectHook(e.o), LeaveVtableHook(h, e.o)];
      CanHappen(c, p, s, run) && u == AfterAll(c, p, s, run)
    ensures f.o in u.replaced && f.o in u.w.objects && u.w.objects[f.o].vptr in u.w.vtables &&
      x < |u.w.vtables[u.w.objects[f.o].vptr]|
    ensures var path := Path(c, p, u, f.o, x, u.w.vtables[u.w.objects[f.o].vptr][x], n);
      u.replaced[f.o] in c.native && x < |c.native[u.replaced[f.o]]| && |path| == n + 1 &&
        c.native[u.replaced[f.o]][x] !in path
  {
    var h := Select(c, s.w.objects[e.o].class_).value;
    var s1 := After(c, p, s, e);
    var s2 := BothCopied(c, p, s, e, f);
    u := Leaves(c, p, s2, e.o, f.o, h);
    FourEvents(c, p, s, e, s1, f, s2, LeaveObjectHook(e.o), LeaveVtableHook(h, e.o), u);
    NeverEnds(c, p, u, f.o, x, n);
  }

  lemma Leaves(c: Config, p: ObjectConfig, s: State, o: Obj, q: Obj, h: HookerId) returns (u: State)
    requires ObjectsInv(c, p, s) && ValidObjects(c, p) && OneVtablePerClass(c) && o in s.replaced && q in s.replaced &&
      o != q
    requires o in s.w.objects && q in s.w.objects && s.w.objects[o].class_ == s.w.objects[q].class_ &&
      s.w.objects[o].class_ in s.per
    requires Select(c, s.w.objects[o].class_) == Some(h) && h in c.specs && h in s.w.hookers &&
      OnlyTracked(s.w, s.w.objects[o].class_, o)
    requires s.replaced[q] in c.home && c.home[s.replaced[q]] == s.w.objects[q].class_
    ensures ObjectsInv(c, p, u) && Runs(c, p, s, [LeaveObjectHook(o), LeaveVtableHook(h, o)], u)
    ensures q in u.replaced && u.replaced[q] == s.replaced[q] && q in u.w.objects && u.w.objects[q] == s.w.objects[q] &&
      !IsHooked(c, u.w, s.replaced[q])
    ensures var m := s.w.objects[q].class_; m in u.per && u.per[m].patched == s.per[m].patched
  {
    var t := LeavesFirst(c, p, s, o, q);
    u := LeavesLast(c, p, t, o, q, h);
    TwoEvents(c, p, s, LeaveObjectHook(o), LeaveVtableHook(h, o));
  }

  lemma NeverEnds(c: Config, p: ObjectConfig, s: State, o: Obj, x: nat, n: nat)
    requires ObjectsInv(c, p, s) && ValidObjects(c, p) && OneVtablePerClass(c) && o in s.replaced && o in s.w.objects &&
      n >= 2
    requires s.replaced[o] in c.native && x < |c.native[s.replaced[o]]| && !IsHooked(c, s.w, s.replaced[o])
    requires var m := s.w.objects[o].class_; m in s.per && s.per[m].patched && VtableHook(c, m, x).Some?
    ensures s.w.objects[o].vptr in s.w.vtables && x < |s.w.vtables[s.w.objects[o].vptr]|
    ensures var path := Path(c, p, s, o, x, s.w.vtables[s.w.objects[o].vptr][x], n);
      |path| == n + 1 && c.native[s.replaced[o]][x] !in path
  {
    CallPath(c, p, s, o, x, n);
  }

  lemma BothCopied(c: Config, p: ObjectConfig, s: State, e: Event, f: Event) returns (u: State)
    requires ObjectsInv(c, p, s) && ValidObjects(c, p) && OneVtablePerClass(c) && HooksObject(c, p, s, e) &&
      e.vtableFault == NoFault
    requires var m := s.w.objects[e.o].class_;
      && m in s.per && s.per[m].copy == None && Select(c, m).Some? &&
        (forall k: TrackKey {:trigger k in s.w.tracked} :: k in s.w.tracked ==> k.class_ != m)
    requires ObjectsInv(c, p, After(c, p, s, e)) && HooksObject(c, p, After(c, p, s, e), f) && f.vtableFault != NoFault
    requires f.o != e.o && f.o in s.w.objects && s.w.objects[f.o].class_ == s.w.objects[e.o].class_
    ensures u == After(c, p, After(c, p, s, e), f) && ObjectsInv(c, p, u)
    ensures e.o in u.replaced && f.o in u.replaced && u.replaced[f.o] == s.w.objects[f.o].vptr && e.o in u.w.objects &&
      f.o in u.w.objects
    ensures var m := s.w.objects[e.o].class_;
      && u.w.objects[e.o].class_ == m && u.w.objects[f.o].class_ == m && m in u.per && u.per[m].patched &&
        OnlyTracked(u.w, m, e.o)
      && Select(c, m).value in u.w.hookers && Select(c, m).value in c.specs && u.replaced[f.o] in c.home &&
        c.home[u.replaced[f.o]] == m
  {
    var t := FirstCopied(c, p, s, e);
    u := SecondJoins(c, p, t, f, e.o);
  }

  lemma FirstCopied(c: Config, p: ObjectConfig, s: State, e: Event) returns (t: State)
    requires ObjectsInv(c, p, s) && ValidObjects(c, p) && OneVtablePerClass(c) && HooksObject(c, p, s, e) &&
      e.vtableFault == NoFault
    requires var m := s.w.objects[e.o].class_;
      && m in s.per && s.per[m].copy == None && Select(c, m).Some? &&
        (forall k: TrackKey {:trigger k in s.w.tracked} :: k in s.w.tracked ==> k.class_ != m)
    ensures t == After(c, p, s, e) && ObjectsInv(c, p, t) && e.o in t.replaced && e.o in t.w.objects &&
      t.replaced == s.replaced[e.o := t.replaced[e.o]]
    ensures t.w.objects == s.w.objects[e.o := t.w.objects[e.o]]
    ensures var m := s.w.objects[e.o].class_;
      && t.w.objects[e.o].class_ == m && m in t.per && t.per[m].patched && t.per[m].copy.Some? &&
        OnlyTracked(t.w, m, e.o)
      && Select(c, m).value in t.w.hookers && Select(c, m).value in c.specs
  {
    SelectedTarget(c, s.w.objects[e.o].class_);
    t := Engine(c, p, s, e);
    assert e.o in t.replaced && Tracks(c, t.w, e.o);
    HookedWhenTracked(c, p, t, e.o);
  }

  lemma SecondJoins(c: Config, p: ObjectConfig, t: State, f: Event, o: Obj) returns (u: State)
    requires ObjectsInv(c, p, t) && ValidObjects(c, p) && OneVtablePerClass(c) && HooksObject(c, p, t, f) &&
      f.vtableFault != NoFault && f.o != o
    requires o in t.replaced && o in t.w.objects && t.w.objects[f.o].class_ == t.w.objects[o].class_
    requires var m := t.w.objects[o].class_;
      m in t.per && t.per[m].copy.Some? && t.per[m].patched && OnlyTracked(t.w, m, o)
    ensures u == After(c, p, t, f) && ObjectsInv(c, p, u) && o in u.replaced && f.o in u.replaced &&
      u.replaced[f.o] == t.w.objects[f.o].vptr
    ensures o in u.w.objects && f.o in u.w.objects && u.w.hookers.Keys == t.w.hookers.Keys
    ensures var m := t.w.objects[o].class_;
      && u.w.objects[o].class_ == m && u.w.objects[f.o].class_ == m && m in u.per && u.per[m].patched &&
        OnlyTracked(u.w, m, o)
      && u.replaced[f.o] in c.home && c.home[u.replaced[f.o]] == m
  {
    SelectedIn(c, t.w.objects[o].class_);
    u := Engine(c, p, t, f);
    assert ReplacedOk(c, u, f.o) && CopyOk(c, p, u, t.w.objects[o].class_);
  }

  lemma SelectedIn(c: Config, m: MetaClass)
    requires ValidConfig(c)
    ensures Select(c, m).Some? ==> Select(c, m).value in c.specs
  {
    if Select(c, m).Some? { SelectedTarget(c, m); }
  }

  lemma FourEvents(c: Config, p: ObjectConfig, s: State, e: Event, s1: State, f: Event, s2: State, g: Event, h: Event,
          u: State)
    requires ObjectsInv(c, p, s) && ValidObjects(c, p) && OneVtablePerClass(c) && Possible(c, p, s, e) &&
      SoundEvent(c, p, s, e) && s1 == After(c, p, s, e)
    requires ObjectsInv(c, p, s1) && Possible(c, p, s1, f) && SoundEvent(c, p, s1, f) && s2 == After(c, p, s1, f)
    requires ObjectsInv(c, p, s2) && Runs(c, p, s2, [g, h], u)
    ensures Runs(c, p, s, [e, f, g, h], u)
  {
    ThreeEvents(c, p, s1, f, s2, g, h, u);
    RunFrom(c, p, s, e, s1, [f, g, h], u);
    assert [e] + [f, g, h] == [e, f, g, h];
  }

  lemma ThreeEvents(c: Config, p: ObjectConfig, s: State, f: Event, t: State, g: Event, h: Event, u: State)
    requires ObjectsInv(c, p, s) && ValidObjects(c, p) && OneVtablePerClass(c) && Possible(c, p, s, f) &&
      SoundEvent(c, p, s, f) && t == After(c, p, s, f)
    requires ObjectsInv(c, p, t) && Runs(c, p, t, [g, h], u)
    ensures Runs(c, p, s, [f, g, h], u)
  {
    RunFrom(c, p, s, f, t, [g, h], u);
    assert [f] + [g, h] == [f, g, h];
  }

  // ---------- a class for which both happens ----------

  /** One class with one vtable of two slots: the first gets a vtable hook, the second an object hook. */
  function Plain(): Config {
    Config(map[1 := [10, 20]], map[1 := Root(1)], map[0 := HookerSpec([SlotHook(1, 99)], 0, Root(1))],
      map[(0, Root(1)) := 0])
  }

  function PlainObjects(): ObjectConfig {
    map[Root(1) := [SlotHook(2, 88)]]
  }

  function PlainStart(): State {
    State(World(map[1 := Object(Root(1), 1), 2 := Object(Root(1), 1)], map[1 := [10, 20]], map[], map[], map[], map[],
      map[0 := Hooker(None, 0)]),
          map[Root(1) := ObjectHooker(None, None, None, 0, false)], map[])
  }

  lemma PlainConfig()
    ensures ValidConfig(Plain()) && OneVtablePerClass(Plain()) && Select(Plain(), Root(1)) == Some(0)
  {
  }

  lemma PlainObjectsValid()
    ensures ValidConfig(Plain()) && ValidObjects(Plain(), PlainObjects())
  {
    PlainConfig();
    PlainObjectsApart(Plain(), PlainObjects());
  }

  lemma PlainObjectsApart(c: Config, p: ObjectConfig)
    requires c == Plain() && p == PlainObjects() && ValidConfig(c)
    ensures ValidObjects(c, p)
  {
    forall m: MetaClass, v: Addr {:trigger p[m], c.home[v]} | m in p && v in c.home && c.home[v] == m
      ensures ValidSlots(p[m], |c.native[v]|)
    {
      assert v == 1;
    }
    PlainHooksApart(c, p);
  }

  lemma PlainHooksApart(c: Config, p: ObjectConfig)
    requires c == Plain() && p == PlainObjects()
    ensures forall m: MetaClass, j: nat, h: HookerId, i: nat {:trigger p[m][j], c.specs[h].slots[i]} ::
      m in p && j < |p[m]| && h in c.specs && i < |c.specs[h].slots| ==> p[m][j].hooking != c.specs[h].slots[i].hooking
    ensures forall m: MetaClass, j: nat, v: Addr, k: nat {:trigger p[m][j], c.native[v][k]} ::
      m in p && j < |p[m]| && v in c.native && k < |c.native[v]| ==> p[m][j].hooking != c.native[v][k]
  {
    assert forall m: MetaClass :: m in p ==> p[m] == [SlotHook(2, 88)];
    assert forall v: Addr :: v in c.native ==> c.native[v] == [10, 20];
    assert forall h: HookerId :: h in c.specs ==> c.specs[h].slots == [SlotHook(1, 99)];
  }

  lemma PlainHooks()
    ensures VtableHook(Plain(), Root(1), 0) == Some(99) && ObjectHook(PlainObjects(), Root(1), 0) == None
  {
  }

  lemma PlainWorld()
    ensures Inv(Plain(), PlainStart().w)
  {
    assert Mine(PlainStart().w, 0) == {};
  }

  lemma PlainInv()
    ensures ObjectsInv(Plain(), PlainObjects(), PlainStart())
  {
    PlainConfig();
    PlainWorld();
    assert Hooked(PlainStart(), Root(1)) == {};
  }

  /** Both objects can be hooked from the start. */
  lemma PlainReady(e: Event)
    requires e.EngineEvent? && e.fault == NoFault && (e.o == 1 || e.o == 2) && e.at != 1
    ensures ObjectsInv(Plain(), PlainObjects(), PlainStart()) && ValidObjects(Plain(), PlainObjects()) &&
      OneVtablePerClass(Plain()) && Select(Plain(), Root(1)) == Some(0)
    ensures HooksObject(Plain(), PlainObjects(), PlainStart(), e)
  {
    PlainConfig();
    PlainObjectsValid();
    PlainInv();
    PlainHookable(Plain(), PlainObjects(), PlainStart(), e);
  }

  lemma PlainHookable(c: Config, p: ObjectConfig, s: State, e: Event)
    requires c == Plain() && p == PlainObjects() && s == PlainStart() && Select(c, Root(1)) == Some(0)
    requires ObjectsInv(c, p, s) && ValidObjects(c, p) && OneVtablePerClass(c)
    requires e.EngineEvent? && e.fault == NoFault && (e.o == 1 || e.o == 2) && e.at != 1
    ensures HooksObject(c, p, s, e)
  {
    CanBeHooked(c, p, s, e);
  }

  /** The first object's vtable hook fails, everything else succeeds: a call on the first slot of the second object goes
      straight to the native function. */
  lemma SecondObjectMisses()
    ensures ObjectsInv(Plain(), PlainObjects(), PlainStart()) && ValidObjects(Plain(), PlainObjects()) &&
      OneVtablePerClass(Plain())
    ensures var c, p := Plain(), PlainObjects();
      var run := [EngineEvent(1, 7, AllocationFails, NoFault, 50), EngineEvent(2, 8, NoFault, NoFault, 51)];
      CanHappen(c, p, PlainStart(), run) &&
      var u := AfterAll(c, p, PlainStart(), run);
      && 2 in u.replaced && 2 in u.w.objects && IsHooked(c, u.w, 1) && Tracks(c, u.w, 2)
      && u.w.objects[2].vptr in u.w.vtables && |u.w.vtables[u.w.objects[2].vptr]| > 0
      && Path(c, p, u, 2, 0, u.w.vtables[u.w.objects[2].vptr][0], 2) == [10]
  {
    var e, f := EngineEvent(1, 7, AllocationFails, NoFault, 50), EngineEvent(2, 8, NoFault, NoFault, 51);
    PlainReady(e);
    PlainReady(f);
    PlainHooks();
    StillPossible(Plain(), PlainObjects(), PlainStart(), e, f);
    var u := LaterObjectMisses(Plain(), PlainObjects(), PlainStart(), e, f, 0, 2);
  }

  /** The second object's vtable hook fails and the first object leaves: a call on the first slot of the second never
      reaches the native function. */
  lemma SecondObjectNeverEnds(n: nat)
    requires n >= 2
    ensures ObjectsInv(Plain(), PlainObjects(), PlainStart()) && ValidObjects(Plain(), PlainObjects()) &&
      OneVtablePerClass(Plain())
    ensures var c, p := Plain(), PlainObjects();
      var run := [EngineEvent(1, 7, NoFault, NoFault, 50), EngineEvent(2, 8, AllocationFails, NoFault, 51),
        LeaveObjectHook(1), LeaveVtableHook(0, 1)];
      CanHappen(c, p, PlainStart(), run) &&
      var u := AfterAll(c, p, PlainStart(), run);
      && 2 in u.replaced && 2 in u.w.objects && u.w.objects[2].vptr in u.w.vtables &&
        |u.w.vtables[u.w.objects[2].vptr]| > 0
      && |Path(c, p, u, 2, 0, u.w.vtables[u.w.objects[2].vptr][0], n)| == n + 1
  {
    var e, f := EngineEvent(1, 7, NoFault, NoFault, 50), EngineEvent(2, 8, AllocationFails, NoFault, 51);
    PlainReady(e);
    PlainReady(f);
    PlainHooks();
    StillPossible(Plain(), PlainObjects(), PlainStart(), e, f);
    var u := LeftBehindNeverEnds(Plain(), PlainObjects(), PlainStart(), e, f, 0, n);
  }

  /** Object 1 is hooked twice, and the vtable hook fails the first time: after the second time the bookkeeping is
      wrong,
      and once the object has left its object hook, entry 8 names a vtable that is gone. */
  lemma SecondCallOnPlain()
    ensures ObjectsInv(Plain(), PlainObjects(), PlainStart()) && ValidObjects(Plain(), PlainObjects()) &&
      OneVtablePerClass(Plain())
    ensures var c, p := Plain(), PlainObjects();
      var run, again := [EngineEvent(1, 7, AllocationFails, NoFault, 50)], EngineEvent(1, 8, NoFault, NoFault, 51);
      CanHappen(c, p, PlainStart(), run) &&
      var u := AfterAll(c, p, PlainStart(), run);
      && Possible(c, p, u, again) && !ObjectsInv(c, p, After(c, p, u, again))
      && var w := After(c, p, u, again);
      && 1 in w.w.objects && w.w.objects[1].class_ in w.per
      && var gone := UnhookObject(w, 1).w;
      8 in gone.vts && gone.vts[8].vtable !in gone.vtables
  {
    var e, f := EngineEvent(1, 7, AllocationFails, NoFault, 50), EngineEvent(1, 8, NoFault, NoFault, 51);
    PlainReady(e);
    var u := SecondCallBreaks(Plain(), PlainObjects(), PlainStart(), e, f);
  }
}
