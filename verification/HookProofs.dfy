/** Every hook and unhook keeps the invariant of the vtable hook manager, or exactly when it does not. */
module HookProofs {
  import opened HookModel
  import opened Options

  // ---------- counting ----------

  lemma UsersAdded(w: World, u: World, k: TrackKey, e: ObjEntry, id: Id)
    requires k !in w.tracked && u.tracked == w.tracked[k := e]
    ensures |Users(u, id)| == |Users(w, id)| + if e.vtEntry == id then 1 else 0
  {
    assert Users(u, id) == if e.vtEntry == id then Users(w, id) + {k} else Users(w, id);
  }

  lemma MineAdded(w: World, u: World, k: TrackKey, e: ObjEntry, h: HookerId)
    requires k !in w.tracked && u.tracked == w.tracked[k := e]
    ensures |Mine(u, h)| == |Mine(w, h)| + if e.hooker == h then 1 else 0
  {
    assert Mine(u, h) == if e.hooker == h then Mine(w, h) + {k} else Mine(w, h);
  }

  lemma UsersRemoved(w: World, u: World, k: TrackKey, id: Id)
    requires k in w.tracked && u.tracked == w.tracked - {k}
    ensures |Users(u, id)| == |Users(w, id)| - if w.tracked[k].vtEntry == id then 1 else 0
  {
    assert Users(u, id) == Users(w, id) - {k};
  }

  lemma MineRemoved(w: World, u: World, k: TrackKey, h: HookerId)
    requires k in w.tracked && u.tracked == w.tracked - {k}
    ensures |Mine(u, h)| == |Mine(w, h)| - if w.tracked[k].hooker == h then 1 else 0
  {
    assert Mine(u, h) == Mine(w, h) - {k};
  }

  lemma OthersAdded(w: World, u: World, k: VtKey, new_: Id, id: Id, g: ClassKey)
    requires k !in w.hooked && u.hooked == w.hooked[k := new_]
    ensures |Others(u, id, g)| == |Others(w, id, g)| + if k.class_ == g.class_ && k.depth == g.depth && new_ != id
      then 1 else 0
  {
    var a, b := Others(w, id, g), Others(u, id, g);
    assert k !in a;
    if k.class_ == g.class_ && k.depth == g.depth && new_ != id {
      assert b == a + {k};
    } else {
      assert b == a;
    }
  }

  lemma OthersRemoved(w: World, u: World, k: VtKey, id: Id, g: ClassKey)
    requires k in w.hooked && u.hooked == w.hooked - {k}
    ensures |Others(u, id, g)| == |Others(w, id, g)| - if k.class_ == g.class_ && k.depth == g.depth &&
      w.hooked[k] != id then 1 else 0
  {
    assert Others(u, id, g) == Others(w, id, g) - {k};
  }

  // ---------- slots ----------

  /** Writing back what was recorded undoes the patch, slot for slot. */
  lemma RestoredPatched(table: seq<Fn>, slots: seq<SlotHook>)
    requires ValidSlots(slots, |table|)
    ensures Restored(Patched(table, slots), Recorded(table, slots)) == table
  {
    var info := Recorded(table, slots);
    forall i: nat | i < |table|
      ensures Restored(Patched(table, slots), info)[i] == table[i]
    {
      OriginalRecorded(table, slots, 0, i);
      assert slots[0..] == slots && info[0..] == info;
    }
  }

  /** A slot has a saved original exactly when it has a hook, and then the original is the native function. */
  lemma {:induction false} OriginalRecorded(table: seq<Fn>, slots: seq<SlotHook>, k: nat, i: nat)
    requires k <= |slots| && i < |table|
    requires forall i: nat {:trigger slots[i]} :: i < |slots| ==> 1 <= slots[i].index <= |table|
    ensures OriginalFor(Recorded(table, slots)[k..], i) == if HookFor(slots[k..], i).Some? then Some(table[i]) else None
    decreases |slots| - k
  {
    if k < |slots| {
      OriginalRecorded(table, slots, k + 1, i);
      var info := Recorded(table, slots);
      assert info[k..][1..] == info[k + 1..] && slots[k..][1..] == slots[k + 1..];
    }
  }

  // ---------- tracking one more object ----------

  /** What the engine guarantees when it hooks an object: its class picks the hooker, and the slots to hook are inside
      the vtable it uses, one of its class or a private one. */
  ghost predicate EngineHooks(c: Config, w: World, h: HookerId, o: Obj) {
    && o in w.objects && h in w.hookers && h in c.specs
    && Select(c, w.objects[o].class_) == Some(h)
    && w.objects[o].vptr in w.vtables && ValidSlots(c.specs[h].slots, |w.vtables[w.objects[o].vptr]|)
  }

  /** The slots of the hooker the engine picks are inside every vtable of the class. */
  lemma OwnVtableFits(c: Config, w: World, o: Obj)
    requires ValidConfig(c) && Inv(c, w) && o in w.objects && w.objects[o].vptr in c.home
    requires Select(c, w.objects[o].class_).Some?
    ensures var h, v := Select(c, w.objects[o].class_).value, w.objects[o].vptr;
      h in c.specs && v in w.vtables && ValidSlots(c.specs[h].slots, |w.vtables[v]|)
  {
    assert ObjectOk(c, w, o) && SlotsOk(c, w, w.objects[o].vptr);
    assert c.home[w.objects[o].vptr] == w.objects[o].class_;
  }

  function TrackKeyOf(c: Config, w: World, h: HookerId, o: Obj): TrackKey
    requires o in w.objects && h in c.specs
  {
    TrackKey(o, w.objects[o].class_, c.specs[h].depth)
  }

  function VtKeyOf(c: Config, w: World, h: HookerId, o: Obj): VtKey
    requires o in w.objects && h in c.specs
  {
    VtKey(w.objects[o].vptr, w.objects[o].class_, c.specs[h].depth)
  }

  lemma NoteClassKeeps(c: Config, w: World, h: HookerId, o: Obj)
    requires ValidConfig(c) && Inv(c, w) && EngineHooks(c, w, h, o)
    ensures Inv(c, NoteClass(c, w, h, o)) && NoteClass(c, w, h, o).hookers[h].metaClass == Some(c.specs[h].target)
    ensures NoteClass(c, w, h, o) == w.(hookers := NoteClass(c, w, h, o).hookers)
    ensures NoteClass(c, w, h, o).hookers.Keys == w.hookers.Keys
    ensures forall x: HookerId {:trigger w.hookers[x]} :: x in w.hookers ==>
      NoteClass(c, w, h, o).hookers[x].counter == w.hookers[x].counter
  {
    SelectedTarget(c, w.objects[o].class_);
    assert HookerOk(c, w, h);
    SameTable(c, w, NoteClass(c, w, h, o));
  }

  /** Only class pointers of hookers changed, towards the right class. */
  lemma SameTable(c: Config, w: World, u: World)
    requires Inv(c, w) && u == w.(hookers := u.hookers) && u.hookers.Keys == w.hookers.Keys
    requires forall h: HookerId {:trigger u.hookers[h]} :: h in w.hookers ==>
               u.hookers[h].counter == w.hookers[h].counter &&
               (u.hookers[h].metaClass == w.hookers[h].metaClass ||
                 (h in c.specs && u.hookers[h].metaClass == Some(c.specs[h].target)))
    ensures Inv(c, u)
  {
    forall o: Obj {:trigger ObjectOk(c, u, o)} | o in u.objects ensures ObjectOk(c, u, o) { assert ObjectOk(c, w, o); }
    forall k: TrackKey {:trigger TrackedOk(c, u, k)} | k in u.tracked
      ensures TrackedOk(c, u, k) { assert TrackedOk(c, w, k); }
    forall id: Id {:trigger EntryOk(c, u, id)} | id in u.vts
      ensures EntryOk(c, u, id) { assert EntryOk(c, w, id); SameCounts(w, u, id, GroupOf(w.vts[id])); }
    forall k: VtKey {:trigger HookedOk(u, k)} | k in u.hooked ensures HookedOk(u, k) { assert HookedOk(w, k); }
    forall g: ClassKey {:trigger AnyOk(u, g)} | g in u.anyVt ensures AnyOk(u, g) { assert AnyOk(w, g); }
    forall h: HookerId {:trigger HookerOk(c, u, h)} | h in u.hookers
      ensures HookerOk(c, u, h) { assert HookerOk(c, w, h); assert Mine(u, h) == Mine(w, h); }
    forall v: Addr {:trigger SlotsOk(c, u, v)} | v in c.native ensures SlotsOk(c, u, v) { assert SlotsOk(c, w, v); }
  }

  lemma SameCounts(w: World, u: World, id: Id, g: ClassKey)
    requires u.tracked == w.tracked && u.hooked == w.hooked && u.anyVt == w.anyVt
    ensures ExpectedRefs(u, id, g) == ExpectedRefs(w, id, g) && ExpectedRetain(u, id, g) == ExpectedRetain(w, id, g)
  {
    assert Users(u, id) == Users(w, id) && Others(u, id, g) == Others(w, id, g);
  }

  /** One more object of a hooked vtable is tracked. */
  lemma TrackKeeps(c: Config, w: World, h: HookerId, o: Obj)
    requires ValidConfig(c) && Inv(c, w) && EngineHooks(c, w, h, o)
    requires TrackKeyOf(c, w, h, o) !in w.tracked && VtKeyOf(c, w, h, o) in w.hooked
    ensures w.hooked[VtKeyOf(c, w, h, o)] in w.vts
    ensures Inv(c, Track(w, h, TrackKeyOf(c, w, h, o), w.hooked[VtKeyOf(c, w, h, o)]))
  {
    var k, vk := TrackKeyOf(c, w, h, o), VtKeyOf(c, w, h, o);
    assert HookedOk(w, vk);
    var id := w.hooked[vk];
    assert EntryOk(c, w, id);
    var u := Track(w, h, k, id);
    var e := ObjEntry(h, id, vk.vtable, 1);
    forall x: Obj {:trigger ObjectOk(c, u, x)} | x in u.objects ensures ObjectOk(c, u, x) { assert ObjectOk(c, w, x); }
    forall x: TrackKey {:trigger TrackedOk(c, u, x)} | x in u.tracked ensures TrackedOk(c, u, x) {
      if x != k { assert TrackedOk(c, w, x); }
    }
    forall x: Id {:trigger EntryOk(c, u, x)} | x in u.vts ensures EntryOk(c, u, x) {
      assert EntryOk(c, w, x);
      UsersAdded(w, u, k, e, x);
      assert Others(u, x, GroupOf(w.vts[x])) == Others(w, x, GroupOf(w.vts[x]));
    }
    forall x: VtKey {:trigger HookedOk(u, x)} | x in u.hooked ensures HookedOk(u, x) { assert HookedOk(w, x); }
    forall x: ClassKey {:trigger AnyOk(u, x)} | x in u.anyVt ensures AnyOk(u, x) { assert AnyOk(w, x); }
    forall x: HookerId {:trigger HookerOk(c, u, x)} | x in u.hookers ensures HookerOk(c, u, x) {
      assert HookerOk(c, w, x);
      MineAdded(w, u, k, e, x);
    }
    forall x: Addr {:trigger SlotsOk(c, u, x)} | x in c.native ensures SlotsOk(c, u, x) { assert SlotsOk(c, w, x); }
  }

  // ---------- hooking a vtable ----------

  /** The vtable of an object that may be hooked by `h` and is not hooked yet is pristine, and its slots are valid. */
  lemma InstallDefined(c: Config, w: World, h: HookerId, o: Obj)
    requires ValidConfig(c) && Inv(c, w) && EngineHooks(c, w, h, o) && VtKeyOf(c, w, h, o) !in w.hooked
    requires w.objects[o].vptr in c.home
    ensures var v := w.objects[o].vptr;
      && v in w.vtables && v in c.native && w.vtables[v] == c.native[v] && ValidSlots(c.specs[h].slots, |w.vtables[v]|)
      && HookKey(c, v) == Some(VtKeyOf(c, w, h, o))
    ensures ClassKey(w.objects[o].class_, c.specs[h].depth) in w.anyVt ==>
      w.anyVt[ClassKey(w.objects[o].class_, c.specs[h].depth)] in w.vts
  {
    var v := w.objects[o].vptr;
    assert ObjectOk(c, w, o);
    assert c.home[v] == w.objects[o].class_;
    assert SlotsOk(c, w, v);
    OwnerDefined(c, w, h, o);
  }

  /** The owner of the NULL key of an object's class and depth, if there is one, is an entry of that group. */
  lemma OwnerDefined(c: Config, w: World, h: HookerId, o: Obj)
    requires Inv(c, w) && o in w.objects && h in c.specs
    ensures var g := ClassKey(w.objects[o].class_, c.specs[h].depth);
      && (g in w.anyVt ==> w.anyVt[g] in w.vts && GroupOf(w.vts[w.anyVt[g]]) == g)
      && (g !in w.anyVt ==> forall k: VtKey {:trigger k in w.hooked} :: k in w.hooked ==>
        k.class_ != g.class_ || k.depth != g.depth)
  {
    var g := ClassKey(w.objects[o].class_, c.specs[h].depth);
    if g in w.anyVt { assert AnyOk(w, g); }
    else {
      forall k: VtKey {:trigger k in w.hooked} | k in w.hooked ensures k.class_ != g.class_ || k.depth != g.depth {
        assert HookedOk(w, k) && EntryOk(c, w, w.hooked[k]);
      }
    }
  }

  lemma InstallKeeps(c: Config, w: World, h: HookerId, o: Obj, id: Id)
    requires ValidConfig(c) && Inv(c, w) && EngineHooks(c, w, h, o) && w.hookers[h].metaClass == Some(c.specs[h].target)
    requires w.objects[o].vptr in c.home
    requires TrackKeyOf(c, w, h, o) !in w.tracked && VtKeyOf(c, w, h, o) !in w.hooked && id !in w.vts
    ensures w.objects[o].vptr in w.vtables && ValidSlots(c.specs[h].slots, |w.vtables[w.objects[o].vptr]|)
    ensures ClassKey(w.objects[o].class_, c.specs[h].depth) in w.anyVt ==>
      w.anyVt[ClassKey(w.objects[o].class_, c.specs[h].depth)] in w.vts
    ensures Inv(c, Install(c, w, h, TrackKeyOf(c, w, h, o), w.objects[o].vptr, id))
  {
    InstallDefined(c, w, h, o);
    var k, vk, v := TrackKeyOf(c, w, h, o), VtKeyOf(c, w, h, o), w.objects[o].vptr;
    var u := Install(c, w, h, k, v, id);
    forall x: Obj {:trigger ObjectOk(c, u, x)} | x in u.objects ensures ObjectOk(c, u, x) { assert ObjectOk(c, w, x); }
    forall x: TrackKey {:trigger TrackedOk(c, u, x)} | x in u.tracked ensures TrackedOk(c, u, x) {
      if x != k { assert TrackedOk(c, w, x); }
    }
    InstallEntries(c, w, h, o, id, u);
    forall x: VtKey {:trigger HookedOk(u, x)} | x in u.hooked
      ensures HookedOk(u, x) { if x != vk { assert HookedOk(w, x); } }
    forall x: ClassKey {:trigger AnyOk(u, x)} | x in u.anyVt
      ensures AnyOk(u, x) { if x in w.anyVt { assert AnyOk(w, x); } }
    forall x: HookerId {:trigger HookerOk(c, u, x)} | x in u.hookers ensures HookerOk(c, u, x) {
      assert HookerOk(c, w, x);
      MineAdded(w, u, k, u.tracked[k], x);
    }
    forall x: Addr {:trigger SlotsOk(c, u, x)} | x in c.native ensures SlotsOk(c, u, x) { assert SlotsOk(c, w, x); }
  }

  lemma InstallEntries(c: Config, w: World, h: HookerId, o: Obj, id: Id, u: World)
    requires ValidConfig(c) && Inv(c, w) && EngineHooks(c, w, h, o) && w.hookers[h].metaClass == Some(c.specs[h].target)
    requires w.objects[o].vptr in c.home
    requires TrackKeyOf(c, w, h, o) !in w.tracked && VtKeyOf(c, w, h, o) !in w.hooked && id !in w.vts
    requires w.objects[o].vptr in w.vtables && ValidSlots(c.specs[h].slots, |w.vtables[w.objects[o].vptr]|)
    requires ClassKey(w.objects[o].class_, c.specs[h].depth) in w.anyVt ==>
      w.anyVt[ClassKey(w.objects[o].class_, c.specs[h].depth)] in w.vts
    requires u == Install(c, w, h, TrackKeyOf(c, w, h, o), w.objects[o].vptr, id)
    ensures forall x: Id {:trigger EntryOk(c, u, x)} :: x in u.vts ==> EntryOk(c, u, x)
  {
    forall x: Id {:trigger EntryOk(c, u, x)} | x in u.vts ensures EntryOk(c, u, x) {
      if x == id { InstalledEntry(c, w, h, o, id, u); } else { InstallEntry(c, w, h, o, id, u, x); }
    }
  }

  lemma InstalledEntry(c: Config, w: World, h: HookerId, o: Obj, id: Id, u: World)
    requires ValidConfig(c) && Inv(c, w) && EngineHooks(c, w, h, o) && w.hookers[h].metaClass == Some(c.specs[h].target)
    requires w.objects[o].vptr in c.home
    requires TrackKeyOf(c, w, h, o) !in w.tracked && VtKeyOf(c, w, h, o) !in w.hooked && id !in w.vts
    requires w.objects[o].vptr in w.vtables && ValidSlots(c.specs[h].slots, |w.vtables[w.objects[o].vptr]|)
    requires ClassKey(w.objects[o].class_, c.specs[h].depth) in w.anyVt ==>
      w.anyVt[ClassKey(w.objects[o].class_, c.specs[h].depth)] in w.vts
    requires u == Install(c, w, h, TrackKeyOf(c, w, h, o), w.objects[o].vptr, id)
    ensures id in u.vts && EntryOk(c, u, id)
  {
    InstallDefined(c, w, h, o);
    OwnerDefined(c, w, h, o);
    var k, vk, g := TrackKeyOf(c, w, h, o), VtKeyOf(c, w, h, o), ClassKey(w.objects[o].class_, c.specs[h].depth);
    UsersAdded(w, u, k, u.tracked[k], id);
    assert Users(w, id) == {} by {
      forall x: TrackKey | x in w.tracked ensures w.tracked[x].vtEntry != id { assert TrackedOk(c, w, x); }
    }
    if g !in w.anyVt {
      OthersAdded(w, u, vk, id, id, g);
      assert Others(w, id, g) == {};
    }
  }

  lemma InstallEntry(c: Config, w: World, h: HookerId, o: Obj, id: Id, u: World, x: Id)
    requires ValidConfig(c) && Inv(c, w) && EngineHooks(c, w, h, o)
    requires w.objects[o].vptr in c.home
    requires TrackKeyOf(c, w, h, o) !in w.tracked && VtKeyOf(c, w, h, o) !in w.hooked && id !in w.vts
    requires w.objects[o].vptr in w.vtables && ValidSlots(c.specs[h].slots, |w.vtables[w.objects[o].vptr]|)
    requires ClassKey(w.objects[o].class_, c.specs[h].depth) in w.anyVt ==>
      w.anyVt[ClassKey(w.objects[o].class_, c.specs[h].depth)] in w.vts
    requires u == Install(c, w, h, TrackKeyOf(c, w, h, o), w.objects[o].vptr, id)
    requires x in u.vts && x != id
    ensures EntryOk(c, u, x)
  {
    var k := TrackKeyOf(c, w, h, o);
    var g := ClassKey(k.class_, k.depth);
    assert EntryOk(c, w, x) && (g in w.anyVt ==> AnyOk(w, g));
    EntryGains(c, w, h, k, VtKeyOf(c, w, h, o), id, u, x);
  }

  /** An entry that owns the NULL key of the class gains a reference for the new entry; others do not notice. */
  lemma EntryGains(c: Config, w: World, h: HookerId, k: TrackKey, vk: VtKey, id: Id, u: World, x: Id)
    requires h in w.hookers && x in w.vts && x in u.vts && x != id && EntryOk(c, w, x)
    requires k !in w.tracked && k in u.tracked && u.tracked == w.tracked[k := u.tracked[k]] &&
      u.tracked[k].vtEntry == id
    requires vk !in w.hooked && u.hooked == w.hooked[vk := id] && u.hookers == CountUp(w, h)
    requires var g := GroupOf(w.vts[x]);
      && g in u.anyVt && u.anyVt[g] == w.anyVt[g]
      && u.vts[x] == if g == ClassKey(vk.class_, vk.depth) && w.anyVt[g] == x
        then w.vts[x].(refs := w.vts[x].refs + 1) else w.vts[x]
    ensures EntryOk(c, u, x)
  {
    UsersAdded(w, u, k, u.tracked[k], x);
    OthersAdded(w, u, vk, id, x, GroupOf(w.vts[x]));
  }

  // ---------- unhooking ----------

  /** Everything that does not depend on which vtable entries are left: objects, tracked keys, hookers. */
  lemma RemovedBasics(c: Config, w: World, u: World, h: HookerId, k: TrackKey)
    requires Inv(c, w) && k in w.tracked && w.tracked[k].hooker == h && h in w.hookers
    requires u.objects == w.objects && u.tracked == w.tracked - {k} && u.hookers == CountDown(w, h)
    requires w.vtables.Keys <= u.vtables.Keys
    requires forall x: TrackKey {:trigger x in u.tracked} :: x in u.tracked ==>
               var i := w.tracked[x].vtEntry;
                 i in w.vts && i in u.vts && KeyOf(u.vts[i]) == KeyOf(w.vts[i]) && u.vts[i].hooker == w.vts[i].hooker
    ensures forall x: Obj {:trigger ObjectOk(c, u, x)} :: x in u.objects ==> ObjectOk(c, u, x)
    ensures forall x: TrackKey {:trigger TrackedOk(c, u, x)} :: x in u.tracked ==> TrackedOk(c, u, x)
    ensures forall x: HookerId {:trigger HookerOk(c, u, x)} :: x in u.hookers ==> HookerOk(c, u, x)
  {
    forall x: Obj {:trigger ObjectOk(c, u, x)} | x in u.objects ensures ObjectOk(c, u, x) { assert ObjectOk(c, w, x); }
    forall x: TrackKey {:trigger TrackedOk(c, u, x)} | x in u.tracked
      ensures TrackedOk(c, u, x) { assert TrackedOk(c, w, x) && x in u.tracked; }
    forall x: HookerId {:trigger HookerOk(c, u, x)} | x in u.hookers ensures HookerOk(c, u, x) {
      assert HookerOk(c, w, x);
      MineRemoved(w, u, k, x);
    }
  }

  lemma UntrackKeeps(c: Config, w: World, h: HookerId, k: TrackKey)
    requires Inv(c, w) && k in w.tracked && w.tracked[k].hooker == h && h in w.hookers
    requires w.tracked[k].vtEntry in w.vts && w.vts[w.tracked[k].vtEntry].refs > 1 &&
      w.vts[w.tracked[k].vtEntry].retain > 0
    ensures Inv(c, Untrack(w, h, k))
  {
    var u, id := Untrack(w, h, k), w.tracked[k].vtEntry;
    forall x: TrackKey {:trigger x in u.tracked} | x in u.tracked
      ensures w.tracked[x].vtEntry in w.vts { assert TrackedOk(c, w, x); }
    RemovedBasics(c, w, u, h, k);
    forall x: Id {:trigger EntryOk(c, u, x)} | x in u.vts ensures EntryOk(c, u, x) {
      assert EntryOk(c, w, x);
      UsersRemoved(w, u, k, x);
      assert Others(u, x, GroupOf(w.vts[x])) == Others(w, x, GroupOf(w.vts[x]));
    }
    forall x: VtKey {:trigger HookedOk(u, x)} | x in u.hooked ensures HookedOk(u, x) { assert HookedOk(w, x); }
    forall x: ClassKey {:trigger AnyOk(u, x)} | x in u.anyVt ensures AnyOk(u, x) { assert AnyOk(w, x); }
    forall x: Addr {:trigger SlotsOk(c, u, x)} | x in c.native ensures SlotsOk(c, u, x) { assert SlotsOk(c, w, x); }
  }

  /** The entry that loses its last reference while another vtable of its class still owns the NULL key, and that
      owner has no other reference left: the guard of the branch that goes wrong. */
  ghost predicate StrandsOwner(w: World, k: TrackKey)
    requires k in w.tracked && w.tracked[k].vtEntry in w.vts
  {
    var id := w.tracked[k].vtEntry;
    var g := GroupOf(w.vts[id]);
    w.vts[id].refs == 1 && g in w.anyVt && w.anyVt[g] != id && w.anyVt[g] in w.vts && w.vts[w.anyVt[g]].refs == 1
  }

  /** An entry that loses its last reference has exactly the one user, and if it owns the NULL key it is alone in its
      group. */
  lemma LastReference(c: Config, w: World, k: TrackKey)
    requires Inv(c, w) && k in w.tracked && w.tracked[k].vtEntry in w.vts && w.vts[w.tracked[k].vtEntry].refs == 1
    ensures var id := w.tracked[k].vtEntry; var g := GroupOf(w.vts[id]);
      && Users(w, id) == {k} && (Owns(w, id, g) ==> Others(w, id, g) == {}) && w.vts[id].retain == if Owns(w, id, g)
        then 3 else 2
  {
    var id := w.tracked[k].vtEntry;
    assert EntryOk(c, w, id);
    assert {k} <= Users(w, id);
    SubsetSize({k}, Users(w, id));
  }

  lemma SubsetSize<T>(a: set<T>, b: set<T>)
    requires a <= b
    ensures |a| <= |b| && (|a| == |b| ==> a == b)
  {
    assert b == a + (b - a);
  }

  lemma UninstallKeeps(c: Config, w: World, h: HookerId, k: TrackKey)
    requires ValidConfig(c) && Inv(c, w) && k in w.tracked && w.tracked[k].hooker == h && h in w.hookers
    requires w.tracked[k].vtEntry in w.vts && w.vts[w.tracked[k].vtEntry].refs == 1 && !StrandsOwner(w, k)
    ensures UninstallOk(w, h, k) && Inv(c, Uninstall(w, h, k))
  {
    UnhookDefined(c, w, k);
    LastReference(c, w, k);
    var u, id := Uninstall(w, h, k), w.tracked[k].vtEntry;
    var vk, g := KeyOf(w.vts[id]), GroupOf(w.vts[id]);
    assert EntryOk(c, w, id);
    forall x: TrackKey {:trigger x in u.tracked} | x in u.tracked
      ensures var i := w.tracked[x].vtEntry;
        i in w.vts && i in u.vts && KeyOf(u.vts[i]) == KeyOf(w.vts[i]) && u.vts[i].hooker == w.vts[i].hooker
    {
      assert TrackedOk(c, w, x) && x !in Users(w, id);
    }
    RemovedBasics(c, w, u, h, k);
    forall x: Id {:trigger EntryOk(c, u, x)} | x in u.vts ensures EntryOk(c, u, x) { UninstallEntry(c, w, h, k, u, x); }
    forall x: VtKey {:trigger HookedOk(u, x)} | x in u.hooked ensures HookedOk(u, x) { assert HookedOk(w, x); }
    forall x: ClassKey {:trigger AnyOk(u, x)} | x in u.anyVt ensures AnyOk(u, x) { assert AnyOk(w, x); }
    forall x: Addr {:trigger SlotsOk(c, u, x)} | x in c.native ensures SlotsOk(c, u, x) {
      assert SlotsOk(c, w, x);
      if x == vk.vtable { RestoredPatched(c.native[x], c.specs[w.vts[id].hooker].slots); }
    }
  }

  ghost predicate UninstallOk(w: World, h: HookerId, k: TrackKey) {
    && h in w.hookers && k in w.tracked && w.tracked[k].vtEntry in w.vts
    && w.vts[w.tracked[k].vtEntry].vtable in w.vtables
    && GroupOf(w.vts[w.tracked[k].vtEntry]) in w.anyVt
    && (var own := w.anyVt[GroupOf(w.vts[w.tracked[k].vtEntry])];
      own in w.vts && w.vts[own].refs > 0 && w.vts[own].retain > 0)
  }

  lemma UninstallEntry(c: Config, w: World, h: HookerId, k: TrackKey, u: World, x: Id)
    requires ValidConfig(c) && Inv(c, w) && k in w.tracked && w.tracked[k].hooker == h && UninstallOk(w, h, k)
    requires w.vts[w.tracked[k].vtEntry].refs == 1 && !StrandsOwner(w, k) && u == Uninstall(w, h, k) && x in u.vts
    ensures EntryOk(c, u, x)
  {
    LastReference(c, w, k);
    var id := w.tracked[k].vtEntry;
    assert EntryOk(c, w, id) && EntryOk(c, w, x);
    var g := GroupOf(w.vts[id]);
    assert AnyOk(w, g);
    if GroupOf(w.vts[x]) == g {
      assert x != id && KeyOf(w.vts[x]) in w.hooked;
      assert KeyOf(w.vts[x]) in Others(w, id, g);
    }
    EntryStays(c, w, h, k, u, x);
  }

  /** An entry that owned the NULL key of the class loses the reference that stood for the removed entry; others do not
      notice. */
  lemma EntryStays(c: Config, w: World, h: HookerId, k: TrackKey, u: World, x: Id)
    requires k in w.tracked && w.tracked[k].vtEntry in w.vts && h in w.hookers && x in w.vts && x in u.vts
    requires EntryOk(c, w, x) && EntryOk(c, w, w.tracked[k].vtEntry) && x != w.tracked[k].vtEntry
    requires u.tracked == w.tracked - {k} && u.hooked == w.hooked - {KeyOf(w.vts[w.tracked[k].vtEntry])} &&
      u.hookers == CountDown(w, h)
    requires var g := GroupOf(w.vts[x]);
      && g in u.anyVt && u.anyVt[g] == w.anyVt[g]
      && u.vts[x] == if g == GroupOf(w.vts[w.tracked[k].vtEntry]) && w.anyVt[g] == x
        then w.vts[x].(refs := w.vts[x].refs - 1) else w.vts[x]
    requires u.vts[x].refs > 0
    ensures EntryOk(c, u, x)
  {
    UsersRemoved(w, u, k, x);
    OthersRemoved(w, u, KeyOf(w.vts[w.tracked[k].vtEntry]), x, GroupOf(w.vts[x]));
  }

  /**
   Unhooking an object keeps the bookkeeping exactly when the object is not tracked by anybody at this depth, or
   it is tracked by this very hooker and the NULL-key owner of its class is not stranded.
   */
  lemma UnhookKeepsIff(c: Config, w: World, h: HookerId, o: Obj)
    requires ValidConfig(c) && Inv(c, w) && h in w.hookers && h in c.specs && o in w.objects
    ensures var k := TrackKeyOf(c, w, h, o);
      k in w.tracked ==> w.tracked[k].vtEntry in w.vts
    ensures var k := TrackKeyOf(c, w, h, o);
      Inv(c, Unhook(c, w, h, o)) <==> k !in w.tracked || (w.tracked[k].hooker == h && !StrandsOwner(w, k))
  {
    var k := TrackKeyOf(c, w, h, o);
    if k in w.tracked {
      UnhookDefined(c, w, k);
      var u := Unhook(c, w, h, o);
      if w.tracked[k].hooker != h {
        WrongHookerBreaks(c, w, h, k, u);
      } else if StrandsOwner(w, k) {
        StrandedBreaks(c, w, h, k);
      } else if w.vts[w.tracked[k].vtEntry].refs > 1 {
        UntrackKeeps(c, w, h, k);
      } else {
        UninstallKeeps(c, w, h, k);
      }
    }
  }

  /** Unhooked through another hooker, that hooker counts one object too few and the tracking one still one too many. */
  lemma WrongHookerBreaks(c: Config, w: World, h: HookerId, k: TrackKey, u: World)
    requires Inv(c, w) && h in w.hookers && k in w.tracked && w.tracked[k].hooker != h
    requires u.tracked == w.tracked - {k} && u.hookers == CountDown(w, h)
    ensures u.hookers[h].counter == |Mine(u, h)| - 1
    ensures var g := w.tracked[k].hooker; g in u.hookers && u.hookers[g].counter == |Mine(u, g)| + 1
    ensures !Inv(c, u)
  {
    var g := w.tracked[k].hooker;
    assert TrackedOk(c, w, k) && EntryOk(c, w, w.tracked[k].vtEntry);
    assert HookerOk(c, w, h) && HookerOk(c, w, g);
    MineRemoved(w, u, k, h);
    MineRemoved(w, u, k, g);
    assert !HookerOk(c, u, h);
  }

  /** The owner of the NULL key is left with no reference and no user: its entry stays in the table under its own key
      with count 0, retained by that one slot, the NULL key is gone, and its vtable still holds the hooks. */
  lemma StrandedBreaks(c: Config, w: World, h: HookerId, k: TrackKey)
    requires Inv(c, w) && h in w.hookers && k in w.tracked && w.tracked[k].vtEntry in w.vts && StrandsOwner(w, k)
    ensures UninstallOk(w, h, k) && !Inv(c, Uninstall(w, h, k))
    ensures var u, g := Uninstall(w, h, k), GroupOf(w.vts[w.tracked[k].vtEntry]);
      var own := w.anyVt[g];
      && g !in u.anyVt && own in u.vts && u.vts[own] == w.vts[own].(refs := 0, retain := 1) && Users(u, own) == {}
      && KeyOf(u.vts[own]) in u.hooked && u.hooked[KeyOf(u.vts[own])] == own
      && (var e := u.vts[own];
          && e.vtable in c.native && e.hooker in c.specs && e.vtable in u.vtables
          && u.vtables[e.vtable] == Patched(c.native[e.vtable], c.specs[e.hooker].slots))
  {
    UnhookDefined(c, w, k);
    var id := w.tracked[k].vtEntry;
    var u, g := Uninstall(w, h, k), GroupOf(w.vts[id]);
    var own := w.anyVt[g];
    assert AnyOk(w, g);
    OwnerAlone(c, w, id, own, g);
    assert !EntryOk(c, u, own);
    assert SlotsOk(c, w, w.vts[own].vtable);
  }

  /** An owner whose one reference stands for another vtable of its class has no user. */
  lemma OwnerAlone(c: Config, w: World, id: Id, own: Id, g: ClassKey)
    requires Inv(c, w) && id in w.vts && own in w.vts && id != own && GroupOf(w.vts[id]) == g
    requires Owns(w, own, g) && GroupOf(w.vts[own]) == g && w.vts[own].refs == 1
    ensures Users(w, own) == {} && w.vts[own].retain == 2 && KeyOf(w.vts[own]) != KeyOf(w.vts[id])
    ensures EntryOk(c, w, own) && IsHooked(c, w, w.vts[own].vtable)
  {
    assert EntryOk(c, w, own) && EntryOk(c, w, id);
    assert KeyOf(w.vts[id]) in Others(w, own, g);
    assert |Others(w, own, g)| > 0;
  }

  /**
   What an unhook does, in every state and through any hooker: the object is tracked no longer and nobody else is
   affected; if it was tracked, the hooker counts one object less, and its vtable entry has one reference less or is
   gone;
   the vtable is as before any hook exactly when that was the last reference.
   */
  lemma UnhookEffect(c: Config, w: World, h: HookerId, o: Obj)
    requires ValidConfig(c) && Inv(c, w) && h in w.hookers && h in c.specs && o in w.objects
    ensures var k, u := TrackKeyOf(c, w, h, o), Unhook(c, w, h, o);
      && u.tracked == w.tracked - {k} && u.objects == w.objects
      && (k !in w.tracked ==> u == w)
      && (k in w.tracked ==>
            && u.hookers == CountDown(w, h)
            && w.tracked[k].vtEntry in w.vts
            && var id := w.tracked[k].vtEntry;
               var e := w.vts[id];
            && (e.refs > 1 ==>
                  && id in u.vts && u.vts[id].refs == e.refs - 1 && KeyOf(e) in u.hooked
                  && u.vtables == w.vtables)
            && (e.refs <= 1 ==>
                  && id !in u.vts && KeyOf(e) !in u.hooked && e.vtable in c.native
                  && u.vtables == w.vtables[e.vtable := c.native[e.vtable]]))
  {
    var k := TrackKeyOf(c, w, h, o);
    if k in w.tracked {
      UnhookDefined(c, w, k);
      var id := w.tracked[k].vtEntry;
      assert EntryOk(c, w, id) && SlotsOk(c, w, w.vts[id].vtable);
      RestoredPatched(c.native[w.vts[id].vtable], c.specs[w.vts[id].hooker].slots);
    }
  }
}
