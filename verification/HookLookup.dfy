/** The lookup of the original function from inside a hooking function. */
module HookLookup {
  import opened HookModel
  import opened HookProofs
  import opened HookRuns
  import opened Options

  /** The class under which the entry is looked up for an object of class `m`. */
  function KeyClass(m: MetaClass, target: MetaClass, depth: nat): Option<MetaClass> {
    match Distance(m, target)
    case None => None
    case Some(d) => if d < depth then None else Ancestor(m, d - depth)
  }

  /** For an object of the hooked leaf class or of any class derived from it, the class key is the leaf class: the only
      ancestor that lies `depth` below the hooked class. */
  lemma KeyClassIsLeaf(m: MetaClass, k: nat, depth: nat, target: MetaClass)
    requires Ancestor(m, k).Some? && Ancestor(Ancestor(m, k).value, depth) == Some(target)
    ensures KeyClass(m, target, depth) == Ancestor(m, k)
    ensures forall j: nat {:trigger Ancestor(m, j)} ::
      Ancestor(m, j).Some? && Ancestor(Ancestor(m, j).value, depth) == Some(target) ==> j == k
  {
    AncestorCompose(m, k, depth);
    DistanceOfAncestor(m, k + depth);
    forall j: nat {:trigger Ancestor(m, j)} | Ancestor(m, j).Some? &&
      Ancestor(Ancestor(m, j).value, depth) == Some(target) ensures j == k {
      AncestorCompose(m, j, depth);
      DistanceOfAncestor(m, j + depth);
    }
  }

  /** The entry that is found for a class key: by object, by vtable, or by the NULL key. */
  function FindEntry(c: Config, w: World, h: HookerId, o: Obj, leaf: MetaClass): Option<Id>
    requires h in c.specs && o in w.objects
  {
    var d := c.specs[h].depth;
    var k, vk, g := TrackKey(o, leaf, d), VtKey(w.objects[o].vptr, leaf, d), ClassKey(leaf, d);
    if k in w.tracked then Some(w.tracked[k].vtEntry)
    else if vk in w.hooked then Some(w.hooked[vk])
    else if g in w.anyVt then Some(w.anyVt[g])
    else None
  }

  /** The original function for element `i` of the hooker's list. */
  function GetOriginal(c: Config, w: World, h: HookerId, o: Obj, leaf: MetaClass, i: nat): Fn
    requires h in c.specs && o in w.objects && i < |c.specs[h].slots|
    requires FindEntry(c, w, h, o, leaf).Some? ==>
      var id := FindEntry(c, w, h, o, leaf).value; id in w.vts && i < |w.vts[id].info|
    requires var v := w.objects[o].vptr; v in w.vtables && 1 <= c.specs[h].slots[i].index <= |w.vtables[v]|
  {
    match FindEntry(c, w, h, o, leaf)
    case Some(id) => w.vts[id].info[i].original
    case None => w.vtables[w.objects[o].vptr][c.specs[h].slots[i].index - 1]
  }

  lemma {:induction false} SelectedRegistered(c: Config, m: MetaClass, depth: nat)
    requires ValidConfig(c) && SelectFrom(c, m, depth).Some?
    ensures var h := SelectFrom(c, m, depth).value;
      h in c.specs && (c.specs[h].depth, c.specs[h].target) in c.registered &&
        c.registered[(c.specs[h].depth, c.specs[h].target)] == h
    decreases m
  {
    if (depth, m) !in c.registered { SelectedRegistered(c, m.super, depth + 1); }
  }

  /** Every entry found under a class key of hooker `h` was made by `h`, for a vtable of that class. */
  lemma FoundEntry(c: Config, w: World, h: HookerId, o: Obj, leaf: MetaClass)
    requires ValidConfig(c) && Inv(c, w) && h in c.specs && o in w.objects && FindEntry(c, w, h, o, leaf).Some?
    requires Ancestor(leaf, c.specs[h].depth) == Some(c.specs[h].target)
    requires (c.specs[h].depth, c.specs[h].target) in c.registered &&
      c.registered[(c.specs[h].depth, c.specs[h].target)] == h
    ensures var id := FindEntry(c, w, h, o, leaf).value;
      id in w.vts && EntryOk(c, w, id) && w.vts[id].class_ == leaf && w.vts[id].hooker == h
  {
    var d, id := c.specs[h].depth, FindEntry(c, w, h, o, leaf).value;
    var k, vk, g := TrackKey(o, leaf, d), VtKey(w.objects[o].vptr, leaf, d), ClassKey(leaf, d);
    if k in w.tracked { assert TrackedOk(c, w, k); }
    else if vk in w.hooked { assert HookedOk(w, vk); }
    else { assert AnyOk(w, g); }
    assert EntryOk(c, w, id);
    SelectedTarget(c, leaf);
    SelectedRegistered(c, leaf, 0);
  }

  lemma NoEntryNoGroup(c: Config, w: World, h: HookerId, o: Obj, leaf: MetaClass)
    requires Inv(c, w) && h in c.specs && o in w.objects
    ensures FindEntry(c, w, h, o, leaf) == None <==> ClassKey(leaf, c.specs[h].depth) !in w.anyVt
  {
    var d := c.specs[h].depth;
    var k, vk := TrackKey(o, leaf, d), VtKey(w.objects[o].vptr, leaf, d);
    if k in w.tracked { assert TrackedOk(c, w, k) && EntryOk(c, w, w.tracked[k].vtEntry); }
    else if vk in w.hooked { assert HookedOk(w, vk) && EntryOk(c, w, w.hooked[vk]); }
  }

  /** A hooking function of `h`, for element `i` of its list, runs for an object whose class is the hooked leaf class
      (`k`
      is 0) or derived from it (a call through super). */
  ghost predicate LooksUp(c: Config, w: World, h: HookerId, o: Obj, k: nat, i: nat) {
    && h in c.specs && o in w.objects && i < |c.specs[h].slots|
    && Ancestor(w.objects[o].class_, k).Some?
    && Ancestor(Ancestor(w.objects[o].class_, k).value, c.specs[h].depth) == Some(c.specs[h].target)
    && (c.specs[h].depth, c.specs[h].target) in c.registered
    && c.registered[(c.specs[h].depth, c.specs[h].target)] == h
    && w.objects[o].vptr in w.vtables && 1 <= c.specs[h].slots[i].index <= |w.vtables[w.objects[o].vptr]|
  }

  /** The group of the leaf class has the NULL key. */
  ghost predicate HasOwner(c: Config, w: World, h: HookerId, leaf: MetaClass)
    requires h in c.specs
  {
    ClassKey(leaf, c.specs[h].depth) in w.anyVt
  }

  /** Some vtable of class `leaf` holds `f` in slot `x` (counted from 0) before any hook. */
  ghost predicate NativeOf(c: Config, leaf: MetaClass, x: nat, f: Fn) {
    exists v: Addr {:trigger c.home[v]} ::
      v in c.home && c.home[v] == leaf && v in c.native && x < |c.native[v]| && f == c.native[v][x]
  }

  lemma LookupDefined(c: Config, w: World, h: HookerId, o: Obj, k: nat, i: nat)
    requires ValidConfig(c) && Inv(c, w) && LooksUp(c, w, h, o, k, i)
    ensures var leaf := Ancestor(w.objects[o].class_, k).value;
      && KeyClass(w.objects[o].class_, c.specs[h].target, c.specs[h].depth) == Some(leaf)
      && (FindEntry(c, w, h, o, leaf).Some? <==> HasOwner(c, w, h, leaf))
      && (FindEntry(c, w, h, o, leaf).Some? ==>
            var id := FindEntry(c, w, h, o, leaf).value;
            id in w.vts && i < |w.vts[id].info| && EntryOk(c, w, id) && w.vts[id].class_ == leaf &&
            w.vts[id].hooker == h)
  {
    var leaf := Ancestor(w.objects[o].class_, k).value;
    KeyClassIsLeaf(w.objects[o].class_, k, c.specs[h].depth, c.specs[h].target);
    NoEntryNoGroup(c, w, h, o, leaf);
    if FindEntry(c, w, h, o, leaf).Some? { FoundEntry(c, w, h, o, leaf); }
  }

  /** While the leaf class has an entry, the lookup gives what a vtable of the leaf class held in that slot before any
      hook: the vtable the object had when it was tracked, or the one it uses if that is hooked for the leaf class. */
  lemma GetOriginalRight(c: Config, w: World, h: HookerId, o: Obj, k: nat, i: nat)
    requires ValidConfig(c) && Inv(c, w) && LooksUp(c, w, h, o, k, i)
    requires HasOwner(c, w, h, Ancestor(w.objects[o].class_, k).value)
    ensures var leaf, d, x := Ancestor(w.objects[o].class_, k).value, c.specs[h].depth, c.specs[h].slots[i].index - 1;
      && FindEntry(c, w, h, o, leaf).Some? && FindEntry(c, w, h, o, leaf).value in w.vts
      && i < |w.vts[FindEntry(c, w, h, o, leaf).value].info|
      && exists v: Addr {:trigger c.home[v]} ::
        && v in c.home && c.home[v] == leaf && v in c.native && x < |c.native[v]|
        && GetOriginal(c, w, h, o, leaf, i) == c.native[v][x]
        && (if TrackKey(o, leaf, d) in w.tracked then v == w.tracked[TrackKey(o, leaf, d)].original
            else VtKey(w.objects[o].vptr, leaf, d) in w.hooked ==> v == w.objects[o].vptr)
  {
    var leaf, d := Ancestor(w.objects[o].class_, k).value, c.specs[h].depth;
    LookupDefined(c, w, h, o, k, i);
    assert c.home[w.vts[FindEntry(c, w, h, o, leaf).value].vtable] == leaf;
    if TrackKey(o, leaf, d) in w.tracked { assert TrackedOk(c, w, TrackKey(o, leaf, d)); }
    else if VtKey(w.objects[o].vptr, leaf, d) in w.hooked { assert HookedOk(w, VtKey(w.objects[o].vptr, leaf, d)); }
  }

  /** For every object, whatever vtable it uses: the lookup gives a native function of the leaf class exactly when the
      leaf class has an entry or the object's own slot holds such a function; and then it is not the hooking function.
      */
  lemma GetOriginalIff(c: Config, w: World, h: HookerId, o: Obj, k: nat, i: nat)
    requires ValidConfig(c) && Inv(c, w) && LooksUp(c, w, h, o, k, i)
    ensures var leaf, x := Ancestor(w.objects[o].class_, k).value, c.specs[h].slots[i].index - 1;
      && (FindEntry(c, w, h, o, leaf).Some? ==>
            var id := FindEntry(c, w, h, o, leaf).value; id in w.vts && i < |w.vts[id].info|)
      && var f, own := GetOriginal(c, w, h, o, leaf, i), w.vtables[w.objects[o].vptr][x];
      && (NativeOf(c, leaf, x, f) <==> HasOwner(c, w, h, leaf) || NativeOf(c, leaf, x, own))
      && (!HasOwner(c, w, h, leaf) ==> f == own)
      && (NativeOf(c, leaf, x, f) ==> f != c.specs[h].slots[i].hooking)
  {
    LookupDefined(c, w, h, o, k, i);
    var leaf := Ancestor(w.objects[o].class_, k).value;
    if HasOwner(c, w, h, leaf) { GetOriginalRight(c, w, h, o, k, i); }
  }

  /** For an object that uses a vtable of the system: the lookup gives a native function of the leaf class exactly when
      the leaf class has an entry, or the object's own vtable has no hook in the slot and did not override it. An object
      of the leaf class itself, whose hooker is `h`, is always served. */
  lemma GetOriginalOwnIff(c: Config, w: World, h: HookerId, o: Obj, k: nat, i: nat)
    requires ValidConfig(c) && Inv(c, w) && LooksUp(c, w, h, o, k, i) && w.objects[o].vptr in c.native
    ensures var leaf, x, v := Ancestor(w.objects[o].class_, k).value, c.specs[h].slots[i].index - 1, w.objects[o].vptr;
      && (FindEntry(c, w, h, o, leaf).Some? ==>
            var id := FindEntry(c, w, h, o, leaf).value; id in w.vts && i < |w.vts[id].info|)
      && x < |c.native[v]|
      && (NativeOf(c, leaf, x, GetOriginal(c, w, h, o, leaf, i)) <==>
            HasOwner(c, w, h, leaf) || (!SlotHooked(c, w, v, x) && NativeOf(c, leaf, x, c.native[v][x])))
      && (k == 0 && v in c.home && Select(c, leaf) == Some(h) ==>
            NativeOf(c, leaf, x, GetOriginal(c, w, h, o, leaf, i)))
  {
    var leaf, x, v := Ancestor(w.objects[o].class_, k).value, c.specs[h].slots[i].index - 1, w.objects[o].vptr;
    GetOriginalIff(c, w, h, o, k, i);
    OwnSlot(c, w, leaf, v, x);
    if k == 0 && v in c.home && Select(c, leaf) == Some(h) {
      assert ObjectOk(c, w, o) && c.home[v] == leaf;
      NoEntryNoGroup(c, w, h, o, leaf);
    }
  }

  /** A vtable of the system holds a hooking function in the slot. */
  ghost predicate SlotHooked(c: Config, w: World, v: Addr, x: nat) {
    IsHooked(c, w, v) && HookFor(c.specs[Select(c, c.home[v]).value].slots, x).Some?
  }

  lemma {:induction false} HookForIsListed(slots: seq<SlotHook>, x: nat)
    requires HookFor(slots, x).Some?
    ensures exists i: nat {:trigger slots[i]} :: i < |slots| && slots[i].hooking == HookFor(slots, x).value
  {
    if slots[0].index == x + 1 {
      assert slots[0].hooking == HookFor(slots, x).value;
    } else {
      HookForIsListed(slots[1..], x);
      var i: nat :| i < |slots| - 1 && slots[1..][i].hooking == HookFor(slots, x).value;
      assert slots[i + 1].hooking == HookFor(slots, x).value;
    }
  }

  /** No vtable holds a hooking function from the start. */
  lemma HookNotNative(c: Config, h: HookerId, leaf: MetaClass, x: nat, y: nat)
    requires ValidConfig(c) && h in c.specs && HookFor(c.specs[h].slots, x).Some?
    ensures !NativeOf(c, leaf, y, HookFor(c.specs[h].slots, x).value)
  {
    HookForIsListed(c.specs[h].slots, x);
    var i: nat :| i < |c.specs[h].slots| && c.specs[h].slots[i].hooking == HookFor(c.specs[h].slots, x).value;
    forall v: Addr {:trigger c.home[v]} | v in c.home && v in c.native && y < |c.native[v]|
      ensures c.native[v][y] != HookFor(c.specs[h].slots, x).value {
      assert c.native[v][y] != c.specs[h].slots[i].hooking;
    }
  }

  lemma OwnSlot(c: Config, w: World, leaf: MetaClass, v: Addr, x: nat)
    requires ValidConfig(c) && Inv(c, w) && v in c.native && v in w.vtables && x < |w.vtables[v]|
    ensures x < |c.native[v]|
    ensures NativeOf(c, leaf, x, w.vtables[v][x]) <==> !SlotHooked(c, w, v, x) && NativeOf(c, leaf, x, c.native[v][x])
  {
    assert SlotsOk(c, w, v);
    if SlotHooked(c, w, v, x) { HookNotNative(c, Select(c, c.home[v]).value, leaf, x, x); }
  }

  // ---------- a call through super after the leaf class has no entry ----------

  /** Class 1 and a class derived from it that overrides the slot; class 1 has a hooker. */
  function Overriding(): Config {
    Config(map[1 := [10], 2 := [11]], map[1 := Root(1), 2 := Derived(2, Root(1))],
      map[0 := HookerSpec([SlotHook(1, 99)], 0, Root(1))], map[(0, Root(1)) := 0])
  }

  /** An object of the derived class, and nothing hooked. */
  function OverridingObject(): World {
    World(map[1 := Object(Derived(2, Root(1)), 2)], map[1 := [10], 2 := [11]], map[], map[], map[], map[],
      map[0 := Hooker(None, 0)])
  }

  /** The hooking function of class 1 runs for an object of the derived class while no object of class 1 is tracked any
      more: the lookup gives the overriding function 11, not 10 that class 1 has in the slot. */
  lemma SuperCallMisses()
    ensures ValidConfig(Overriding()) && Inv(Overriding(), OverridingObject())
    ensures LooksUp(Overriding(), OverridingObject(), 0, 1, 1, 0)
    ensures FindEntry(Overriding(), OverridingObject(), 0, 1, Root(1)) == None
    ensures GetOriginal(Overriding(), OverridingObject(), 0, 1, Root(1), 0) == 11
    ensures forall f: Fn {:trigger NativeOf(Overriding(), Root(1), 0, f)} ::
      NativeOf(Overriding(), Root(1), 0, f) <==> f == 10
  {
    var c, m := Overriding(), Derived(2, Root(1));
    assert Ancestor(m, 1) == Ancestor(m.super, 0);
    assert Mine(OverridingObject(), 0) == {};
    forall f: Fn {:trigger NativeOf(c, Root(1), 0, f)} ensures NativeOf(c, Root(1), 0, f) <==> f == 10 {
      assert c.home[1] == Root(1);
    }
  }
}
