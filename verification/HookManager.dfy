/**
 The hook manager as it runs: vtables are arrays written in place, the table and the entries are fields,
 and every operation works step by step, undoing its steps when one of them fails.
 */
module HookManagers {
  import opened HookLookup
  import opened HookModel
  import opened HookProofs
  import opened HookRuns
  import opened Options

  // ---------- the slot loops ----------

  /** Saves what the listed slots of `toHook` hold and writes the hooking functions into `newTable`, which may be
      the same array. */
  method HookVtableFunctions(info: array<FnInfo>, toHook: array<Fn>, newTable: array<Fn>, ghost slots: seq<SlotHook>)
    requires newTable.Length == toHook.Length && ValidSlots(slots, toHook.Length) && info.Length == |slots|
    requires forall i: nat {:trigger info[i]} :: i < info.Length ==>
      info[i].index == slots[i].index && info[i].hooking == slots[i].hooking
    modifies info, newTable
    ensures info[..] == Recorded(old(toHook[..]), slots)
    ensures newTable[..] == Patched(old(newTable[..]), slots)
  {
    var p := 0;
    while p < info.Length
      invariant p <= info.Length
      invariant forall i: nat {:trigger info[i]} :: i < info.Length ==>
        info[i].index == slots[i].index && info[i].hooking == slots[i].hooking
      invariant forall i: nat {:trigger info[i]} :: i < p ==> info[i].original == old(toHook[..])[slots[i].index - 1]
      invariant forall i: nat {:trigger slots[i]} :: p <= i < |slots| ==>
        toHook[slots[i].index - 1] == old(toHook[..])[slots[i].index - 1]
      invariant forall j: nat {:trigger newTable[j]} :: j < newTable.Length ==>
        newTable[j] == SlotNow(old(newTable[..])[j], slots[..p], j)
    {
      assert slots[p].index == info[p].index;
      var at := info[p].index - 1;
      forall i: nat {:trigger slots[i]} | p < i < |slots| ensures slots[i].index - 1 != at {
        assert slots[p].index != slots[i].index;
      }
      ghost var was := newTable[..];
      info[p] := FnInfo(info[p].index, toHook[at], info[p].hooking);
      newTable[at] := info[p].hooking;
      forall j: nat {:trigger newTable[j]} | j < newTable.Length
        ensures newTable[j] == SlotNow(old(newTable[..])[j], slots[..p + 1], j) {
        HookForNext(slots, p, j);
        assert j != at ==> newTable[j] == was[j];
      }
      p := p + 1;
    }
    assert slots[..p] == slots;
  }

  /** What a slot holds once the listed hooks have been written. */
  ghost function SlotNow(before: Fn, slots: seq<SlotHook>, j: nat): Fn {
    match HookFor(slots, j) case None => before case Some(f) => f
  }

  lemma HookForNext(slots: seq<SlotHook>, p: nat, j: nat)
    requires p < |slots|
    requires forall i: nat {:trigger slots[i]} :: i < |slots| ==> slots[i].index >= 1
    requires forall i: nat, j: nat {:trigger slots[i], slots[j]} :: i < j < |slots| ==> slots[i].index != slots[j].index
    ensures HookFor(slots[..p + 1], j) == if j == slots[p].index - 1 then Some(slots[p].hooking)
      else HookFor(slots[..p], j)
  {
    if j == slots[p].index - 1 {
      HookForListed(slots[..p + 1], p);
    } else {
      HookForAppend(slots[..p], slots[p], j);
      assert slots[..p + 1] == slots[..p] + [slots[p]];
    }
  }

  lemma {:induction false} HookForAppend(slots: seq<SlotHook>, s: SlotHook, j: nat)
    requires s.index != j + 1
    ensures HookFor(slots + [s], j) == HookFor(slots, j)
  {
    if slots != [] {
      assert (slots + [s])[1..] == slots[1..] + [s];
      HookForAppend(slots[1..], s, j);
    }
  }

  /** Writes the saved originals back. */
  method UnHookVtableFunctions(info: seq<FnInfo>, table: array<Fn>)
    requires forall i: nat {:trigger info[i]} :: i < |info| ==> 1 <= info[i].index <= table.Length
    requires forall i: nat, j: nat {:trigger info[i], info[j]} :: i < j < |info| ==> info[i].index != info[j].index
    modifies table
    ensures table[..] == Restored(old(table[..]), info)
  {
    for p := 0 to |info|
      invariant forall j: nat {:trigger table[j]} :: j < table.Length ==>
                  table[j] == match OriginalFor(info[..p], j) case None => old(table[..])[j] case Some(f) => f
    {
      table[info[p].index - 1] := info[p].original;
      forall j: nat {:trigger OriginalFor(info[..p + 1], j)} | j < table.Length
        ensures OriginalFor(info[..p + 1], j) == if j == info[p].index - 1 then Some(info[p].original)
        else OriginalFor(info[..p], j) {
        assert info[..p + 1] == info[..p] + [info[p]];
        OriginalForAppend(info[..p], info[p], j);
      }
    }
    assert info[..|info|] == info;
  }

  lemma {:induction false} OriginalForAppend(info: seq<FnInfo>, e: FnInfo, j: nat)
    requires forall i: nat {:trigger info[i]} :: i < |info| ==> info[i].index != e.index
    ensures OriginalFor(info + [e], j) == if j + 1 == e.index then Some(e.original) else OriginalFor(info, j)
  {
    if info != [] {
      assert info[0].index != e.index;
      assert (info + [e])[1..] == info[1..] + [e];
      OriginalForAppend(info[1..], e, j);
    }
  }

  // ---------- walking the class chain ----------

  /** The class key, found by walking up to the hooked class and then up again from the object's class. */
  method FindKeyClass(m: MetaClass, target: MetaClass, depth: nat) returns (key: Option<MetaClass>)
    ensures key == KeyClass(m, target, depth)
  {
    var current, currentDepth, found := m, 0, m == target;
    while !found && current.Derived?
      invariant Ancestor(m, currentDepth) == Some(current)
      invariant found == (current == target)
      invariant Distance(m, target) == match Distance(current,
        target) case None => None case Some(n) => Some(currentDepth + n)
      decreases current
    {
      AncestorCompose(m, currentDepth, 1);
      current := current.super;
      currentDepth := currentDepth + 1;
      found := current == target;
    }
    if !found || currentDepth < depth {
      return None;
    }
    var parent, delta := m, currentDepth - depth;
    AncestorHeight(m, currentDepth);
    while delta != 0
      invariant 0 <= delta <= currentDepth - depth && Ancestor(m, currentDepth - depth - delta) == Some(parent)
      decreases delta
    {
      AncestorHeight(m, currentDepth - depth - delta);
      AncestorCompose(m, currentDepth - depth - delta, 1);
      parent := parent.super;
      delta := delta - 1;
    }
    return Some(parent);
  }

  /** The engine's walk over the registration dictionaries. */
  method EngineSelect(c: Config, m: MetaClass) returns (h: Option<HookerId>)
    ensures h == Select(c, m) && Nearest(c, m, h)
  {
    SelectNearest(c, m);
    var current, depth := m, 0;
    while depth < MAX_DEPTH && (depth, current) !in c.registered && current.Derived?
      invariant SelectFrom(c, current, depth) == Select(c, m)
      decreases current
    {
      current, depth := current.super, depth + 1;
    }
    h := if depth < MAX_DEPTH && (depth, current) in c.registered then Some(c.registered[(depth, current)]) else None;
  }

  // ---------- the manager ----------

  /** Which calls fail during one hook operation. */
  datatype Faults = Faults(infoAlloc: bool, objectAlloc: bool, vtableAlloc: bool, insertNull: bool, insertVtable: bool,
      insertObject: bool)

  class HookManager {
    const config: Config
    var objects: map<Obj, Object>
    var vtables: map<Addr, array<Fn>>
    var tracked: map<TrackKey, ObjEntry>
    var hooked: map<VtKey, Id>
    var anyVt: map<ClassKey, Id>
    var vts: map<Id, VtEntry>
    var hookers: map<HookerId, Hooker>

    ghost function Tables(): set<array<Fn>>
      reads this
    {
      set v | v in vtables :: vtables[v]
    }

    ghost function State(): World
      reads this, Tables()
    {
      World(objects, map v | v in vtables :: vtables[v][..], tracked, hooked, anyVt, vts, hookers)
    }

    /** Different addresses are different arrays. */
    ghost predicate Separate()
      reads this
    {
      forall u: Addr, v: Addr {:trigger vtables[u], vtables[v]} :: u in vtables && v in vtables && u != v ==>
        vtables[u] != vtables[v]
    }

    ghost predicate Valid()
      reads this, Tables()
    {
      Separate() && ValidConfig(config) && Inv(config, State())
    }

    constructor (c: Config, os: map<Obj, Object>, tables: map<Addr, array<Fn>>)
      requires ValidConfig(c)
      requires forall u: Addr, v: Addr {:trigger tables[u], tables[v]} :: u in tables && v in tables && u != v ==>
        tables[u] != tables[v]
      requires forall v: Addr {:trigger c.native[v]} :: v in c.native ==> v in tables && tables[v][..] == c.native[v]
      requires forall o: Obj {:trigger os[o]} :: o in os ==>
        os[o].vptr in tables && (os[o].vptr in c.home ==> c.home[os[o].vptr] == os[o].class_)
      ensures Valid() && config == c && State() == World(os, map v | v in tables ::
        tables[v][..], map[], map[], map[], map[], map h | h in c.specs :: Hooker(None, 0))
    {
      config, objects, vtables := c, os, tables;
      tracked, hooked, anyVt, vts := map[], map[], map[], map[];
      hookers := map h | h in c.specs :: Hooker(None, 0);
      new;
      var w := State();
      forall o: Obj {:trigger ObjectOk(c, w, o)} | o in w.objects
        ensures ObjectOk(c, w, o) { assert os[o].vptr in tables; }
      forall v: Addr {:trigger SlotsOk(c, w, v)} | v in c.native
        ensures SlotsOk(c, w, v) { assert c.native[v] == tables[v][..]; }
      forall h: HookerId {:trigger HookerOk(c, w, h)} | h in w.hookers
        ensures HookerOk(c, w, h) { assert Mine(w, h) == {}; }
    }

    /** Rewriting one vtable in place changes that vtable only. */
    twostate lemma OneTableChanged(v: Addr)
      requires old(Separate()) && v in old(vtables) && vtables == old(vtables)
      requires forall u: Addr {:trigger vtables[u]} :: u in vtables && u != v ==> vtables[u][..] == old(vtables[u][..])
      ensures State().vtables == old(State()).vtables[v := vtables[v][..]]
      ensures vtables[v][..] == old(vtables[v][..]) ==> State().vtables == old(State()).vtables
    {
    }

    // The retain count of a vtable entry; the entry is freed with its last reference.

    method RetainEntry(id: Id)
      requires id in vts
      modifies this`vts
      ensures vts == old(vts)[id := old(vts)[id].(retain := old(vts)[id].retain + 1)]
    {
      vts := vts[id := vts[id].(retain := vts[id].retain + 1)];
    }

    method ReleaseEntry(id: Id)
      requires id in vts && vts[id].retain > 0
      modifies this`vts
      ensures vts == if old(vts)[id].retain == 1 then old(vts) - {id}
        else old(vts)[id := old(vts)[id].(retain := old(vts)[id].retain - 1)]
    {
      if vts[id].retain == 1 {
        vts := vts - {id};
      } else {
        vts := vts[id := vts[id].(retain := vts[id].retain - 1)];
      }
    }

    method AddRefs(id: Id, delta: int)
      requires id in vts && vts[id].refs + delta >= 0
      modifies this`vts
      ensures vts == old(vts)[id := old(vts)[id].(refs := old(vts)[id].refs + delta)]
    {
      vts := vts[id := vts[id].(refs := vts[id].refs + delta)];
    }

    /** The vtable is hooked already: add an entry for the object, or take everything back. */
    method TrackObject(h: HookerId, k: TrackKey, id: Id, v: Addr, faults: Faults) returns (status: Status)
      requires Separate() && h in hookers && k !in tracked && id in vts && vts[id].refs > 0 && vts[id].retain > 0 &&
        vts[id].vtable == v
      modifies this`tracked, this`vts, this`hookers
      ensures status == if faults.objectAlloc || faults.insertObject then NoMemory else Success
      ensures status != Success ==> tracked == old(tracked) && vts == old(vts) && hookers == old(hookers)
      ensures status == Success ==> tracked == old(tracked)[k := ObjEntry(h, id, v, 1)]
      ensures status == Success ==> vts == old(vts)[id :=
        old(vts)[id].(refs := old(vts)[id].refs + 1, retain := old(vts)[id].retain + 1)]
      ensures status == Success ==> hookers == old(hookers)[h :=
        old(hookers)[h].(counter := old(hookers)[h].counter + 1)]
    {
      ghost var was, e := vts, vts[id];
      status := Success;
      RetainEntry(id); // the lookup returns a referenced entry
      if faults.objectAlloc {
        status := NoMemory;
      } else {
        var entry := ObjEntry(h, id, v, 1);
        RetainEntry(id);
        AddRefs(id, 1);
        assert vts == was[id := e.(refs := e.refs + 1, retain := e.retain + 2)];
        hookers := hookers[h := hookers[h].(counter := hookers[h].counter + 1)];
        if faults.insertObject {
          ReleaseEntry(id);
          AddRefs(id, -1);
          assert vts == was[id := e.(retain := e.retain + 1)];
          hookers := hookers[h := hookers[h].(counter := hookers[h].counter - 1)];
          assert hookers == old(hookers);
          status := NoMemory;
        } else {
          tracked := tracked[k := entry.(retain := entry.retain + 1)];
          tracked := tracked[k := tracked[k].(retain := tracked[k].retain - 1)];
        }
      }
      ReleaseEntry(id);
      assert status != Success ==> vts == was;
    }

    /** A new vtable entry with one counted reference, held by this call and by the object entry; the owner of the NULL
        key is referenced as well. */
    method MakeEntry(id: Id, e: VtEntry, g: ClassKey) returns (owner: Option<Id>)
      requires id !in vts && e.retain == 1 && (g in anyVt ==> anyVt[g] in vts)
      modifies this`vts
      ensures owner == if g in anyVt then Some(anyVt[g]) else None
      ensures vts == Held(old(vts), owner)[id := e.(retain := 2)]
    {
      vts := vts[id := e];
      RetainEntry(id);
      owner := ReferenceOwner(g);
    }

    /** The owner of the NULL key, if the class has one, is looked up (and so retained) and gets one more reference. */
    method ReferenceOwner(g: ClassKey) returns (owner: Option<Id>)
      requires g in anyVt ==> anyVt[g] in vts
      modifies this`vts
      ensures owner == if g in anyVt then Some(anyVt[g]) else None
      ensures vts == if g in anyVt then old(vts)[anyVt[g] :=
        old(vts)[anyVt[g]].(refs := old(vts)[anyVt[g]].refs + 1, retain := old(vts)[anyVt[g]].retain + 1)] else old(vts)
    {
      owner := None;
      if g in anyVt {
        owner := Some(anyVt[g]);
        RetainEntry(anyVt[g]);
        AddRefs(anyVt[g], 1);
      }
    }

    /** Adds the NULL key when the class has no owner yet, then the vtable key, then the object key; stops at the first
        failure and leaves what was added. */
    method InsertKeys(h: HookerId, k: TrackKey, vk: VtKey, g: ClassKey, id: Id, entry: ObjEntry, owner: Option<Id>,
            faults: Faults) returns (inHash: bool)
      requires h in hookers && id in vts && k !in tracked && vk !in hooked && (owner == None <==> g !in anyVt)
      modifies this`tracked, this`hooked, this`anyVt, this`vts, this`hookers
      ensures var n, t := owner.Some? || !faults.insertNull, !faults.insertVtable;
        && inHash == (n && t && !faults.insertObject)
        && anyVt == (if owner == None && n then old(anyVt)[g := id] else old(anyVt))
        && hooked == (if n && t then old(hooked)[vk := id] else old(hooked))
        && hookers == (if n && t then old(hookers)[h := old(hookers)[h].(counter := old(hookers)[h].counter + 1)]
          else old(hookers))
        && tracked == (if inHash then old(tracked)[k := entry.(retain := entry.retain + 1)] else old(tracked))
        && vts == old(vts)[id := old(vts)[id].(retain :=
          old(vts)[id].retain + (if owner == None && n then 1 else 0) + if n && t then 1 else 0)]
    {
      inHash := true;
      if owner == None {
        inHash := !faults.insertNull;
        if inHash {
          anyVt := anyVt[g := id];
          RetainEntry(id);
        }
      }
      if inHash {
        inHash := !faults.insertVtable;
        if inHash {
          hooked := hooked[vk := id];
          RetainEntry(id);
          hookers := hookers[h := hookers[h].(counter := hookers[h].counter + 1)];
        }
      }
      if inHash {
        inHash := !faults.insertObject;
        if inHash {
          tracked := tracked[k := entry.(retain := entry.retain + 1)];
        }
      }
    }

    /** Removes the vtable key and the NULL key again, as far as they were added, and the references they held. */
    method RemoveKeys(h: HookerId, vk: VtKey, g: ClassKey, id: Id, owner: Option<Id>)
      requires h in hookers && id in vts && (vk in hooked ==> hooked[vk] == id)
      requires vts[id].retain > (if vk in hooked then 1 else 0) + if owner == None && g in anyVt then 1 else 0
      requires owner.Some? ==> owner.value in vts && owner.value != id && vts[owner.value].refs > 0
      modifies this`hooked, this`anyVt, this`vts, this`hookers
      ensures hooked == old(hooked) - {vk} && anyVt == if owner.Some? then old(anyVt) else old(anyVt) - {g}
      ensures hookers == if vk in old(hooked) then old(hookers)[h :=
        old(hookers)[h].(counter := old(hookers)[h].counter - 1)] else old(hookers)
      ensures var dropped := (if vk in old(hooked) then 1 else 0) + if owner == None && g in old(anyVt) then 1 else 0;
        var own := if owner.Some? then old(vts)[owner.value :=
          old(vts)[owner.value].(refs := old(vts)[owner.value].refs - 1)] else old(vts);
        vts == own[id := own[id].(retain := own[id].retain - dropped)]
    {
      if vk in hooked {
        hooked := hooked - {vk};
        ReleaseEntry(id);
        hookers := hookers[h := hookers[h].(counter := hookers[h].counter - 1)];
      }
      if owner == None {
        if g in anyVt {
          anyVt := anyVt - {g};
          ReleaseEntry(id);
        }
      } else {
        AddRefs(owner.value, -1);
      }
    }

    /** Drops the references this call holds on the owner of the NULL key and on the new vtable entry. */
    method DropReferences(owner: Option<Id>, id: Id)
      requires id in vts && vts[id].retain > 0
      requires owner.Some? ==> owner.value in vts && owner.value != id && vts[owner.value].retain > 1
      modifies this`vts
      ensures var own := if owner.Some? then old(vts)[owner.value :=
        old(vts)[owner.value].(retain := old(vts)[owner.value].retain - 1)] else old(vts);
        vts == if old(vts)[id].retain == 1 then own - {id} else own[id := own[id].(retain := own[id].retain - 1)]
    {
      if owner.Some? {
        ReleaseEntry(owner.value);
      }
      ReleaseEntry(id);
    }

    /** Everything is in the table: overwrite the slots and drop the references of this call. */
    method Commit(k: TrackKey, id: Id, info: array<FnInfo>, table: array<Fn>, ghost slots: seq<SlotHook>,
            owner: Option<Id>, ghost was: map<Id, VtEntry>, ghost e: VtEntry)
      requires id !in was && k in tracked && tracked[k].retain > 0 && ValidSlots(slots, table.Length) &&
        info.Length == |slots|
      requires forall i: nat {:trigger info[i]} :: i < info.Length ==>
        info[i].index == slots[i].index && info[i].hooking == slots[i].hooking
      requires (owner.Some? ==> owner.value in was && was[owner.value].retain > 0) &&
        vts == Held(was, owner)[id := e] && e.retain > 1
      modifies this`tracked, this`vts, info, table
      ensures table[..] == Patched(old(table[..]), slots)
      ensures vts == (if owner.Some? then Bump(was, owner.value)
        else was)[id := e.(info := Recorded(old(table[..]), slots), retain := e.retain - 1)]
      ensures tracked == old(tracked)[k := old(tracked)[k].(retain := old(tracked)[k].retain - 1)]
    {
      HookVtableFunctions(info, table, table, slots);
      vts := vts[id := vts[id].(info := info[..])];
      tracked := tracked[k := tracked[k].(retain := tracked[k].retain - 1)];
      DropReferences(owner, id);
    }

    /** Something failed: the object entry lets go of the vtable entry, the keys are removed, and the entry is freed. */
    method RollBack(h: HookerId, vk: VtKey, g: ClassKey, id: Id, owner: Option<Id>, ghost was: map<Id, VtEntry>,
            ghost e: VtEntry)
      requires h in hookers && id !in was && (vk in hooked ==> hooked[vk] == id)
      requires (owner.Some? ==> owner.value in was && was[owner.value].retain > 0) && vts == Held(was, owner)[id := e]
      requires e.retain == 2 + (if vk in hooked then 1 else 0) + if owner == None && g in anyVt then 1 else 0
      modifies this`hooked, this`anyVt, this`vts, this`hookers
      ensures hooked == old(hooked) - {vk} && anyVt == if owner.Some? then old(anyVt) else old(anyVt) - {g}
      ensures hookers == if vk in old(hooked) then old(hookers)[h :=
        old(hookers)[h].(counter := old(hookers)[h].counter - 1)] else old(hookers)
      ensures vts == was
    {
      vts := vts[id := vts[id].(refs := 0)];
      ReleaseEntry(id);
      RemoveKeys(h, vk, g, id, owner);
      DropReferences(owner, id);
    }

    /** The private function info of a new vtable entry, not filled in yet. */
    method AllocateInfo(slots: seq<SlotHook>) returns (info: array<FnInfo>)
      ensures fresh(info) && info.Length == |slots|
      ensures forall i: nat {:trigger info[i]} :: i < info.Length ==>
        info[i].index == slots[i].index && info[i].hooking == slots[i].hooking
    {
      info := new FnInfo[|slots|](i requires 0 <= i < |slots| => FnInfo(slots[i].index, 0, slots[i].hooking));
    }

    /** The new vtable entry, when the table holds `keys` references to it. */
    function NewEntry(h: HookerId, vk: VtKey, keys: nat): VtEntry {
      VtEntry(h, vk.vtable, vk.class_, vk.depth, [], 1, 2 + keys)
    }

    /** Makes the entries and adds their keys; stops at the first key that cannot be added. */
    method EnterAll(h: HookerId, k: TrackKey, vk: VtKey, g: ClassKey, id: Id, faults: Faults)
            returns (inHash: bool, owner: Option<Id>)
      requires h in hookers && k !in tracked && vk !in hooked && id !in vts && (g in anyVt ==> anyVt[g] in vts)
      modifies this`tracked, this`hooked, this`anyVt, this`vts, this`hookers
      ensures owner == if g in old(anyVt) then Some(old(anyVt)[g]) else None
      ensures var n, t := owner.Some? || !faults.insertNull, !faults.insertVtable;
        && inHash == (n && t && !faults.insertObject)
        && anyVt == (if owner == None && n then old(anyVt)[g := id] else old(anyVt))
        && hooked == (if n && t then old(hooked)[vk := id] else old(hooked))
        && hookers == (if n && t then old(hookers)[h := old(hookers)[h].(counter := old(hookers)[h].counter + 1)]
          else old(hookers))
        && tracked == (if inHash then old(tracked)[k := ObjEntry(h, id, vk.vtable, 2)] else old(tracked))
      ensures vts == Held(old(vts), owner)[id := NewEntry(h, vk, (if vk in hooked then 1 else 0) + if owner == None &&
        g in anyVt then 1 else 0)]
    {
      var e := VtEntry(h, vk.vtable, vk.class_, vk.depth, [], 1, 1);
      owner := MakeEntry(id, e, g);
      inHash := InsertKeys(h, k, vk, g, id, ObjEntry(h, id, vk.vtable, 1), owner, faults);
    }

    /** The table, the entries and the slots of `table` are as before. */
    twostate predicate Untouched(table: array<Fn>)
      reads this, table
    {
      && tracked == old(tracked) && hooked == old(hooked) && anyVt == old(anyVt) && vts == old(vts)
      && hookers == old(hookers) && table[..] == old(table[..])
    }

    /** The vtable `table` is hooked for its first object. */
    twostate predicate Installed(new h: HookerId, new k: TrackKey, new vk: VtKey, new g: ClassKey, new id: Id,
            new slots: seq<SlotHook>, table: array<Fn>)
      requires old(h in hookers && ValidSlots(slots, table.Length) && (g in anyVt ==> anyVt[g] in vts))
      reads this, table
    {
      && tracked == old(tracked)[k := ObjEntry(h, id, vk.vtable, 1)] && hooked == old(hooked)[vk := id]
      && anyVt == (if g in old(anyVt) then old(anyVt) else old(anyVt)[g := id])
      && hookers == old(hookers)[h := old(hookers)[h].(counter := old(hookers)[h].counter + 1)]
      && table[..] == Patched(old(table[..]), slots)
      && vts == (if g in old(anyVt) then Bump(old(vts), old(anyVt)[g]) else old(vts))[id :=
        VtEntry(h, vk.vtable, vk.class_, vk.depth, Recorded(old(table[..]), slots), 1,
          2 + if g in old(anyVt) then 0 else 1)]
    }

    /** The vtable of the object is not hooked yet: make the entries, add their keys, and overwrite the slots. */
    method InstallVtable(h: HookerId, k: TrackKey, vk: VtKey, g: ClassKey, id: Id, faults: Faults)
            returns (status: Status)
      requires Separate() && h in hookers && h in config.specs && k !in tracked && vk !in hooked && id !in vts
      requires vk.vtable in vtables && ValidSlots(config.specs[h].slots, vtables[vk.vtable].Length)
      requires g in anyVt ==> anyVt[g] in vts && vts[anyVt[g]].refs > 0 && vts[anyVt[g]].retain > 0
      modifies this`tracked, this`hooked, this`anyVt, this`vts, this`hookers, vtables[vk.vtable]
      ensures status == FailureOf(faults, g in old(anyVt))
      ensures status != Success ==> Untouched(vtables[vk.vtable])
      ensures status == Success ==> Installed(h, k, vk, g, id, config.specs[h].slots, vtables[vk.vtable])
    {
      if faults.infoAlloc {
        return NoMemory;
      }
      var info := AllocateInfo(config.specs[h].slots);
      if faults.objectAlloc || faults.vtableAlloc {
        return NoMemory;
      }
      var inHash := EnterOrUndo(h, k, vk, g, id, info, faults);
      status := if inHash then Success else Error;
    }

    /** Adds the entries and overwrites the slots, or removes again what was added. */
    method EnterOrUndo(h: HookerId, k: TrackKey, vk: VtKey, g: ClassKey, id: Id, info: array<FnInfo>, faults: Faults)
            returns (inHash: bool)
      requires h in hookers && h in config.specs && k !in tracked && vk !in hooked && id !in vts
      requires vk.vtable in vtables && ValidSlots(config.specs[h].slots, vtables[vk.vtable].Length)
      requires g in anyVt ==> anyVt[g] in vts && vts[anyVt[g]].refs > 0 && vts[anyVt[g]].retain > 0
      requires info.Length == |config.specs[h].slots|
      requires forall i: nat {:trigger info[i]} :: i < info.Length ==>
        info[i].index == config.specs[h].slots[i].index && info[i].hooking == config.specs[h].slots[i].hooking
      modifies this`tracked, this`hooked, this`anyVt, this`vts, this`hookers, info, vtables[vk.vtable]
      ensures inHash == ((g in old(anyVt) || !faults.insertNull) && !faults.insertVtable && !faults.insertObject)
      ensures !inHash ==> Untouched(vtables[vk.vtable])
      ensures inHash ==> Installed(h, k, vk, g, id, config.specs[h].slots, vtables[vk.vtable])
    {
      ghost var was := vts;
      var owner;
      inHash, owner := EnterAll(h, k, vk, g, id, faults);
      ghost var now := NewEntry(h, vk, (if vk in hooked then 1 else 0) + if owner == None && g in anyVt then 1 else 0);
      if inHash {
        Commit(k, id, info, vtables[vk.vtable], config.specs[h].slots, owner, was, now);
      } else {
        RollBack(h, vk, g, id, owner, was, now);
      }
    }

    /** The delayed initialization of the hooker's class pointer. */
    method NoteHookedClass(h: HookerId, o: Obj)
      requires h in hookers && h in config.specs && o in objects
      modifies this`hookers
      ensures State() == NoteClass(config, old(State()), h, o)
    {
      if hookers[h].metaClass == None || hookers[h].counter == 0 {
        var m := SuperClass(objects[o].class_, config.specs[h].depth);
        hookers := hookers[h := hookers[h].(metaClass := m)];
      }
      assert State().vtables == old(State()).vtables;
    }

    /** Tracking, seen on the whole state. */
    method TrackInState(h: HookerId, o: Obj, faults: Faults) returns (status: Status)
      requires Valid() && EngineHooks(config, State(), h, o)
      requires TrackKeyOf(config, State(), h, o) !in tracked && VtKeyOf(config, State(), h, o) in hooked
      modifies this`tracked, this`vts, this`hookers
      ensures VtKeyOf(config, old(State()), h, o) in old(hooked) &&
        old(hooked)[VtKeyOf(config, old(State()), h, o)] in old(vts)
      ensures status == if faults.objectAlloc || faults.insertObject then NoMemory else Success
      ensures State() == if status == Success then Track(old(State()), h, TrackKeyOf(config, old(State()), h, o),
        old(hooked)[VtKeyOf(config, old(State()), h, o)]) else old(State())
    {
      var k := TrackKey(o, objects[o].class_, config.specs[h].depth);
      var vk := VtKey(objects[o].vptr, k.class_, k.depth);
      assert HookedOk(State(), vk) && EntryOk(config, State(), hooked[vk]);
      status := TrackObject(h, k, hooked[vk], vk.vtable, faults);
      assert State().vtables == old(State()).vtables;
    }

    /** Installing, seen on the whole state. */
    method InstallInState(h: HookerId, o: Obj, id: Id, faults: Faults) returns (status: Status)
      requires Separate() && EngineHooks(config, State(), h, o) && id !in vts
      requires TrackKeyOf(config, State(), h, o) !in tracked && VtKeyOf(config, State(), h, o) !in hooked
      requires var g := ClassKey(objects[o].class_, config.specs[h].depth);
        g in anyVt ==> anyVt[g] in vts && vts[anyVt[g]].refs > 0 && vts[anyVt[g]].retain > 0
      modifies this`tracked, this`hooked, this`anyVt, this`vts, this`hookers, Tables()
      ensures o in objects && h in config.specs
      ensures InstallOk(config, old(State()), h, TrackKeyOf(config, old(State()), h, o), objects[o].vptr)
      ensures status == FailureOf(faults, ClassKey(objects[o].class_, config.specs[h].depth) in old(anyVt))
      ensures Separate() && State() == if status == Success
        then Install(config, old(State()), h, TrackKeyOf(config, old(State()), h, o), objects[o].vptr, id)
        else old(State())
    {
      var k := TrackKey(o, objects[o].class_, config.specs[h].depth);
      var vk := VtKey(objects[o].vptr, k.class_, k.depth);
      var g := ClassKey(k.class_, k.depth);
      status := InstallVtable(h, k, vk, g, id, faults);
      OneTableChanged(vk.vtable);
      if status == Success { InstalledFields(config, old(State()), h, k, vk.vtable, id, State()); }
    }

    /** Hooks the vtable of an object, once the hooker knows its class. */
    method HookWithClass(h: HookerId, o: Obj, id: Id, faults: Faults) returns (status: Status)
      requires Valid() && EngineHooks(config, State(), h, o) && id !in vts
      modifies this`tracked, this`hooked, this`anyVt, this`vts, this`hookers, Tables()
      ensures Separate()
      ensures (State(), status) == HookNoted(config, old(State()), h, o, FaultFor(config, old(State()), h, o, faults),
        id)
    {
      var k := TrackKey(o, objects[o].class_, config.specs[h].depth);
      var vk := VtKey(objects[o].vptr, k.class_, k.depth);
      if k in tracked {
        status := Success;
      } else if vk in hooked {
        status := TrackInState(h, o, faults);
      } else {
        var slots := config.specs[h].slots;
        assert slots[0].index <= vtables[vk.vtable].Length;
        if slots[0].hooking == vtables[vk.vtable][slots[0].index - 1] {
          status := Error;
        } else {
          OwnerCounted(config, State(), h, o);
          status := InstallInState(h, o, id, faults);
        }
      }
    }

    /** Notes the class, then hooks the vtable. */
    method HookNotedVtable(h: HookerId, o: Obj, id: Id, faults: Faults) returns (status: Status)
      requires Valid() && EngineHooks(config, State(), h, o) && id !in vts
      modifies this`tracked, this`hooked, this`anyVt, this`vts, this`hookers, Tables()
      ensures Separate()
      ensures (State(), status) == Hook(config, old(State()), h, o, FaultFor(config, old(State()), h, o, faults), id)
    {
      NoteClassKeeps(config, State(), h, o);
      NoteHookedClass(h, o);
      status := HookWithClass(h, o, id, faults);
    }

    /** Hooks the vtable of an object for the hooker the engine picked; `id` is where a new entry would be allocated. */
    method HookVtable(h: HookerId, o: Obj, id: Id, faults: Faults) returns (status: Status)
      requires Valid() && EngineHooks(config, State(), h, o) && id !in vts
      modifies this`tracked, this`hooked, this`anyVt, this`vts, this`hookers, Tables()
      ensures Separate()
      ensures (State(), status) == Hook(config, old(State()), h, o, FaultFor(config, old(State()), h, o, faults), id)
      ensures Valid() <==> KeepsBooks(config, old(State()), h, o, FaultFor(config, old(State()), h, o, faults))
    {
      HookKeepsIff(config, State(), h, o, FaultFor(config, State(), h, o, faults), id);
      status := HookNotedVtable(h, o, id, faults);
    }

    /** References both entries and drops one counted reference of `id`. */
    method DropReference(id: Id, own: Id)
      requires id in vts && own in vts && vts[id].refs > 0
      modifies this`vts
      ensures own == id ==> vts == old(vts)[id := old(vts)[id].(refs := old(vts)[id].refs - 1, retain :=
        old(vts)[id].retain + 2)]
      ensures own != id ==> vts == old(vts)[own := old(vts)[own].(retain := old(vts)[own].retain + 1)][id :=
        old(vts)[id].(refs := old(vts)[id].refs - 1, retain := old(vts)[id].retain + 1)]
    {
      RetainEntry(id);
      RetainEntry(own);
      AddRefs(id, -1);
    }

    /** The counting part of unhooking: one counted reference of the vtable entry `id` is dropped, and with the last one
        its
        keys; this call holds a reference on the entry and on the owner of its NULL key. */
    method ReleaseKeys(id: Id, own: Id, vk: VtKey, g: ClassKey)
      requires id in vts && own in vts && vts[id].refs > 0 && vts[own].refs > 0 && vts[id].retain > 1 &&
        vts[own].retain > 1
      modifies this`vts, this`hooked, this`anyVt
      ensures hooked == if old(vts)[id].refs == 1 then old(hooked) - {vk} else old(hooked)
      ensures anyVt == if old(vts)[id].refs == 1 && old(vts)[own].refs == 1 then old(anyVt) - {g} else old(anyVt)
      ensures vts == VtsHeld(old(vts), id, own)
    {
      DropReference(id, own);
      if vts[id].refs == 0 {
        hooked := hooked - {vk};
        if own != id {
          AddRefs(own, -1);
        }
        ReleaseEntry(id);
      }
      if vts[own].refs == 0 {
        anyVt := anyVt - {g};
        ReleaseEntry(own);
      }
    }

    /** The freed object entry and this call let go of the vtable entry, and this call lets go of the owner. */
    method LetGo(id: Id, own: Id, ghost was: map<Id, VtEntry>)
      requires id in was && own in was && was[id].refs > 0 && was[own].refs > 0 && was[id].retain > 1 &&
        was[own].retain > 1
      requires was[id].refs == 1 ==> was[id].retain == if own == id then 3 else 2
      requires vts == VtsHeld(was, id, own)
      modifies this`vts
      ensures vts == VtsAfter(was, id, own)
    {
      ReleaseEntry(id);
      ReleaseEntry(id);
      ReleaseEntry(own);
    }

    method ReleaseUse(id: Id, own: Id, vk: VtKey, g: ClassKey)
      requires id in vts && own in vts && vts[id].refs > 0 && vts[own].refs > 0 && vts[id].retain > 1 &&
        vts[own].retain > 1
      requires vts[id].refs == 1 ==> vts[id].retain == if own == id then 3 else 2
      modifies this`vts, this`hooked, this`anyVt
      ensures hooked == if old(vts)[id].refs == 1 then old(hooked) - {vk} else old(hooked)
      ensures anyVt == if old(vts)[id].refs == 1 && old(vts)[own].refs == 1 then old(anyVt) - {g} else old(anyVt)
      ensures vts == VtsAfter(old(vts), id, own)
    {
      ghost var was := vts;
      ReleaseKeys(id, own, vk, g);
      LetGo(id, own, was);
    }

    /** The slots of a vtable entry that loses its last reference are written back. */
    method RestoreSlots(id: Id)
      requires Valid() && id in vts
      modifies Tables()
      ensures Separate() && vts[id].vtable in old(State()).vtables
      ensures State() == if vts[id].refs == 1 then old(State()).(vtables :=
        old(State()).vtables[vts[id].vtable := Restored(old(State()).vtables[vts[id].vtable], vts[id].info)])
        else old(State())
    {
      var v := vts[id];
      assert EntryOk(config, State(), id) && SlotsOk(config, State(), v.vtable);
      if v.refs == 1 {
        RecordedIndexes(config.native[v.vtable], config.specs[v.hooker].slots);
        UnHookVtableFunctions(v.info, vtables[v.vtable]);
        OneTableChanged(v.vtable);
      }
    }

    /** The object leaves the table, and its use of the vtable entry with it. */
    method DropUse(h: HookerId, k: TrackKey, id: Id, own: Id, vk: VtKey, g: ClassKey)
      requires h in hookers && id in vts && own in vts && vts[id].refs > 0 && vts[own].refs > 0 && vts[id].retain > 1 &&
        vts[own].retain > 1
      requires vts[id].refs == 1 ==> vts[id].retain == if own == id then 3 else 2
      modifies this`tracked, this`hooked, this`anyVt, this`vts, this`hookers
      ensures State().vtables == old(State()).vtables && tracked == old(tracked) - {k} &&
        hookers == CountDown(old(State()), h)
      ensures hooked == if old(vts)[id].refs == 1 then old(hooked) - {vk} else old(hooked)
      ensures anyVt == if old(vts)[id].refs == 1 && old(vts)[own].refs == 1 then old(anyVt) - {g} else old(anyVt)
      ensures vts == VtsAfter(old(vts), id, own)
    {
      hookers := hookers[h := hookers[h].(counter := hookers[h].counter - 1)];
      tracked := tracked - {k};
      ReleaseUse(id, own, vk, g);
      assert State().vtables == old(State()).vtables;
    }

    /** Unhooks a tracked object. */
    method UnHookTracked(h: HookerId, k: TrackKey)
      requires Valid() && h in hookers && k in tracked
      modifies this`tracked, this`hooked, this`anyVt, this`vts, this`hookers, Tables()
      ensures old(tracked)[k].vtEntry in old(vts) && Separate()
      ensures UnhookedAs(old(State()), h, k, State())
    {
      ghost var before := State();
      UnhookDefined(config, State(), k);
      var id := tracked[k].vtEntry;
      var vk, g := KeyOf(vts[id]), GroupOf(vts[id]);
      var own := anyVt[g];
      UseCounts(config, State(), k);
      RestoreSlots(id);
      DropUse(h, k, id, own, vk, g);
      UnhookedFields(before, h, k, State());
    }

    /** Unhooks an object through a hooker: nothing happens when the object is not tracked at the hooker's depth. */
    method UnHookObject(h: HookerId, o: Obj)
      requires Valid() && h in hookers && h in config.specs && o in objects
      modifies this`tracked, this`hooked, this`anyVt, this`vts, this`hookers, Tables()
      ensures State() == Unhook(config, old(State()), h, o)
      ensures tracked == old(tracked) - {TrackKeyOf(config, old(State()), h, o)}
      ensures var k, w := TrackKeyOf(config, old(State()), h, o), old(State());
        Valid() <==>
          k !in w.tracked || (w.tracked[k].hooker == h && w.tracked[k].vtEntry in w.vts && !StrandsOwner(w, k))
    {
      var k := TrackKey(o, objects[o].class_, config.specs[h].depth);
      UnhookKeepsIff(config, State(), h, o);
      UnhookEffect(config, State(), h, o);
      if k in tracked {
        UnHookTracked(h, k);
      }
    }

    /** The original function for element `i` of the hooker's list, looked up under the class key found by walking the
        chain. */
    method GetOriginalFunction(h: HookerId, o: Obj, i: nat) returns (f: Option<Fn>)
      requires Valid() && h in config.specs && o in objects && i < |config.specs[h].slots|
      requires objects[o].vptr in vtables && 1 <= config.specs[h].slots[i].index <= vtables[objects[o].vptr].Length
      requires var key := KeyClass(objects[o].class_, config.specs[h].target, config.specs[h].depth);
        key.Some? && FindEntry(config, State(), h, o, key.value).Some? ==>
          var id := FindEntry(config, State(), h, o, key.value).value; id in vts && i < |vts[id].info|
      ensures var key := KeyClass(objects[o].class_, config.specs[h].target, config.specs[h].depth);
        f == if key == None then None else Some(GetOriginal(config, State(), h, o, key.value, i))
    {
      var m, d := objects[o].class_, config.specs[h].depth;
      var key := FindKeyClass(m, config.specs[h].target, d);
      if key == None {
        return None;
      }
      var k, vk, g := TrackKey(o, key.value, d), VtKey(objects[o].vptr, key.value, d), ClassKey(key.value, d);
      var found: Option<Id> := None;
      if k in tracked {
        found := Some(tracked[k].vtEntry);
      } else if vk in hooked {
        found := Some(hooked[vk]);
      } else if g in anyVt {
        found := Some(anyVt[g]);
      }
      assert found == FindEntry(config, State(), h, o, key.value);
      if found.Some? {
        f := Some(vts[found.value].info[i].original);
      } else {
        f := Some(vtables[objects[o].vptr][config.specs[h].slots[i].index - 1]);
      }
    }
  }

  lemma RecordedIndexes(table: seq<Fn>, slots: seq<SlotHook>)
    requires ValidSlots(slots, |table|)
    ensures var info := Recorded(table, slots);
      && (forall i: nat {:trigger info[i]} :: i < |info| ==> 1 <= info[i].index <= |table|)
      && (forall i: nat, j: nat {:trigger info[i], info[j]} :: i < j < |info| ==> info[i].index != info[j].index)
  {
    var info := Recorded(table, slots);
    forall i: nat, j: nat {:trigger info[i], info[j]} | i < j < |info| ensures info[i].index != info[j].index {
      assert slots[i].index != slots[j].index;
    }
  }

  /** The owner of the NULL key of an object's class has references. */
  lemma OwnerCounted(c: Config, w: World, h: HookerId, o: Obj)
    requires Inv(c, w) && o in w.objects && h in c.specs
    ensures var g := ClassKey(w.objects[o].class_, c.specs[h].depth);
      g in w.anyVt ==> w.anyVt[g] in w.vts && w.vts[w.anyVt[g]].refs > 0 && w.vts[w.anyVt[g]].retain > 0
  {
    var g := ClassKey(w.objects[o].class_, c.specs[h].depth);
    if g in w.anyVt { assert AnyOk(w, g) && EntryOk(c, w, w.anyVt[g]); }
  }

  lemma InstalledFields(c: Config, w: World, h: HookerId, k: TrackKey, v: Addr, id: Id, u: World)
    requires InstallOk(c, w, h, k, v) && u.objects == w.objects
    requires var g := ClassKey(k.class_, k.depth);
      && u.tracked == w.tracked[k := ObjEntry(h, id, v, 1)] && u.hooked == w.hooked[VtKey(v, k.class_, k.depth) := id]
      && u.anyVt == (if g in w.anyVt then w.anyVt else w.anyVt[g := id])
      && u.vts == (if g in w.anyVt then Bump(w.vts, w.anyVt[g]) else w.vts)[id :=
        VtEntry(h, v, k.class_, k.depth, Recorded(w.vtables[v], c.specs[h].slots), 1,
          2 + if g in w.anyVt then 0 else 1)]
      && u.vtables == w.vtables[v := Patched(w.vtables[v], c.specs[h].slots)] && u.hookers == CountUp(w, h)
    ensures u == Install(c, w, h, k, v, id)
  {
  }

  lemma UnhookedFields(w: World, h: HookerId, k: TrackKey, u: World)
    requires UninstallOk(w, h, k) && w.vts[w.tracked[k].vtEntry].refs > 0 && w.vts[w.tracked[k].vtEntry].retain > 0
    requires var id := w.tracked[k].vtEntry; var v := w.vts[id]; var own := w.anyVt[GroupOf(v)];
      && u.objects == w.objects && u.tracked == w.tracked - {k} && u.hookers == CountDown(w, h)
      && u.hooked == (if v.refs == 1 then w.hooked - {KeyOf(v)} else w.hooked)
      && u.anyVt == (if v.refs == 1 && w.vts[own].refs == 1 then w.anyVt - {GroupOf(v)} else w.anyVt)
      && u.vts == VtsAfter(w.vts, id, own)
      && u.vtables == (if v.refs == 1 then w.vtables[v.vtable := Restored(w.vtables[v.vtable], v.info)] else w.vtables)
    ensures UnhookedAs(w, h, k, u)
  {
  }

  lemma UseCounts(c: Config, w: World, k: TrackKey)
    requires Inv(c, w) && k in w.tracked && w.tracked[k].vtEntry in w.vts
    requires GroupOf(w.vts[w.tracked[k].vtEntry]) in w.anyVt
    ensures var id := w.tracked[k].vtEntry; var own := w.anyVt[GroupOf(w.vts[id])];
      && own in w.vts && w.vts[id].retain > 1 && w.vts[own].retain > 1
      && (w.vts[id].refs == 1 ==> w.vts[id].retain == if own == id then 3 else 2)
  {
    var id := w.tracked[k].vtEntry;
    var g := GroupOf(w.vts[id]);
    assert AnyOk(w, g) && EntryOk(c, w, id) && EntryOk(c, w, w.anyVt[g]);
    assert k in Users(w, id);
    if w.vts[id].refs == 1 { LastReference(c, w, k); }
  }

  /** The vtable entries during a call that drops one use of entry `id`, when the keys are already gone. */
  function VtsHeld(vts: map<Id, VtEntry>, id: Id, own: Id): map<Id, VtEntry>
    requires id in vts && own in vts && vts[id].refs > 0 && vts[own].refs > 0
  {
    var e, o := vts[id], vts[own];
    var last := if e.refs == 1 then 1 else 0;
    if own == id then vts[id := e.(refs := e.refs - 1, retain := e.retain + 2 - 2 * last)]
    else vts[own := o.(refs := o.refs - last, retain := o.retain + 1 - if o.refs == last then 1 else 0)]
            [id := e.(refs := e.refs - 1, retain := e.retain + 1 - last)]
  }

  /** The vtable entries after one use of entry `id` is gone. */
  function VtsAfter(vts: map<Id, VtEntry>, id: Id, own: Id): map<Id, VtEntry>
    requires id in vts && own in vts && vts[id].refs > 0 && vts[own].refs > 0 && vts[id].retain > 0 &&
      vts[own].retain > 0
  {
    var e, o := vts[id], vts[own];
    if e.refs > 1 then vts[id := e.(refs := e.refs - 1, retain := e.retain - 1)]
    else if own == id then vts - {id}
    else (vts - {id})[own := o.(refs := o.refs - 1, retain := o.retain - if o.refs == 1 then 1 else 0)]
  }

  /** What unhooking a tracked object means: other users remain, or the vtable entry goes with it. */
  ghost predicate UnhookedAs(w: World, h: HookerId, k: TrackKey, u: World)
    requires k in w.tracked && w.tracked[k].vtEntry in w.vts
  {
    if w.vts[w.tracked[k].vtEntry].refs > 1
    then h in w.hookers && w.vts[w.tracked[k].vtEntry].retain > 0 && u == Untrack(w, h, k)
    else UninstallOk(w, h, k) && u == Uninstall(w, h, k)
  }

  /** The class `depth` steps up the chain. */
  method SuperClass(m: MetaClass, depth: nat) returns (r: Option<MetaClass>)
    ensures r == Ancestor(m, depth)
  {
    r := Some(m);
    var i := 0;
    while i < depth && r.Some?
      invariant i <= depth && Ancestor(m, i) == r
      invariant r == None ==> Ancestor(m, depth) == None
    {
      AncestorCompose(m, i, 1);
      AncestorHeight(m, i);
      AncestorHeight(m, i + 1);
      AncestorHeight(m, depth);
      r := if r.value.Root? then None else Some(r.value.super);
      i := i + 1;
    }
  }

  /** The kind of failure the injected failures amount to, on the path the hook takes. */
  function FaultFor(c: Config, w: World, h: HookerId, o: Obj, faults: Faults): Fault
    requires o in w.objects && h in c.specs
  {
    if VtKeyOf(c, w, h, o) in w.hooked then if faults.objectAlloc || faults.insertObject then AllocationFails
      else NoFault
    else match FailureOf(faults, ClassKey(w.objects[o].class_, c.specs[h].depth) in w.anyVt)
      case NoMemory => AllocationFails
      case Error => InsertionFails
      case Success => NoFault
  }

  /** The entries while a call holds an extra reference, and a counted one, on the owner of the NULL key. */
  function Held(was: map<Id, VtEntry>, owner: Option<Id>): map<Id, VtEntry>
    requires owner.Some? ==> owner.value in was
  {
    if owner.Some? then was[owner.value := was[owner.value].(refs := was[owner.value].refs + 1, retain :=
      was[owner.value].retain + 1)] else was
  }

  /** The outcome the injected failures lead to. */
  function FailureOf(faults: Faults, hasOwner: bool): Status {
    if faults.infoAlloc || faults.objectAlloc || faults.vtableAlloc then NoMemory
    else if (!hasOwner && faults.insertNull) || faults.insertVtable || faults.insertObject then Error
    else Success
  }
}
