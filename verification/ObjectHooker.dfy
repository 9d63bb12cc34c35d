/** Hooking single objects as it runs: a private copy of the vtable is allocated, patched in place and swapped in. */
module ObjectHookers {
  import opened HookModel
  import opened HookManagers

  /** An object, by its vtable pointer. */
  class Target {
    var vtable: array<Fn>

    constructor (vtable: array<Fn>)
      ensures this.vtable == vtable
    {
      this.vtable := vtable;
    }
  }

  class ObjectHooker {
    ghost const slots: seq<SlotHook>
    /** The list of functions to hook; an element whose original is 0 has none saved. */
    const info: array<FnInfo>
    var newVtable: array?<Fn>
    var originalVtable: array?<Fn>
    var counter: int
    /** The entries of the hash table made by this hooker: the vtable each hooked object had. */
    var entries: map<Target, array<Fn>>
    /** What the vtable held when it was copied. */
    ghost var source: seq<Fn>

    ghost predicate ListOk()
      reads info
    {
      && info.Length == |slots|
      && forall i: nat {:trigger info[i]} :: i < info.Length ==>
        info[i].index == slots[i].index && info[i].hooking == slots[i].hooking
    }

    ghost predicate Valid()
      reads this, info, newVtable, entries.Keys
    {
      && ListOk() && counter == |entries|
      && (newVtable == null <==> originalVtable == null)
      && (newVtable == null ==> entries == map[] && forall i: nat {:trigger info[i]} :: i < info.Length ==>
        info[i].original == 0)
      && (newVtable != null ==>
            && ValidSlots(slots, |source|) && newVtable[..] == Patched(source, slots) &&
              info[..] == Recorded(source, slots))
      && (forall o: Target {:trigger entries[o]} :: o in entries ==> o.vtable == newVtable && entries[o] != newVtable)
    }

    constructor (hooks: seq<SlotHook>)
      ensures Valid() && slots == hooks && entries == map[] && newVtable == null && fresh(info)
    {
      slots := hooks;
      info := new FnInfo[|hooks|](i requires 0 <= i < |hooks| => FnInfo(hooks[i].index, 0, hooks[i].hooking));
      newVtable, originalVtable, counter, entries, source := null, null, 0, map[], [];
    }

    /** Allocates the copy and patches it; the originals are saved on the way. */
    method MakeCopy(vtable: array<Fn>)
      requires Valid() && newVtable == null && ValidSlots(slots, vtable.Length)
      modifies this`newVtable, this`originalVtable, this`source, info
      ensures Valid() && fresh(newVtable) && newVtable != null && originalVtable == vtable && source == old(vtable[..])
      ensures vtable[..] == old(vtable[..])
    {
      var copy := new Fn[vtable.Length];
      forall i | 0 <= i < vtable.Length {
        copy[i] := vtable[i];
      }
      assert copy[..] == vtable[..];
      HookVtableFunctions(info, vtable, copy, slots);
      source := vtable[..];
      newVtable, originalVtable := copy, vtable;
    }

    /** Hooks one object; `memory` and `inserted` tell whether the copy can be allocated and the entry added. */
    method HookObject(o: Target, memory: bool, inserted: bool) returns (status: Status)
      requires Valid() && (newVtable == null ==> ValidSlots(slots, o.vtable.Length))
      modifies this, info, o`vtable
      ensures Valid()
      ensures o in old(entries) ==>
        status == Success && o.vtable == old(o.vtable) && entries == old(entries) && newVtable == old(newVtable)
      ensures status != Success ==> o.vtable == old(o.vtable) && entries == old(entries)
      ensures status == Success && o !in old(entries) && old(o.vtable) != old(newVtable) ==>
                o.vtable == newVtable && entries == old(entries)[o := old(o.vtable)]
      ensures old(newVtable) != null ==> newVtable == old(newVtable) && source == old(source)
      ensures old(newVtable) == null && newVtable != null ==> fresh(newVtable) && source == old(o.vtable[..])
      ensures o !in old(entries) ==> (newVtable == null <==> old(newVtable) == null && !memory)
      ensures o !in old(entries) && old(o.vtable) == old(newVtable) ==>
        o.vtable == old(o.vtable) && entries == old(entries)
      ensures status == Success || status == NoMemory
      ensures status == Success <==>
        o in old(entries) || old(o.vtable) == old(newVtable) || (newVtable != null && inserted)
    {
      if o in entries {
        return Success;
      }
      if newVtable == null {
        if !memory {
          return NoMemory;
        }
        MakeCopy(o.vtable);
      }
      status := Success;
      if newVtable != o.vtable {
        if inserted {
          entries := entries[o := o.vtable];
          o.vtable := newVtable;
          counter := counter + 1;
        } else {
          status := NoMemory;
        }
      }
    }

    /** Forgets the saved originals. */
    method ClearOriginals()
      requires ListOk()
      modifies info
      ensures ListOk() && forall i: nat {:trigger info[i]} :: i < info.Length ==> info[i].original == 0
    {
      var p := 0;
      while p < info.Length
        invariant p <= info.Length && ListOk()
        invariant forall i: nat {:trigger info[i]} :: i < p ==> info[i].original == 0
      {
        info[p] := FnInfo(info[p].index, 0, info[p].hooking);
        p := p + 1;
      }
    }

    lemma OneFewer(m: map<Target, array<Fn>>, o: Target)
      requires o in m
      ensures |m - {o}| == |m| - 1 && (|m| == 1 ==> m - {o} == map[])
    {
      assert m.Keys == (m - {o}).Keys + {o};
    }

    /** Unhooks one object: it gets its vtable back, and with the last one the copy and the originals go. */
    method UnhookObject(o: Target)
      requires Valid()
      modifies this, info, o`vtable
      ensures Valid() && entries == old(entries) - {o}
      ensures o in old(entries) ==> o.vtable == old(entries[o])
      ensures o !in old(entries) ==> o.vtable == old(o.vtable) && newVtable == old(newVtable)
      ensures o in old(entries) ==>
        (newVtable == null <==> entries == map[]) && (newVtable != null ==> newVtable == old(newVtable))
    {
      if o in entries {
        var original := entries[o];
        OneFewer(entries, o);
        entries := entries - {o};
        o.vtable := original;
        counter := counter - 1;
        if counter == 0 {
          newVtable, originalVtable := null, null;
          ClearOriginals();
        }
      }
    }
  }
}
