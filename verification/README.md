# Verified model of the driver's core data structures and protocols

This Dafny project models five stateful parts of the driver and proves properties of every run of them.

| part | files | source |
|---|---|---|
| ring queue with trampoline entries | RingModel, RingProtocol, RingRuns, RingLimits, DataQueue | DLDriver/DldIODataQueue.cpp |
| vtable hooks, object hooks, lookup of originals | HookModel, HookProofs, HookRuns, HookLookup, HookManager, ObjectHooks, ObjectHookRuns, ObjectHookLimits, ObjectHooker | DLDriver/DldHookerCommonClass.cpp, DLDriver/DldIOKitHookEngine.cpp |
| chained hash table with age list | HashLinks, HashSpec, HashTable, HashRuns, HashLimits | DLDriver/DldCommonHashTable.cpp |
| covering vnodes: overlay file, cover and reclaim | OverlayModel, CoveringFile, CoverProtocol, CoverProgress | DLDriver/DldCoveringVnode.cpp, DLDriver/DldSparseFile.cpp |
| service notification: client registration, wait list | ClientRegistration, IntrusiveList, WaitList | DLDriver/DldDiskCAWL.cpp, DLDriver/DldCommon.h |

ByteStore, Options and Sequences hold what several parts share. Where the source changes state in place there is a class
or a method over arrays and heap lists, proved equal to a specification function or against the property itself; the
runs of the concurrent protocols are sequences of atomic steps in any order.

Check everything with `dafny verify dfyconfig.toml`.

## Results that limit the code

Each of these is proved, with the exact condition where there is one, and the code is modelled as it is.

- The wrap test of `dequeueDataInPlace` starts at `head` while the entry lies at `validDataHead`. It is always right when
  each entry is given back before the next dequeue (`RingProtocol.DequeueOneAtATime`), and in general exactly under the
  condition of `RingProtocol.DequeueRightIff`; `RingLimits.SecondConsumerGoesWrong` is a run to a failure. The repaired
  test with `validDataHead` is right for any number of consumers; it is labelled as a repair wherever it is used.
- The wrap test adds 32-bit numbers. `RingModel.WrapTestAtEntryIff` says for every queue below 4 GiB when that matters, and
  `RingLimits.HugeQueueGoesWrong` shows a queue in which it does; the runs of the queue are bounded by 2 GiB.
- A sleeping producer whose entry wrapped around is not woken by the publisher before it: `RingProtocol.WakeExact` for
  every state, `RingLimits.WrappedSleeperNotWoken` a run.
- When a class has two vtables, the entry that owns the key with a NULL vtable can lose its last reference while its own
  vtable is still hooked: `HookProofs.UnhookKeepsIff` has the exact guard, `HookProofs.StrandedBreaks` what is left,
  `HookRuns.TwoVtablesStrandOne` a run.
- The engine ignores a failed vtable hook (DLDriver/DldIOKitHookEngine.cpp:580). A private copy made then lacks the vtable
  hooks as long as events are sound (`ObjectHookRuns.CopyStaysAsMade`), and a copy made with them can outlive them. Which
  hooks a call passes is exact in `ObjectHooks.CallPath` and `ObjectHooks.PassesAllHooksIff`;
  `ObjectHookLimits.SecondObjectMisses` and `ObjectHookLimits.SecondObjectNeverEnds` are runs in which a call misses its
  vtable hook and in which it never ends.
- The engine hooks an object when it is attached and again when its class is published
  (DLDriver/DldIOKitHookEngine.cpp:464-466). If the vtable hook failed the first time, the second call can take the private
  copy of the object for a new vtable of its class: `HookRuns.HookKeepsIff` and `ObjectHookRuns.SoundEngineIff` say exactly
  when it does not, `ObjectHookRuns.UnsoundLeaves` what it leaves, `ObjectHookLimits.SecondCallOnPlain` is a run.
- The lookup of an original function falls back to the object's own slot when the leaf class has no entry. For a call
  through super, or for an object on a private copy, that slot can hold an overriding or a hooking function:
  `HookLookup.GetOriginalOwnIff` and `ObjectHooks.LookupOnCopyIff` are exact, `HookLookup.SuperCallMisses` is a failing call.
- A rehash stops at the first NULL data pointer: `HashSpec.KeptIffNoNull` is the exact condition for keeping the map.
- A rehash to fewer buckets does not enforce the bucket limit: `HashTables.HashTable.Rehash` has the exact condition,
  `HashLimits.ShrinkingBreaksLimit` a failure. The documented refusal of an eviction by the callback
  (DLDriver/DldCommonHashTable.h:309-312) is not in the code, and not here.
- The flag for a pending unregistration can be clear while an unregistration waits: exactly when
  `ClientRegistration.PendingClearIff` says, never when unregistrations do not overlap
  (`ClientRegistration.PendingWhenOneAtATime`). A notifier can work with a registration whose reference is not yet taken:
  exactly when `ClientRegistration.LacksReferenceIff` says. Safety does not depend on either.
- A caller of the vnode replacement can give up its I/O reference before the new covering vnode's creator has taken the
  user reference, so the assertion in that branch (line 578) can fail: exactly when `CoverProtocol.ConfirmedReferencedIff`
  says, never while no creation is under way. The covered vnode is still referenced (`CoverProtocol.CoveredStaysReferenced`).

## Assumptions

- Slot indices in one function list are distinct and inside the vtable; no vtable contains a hooking function at the
  start; object hooks and vtable hooks are different functions. These are `ValidConfig` and `ValidObjects`.
- The runs of the hook manager are sound steps, for any number of vtables a class. The runs with object hooks assume one
  vtable for each class (`OneVtablePerClass`), that an object which is not object-hooked uses a vtable of its class when the
  engine hooks it, and that object hooks are left before vtable hooks.
- Class names are unique, so the engine's dictionaries are keyed by the class itself. The three kinds of hash keys of the
  hook manager are three maps; that the hash table is a map is proved in its own part.
- A covered file has the size the covering vnode believes it has. The bytes a grown file holds are arbitrary.
- Locks, atomic operations and accesses under one lock are single steps.

## Model

| member | source | states |
|---|---|---|
| RingModel.HeaderRoundTrip | DLDriver/DldIODataQueue.cpp:166-183 | An entry header written at an offset reads back as the data size that was written, for every size below 2^32. |
| RingModel.EntriesDisjoint | DLDriver/DldIODataQueue.cpp:157-236 | In every reachable queue two live entries occupy disjoint byte ranges inside the queue. |
| RingModel.EmptyIffHeadIsTail | DLDriver/DldIODataQueue.cpp:98-98 | Head equals tail exactly when no entry is live: a full queue never looks empty. |
| RingModel.WrapTestAtEntryIff | DLDriver/DldIODataQueue.cpp:428-440 | In a queue of any size below 4 GiB, the wrap test at the boundary where a live entry was reserved tells wrongly whether that entry wrapped exactly when it did and the 32-bit sum of offset and size overflows. |
| RingModel.WrapTestAtEntry | DLDriver/DldIODataQueue.cpp:428-440 | Up to 2 GiB the test succeeds exactly when the producer placed the entry at offset 0 by its wrap branch, whatever stray bytes lie past the queue. |
| RingModel.WrapTestExact | DLDriver/DldIODataQueue.cpp:428-430 | The 32-bit sum of the wrap test agrees with the unbounded sum exactly when a header does not fit anyway or the sum stays below 2^32. |
| RingProtocol.ReserveKeeps | DLDriver/DldIODataQueue.cpp:150-250 | Reserving (in place, wrapping with a trampoline, or refusing) keeps layout, stored bytes and valid window of all entries. |
| RingProtocol.PlaceExact | DLDriver/DldIODataQueue.cpp:150-230 | From every consistent queue: an entry is placed at the tail exactly when it fits there, otherwise at offset 0 exactly when it fits there, and refused exactly when it fits in neither place; to fit is to lie inside the queue, to end before the head when placed below it, and to touch no live entry. |
| RingProtocol.CopyKeeps | DLDriver/DldIODataQueue.cpp:270-276 | Copying one more piece into a reserved entry, outside the lock, disturbs no other entry. |
| RingProtocol.BackOffKeeps | DLDriver/DldIODataQueue.cpp:287-298 | A producer that goes to sleep sets only its own flag; payload bytes already copied stay. |
| RingProtocol.PublishTestExact | DLDriver/DldIODataQueue.cpp:287-335 | The offset comparison of a publishing producer holds exactly when every earlier entry is published. |
| RingProtocol.PublishKeeps | DLDriver/DldIODataQueue.cpp:323-348 | Publishing moves the valid tail behind the entry and keeps the queue consistent; a waiter counter is never taken below zero. |
| RingProtocol.WakeExact | DLDriver/DldIODataQueue.cpp:348-372 | A sleeping producer that is next in line is woken exactly when its entry did not wrap around (the trampoline flag is false); when no header fits at the new tail, exactly when the byte behind the queue is not zero. |
| RingProtocol.DequeueByTest | DLDriver/DldIODataQueue.cpp:416-453 | A dequeue hands out the oldest entry exactly when its wrap test gives the right answer, or the valid head is at offset 0. |
| RingProtocol.DequeueOneAtATime | DLDriver/DldIODataQueue.cpp:416-453 | With every dequeued entry given back before the next dequeue, the code hands out the oldest published entry, complete. |
| RingProtocol.DequeueRightIff | DLDriver/DldIODataQueue.cpp:428-440 | With entries still out, in a queue of any size and whatever lies behind it, the dequeue as written is right if and only if the valid head is 0 or the test at the head says what an unbounded sum at the valid head would say: fields a caller can read. |
| RingProtocol.RepairedDequeueRight | DLDriver/DldIODataQueue.cpp:428-440 | Repaired variant, not the code: with the valid head in the wrap test every dequeue is right for any number of consumers. |
| RingProtocol.DequeueKeeps | DLDriver/DldIODataQueue.cpp:450-453 | Moving the valid head behind the entry handed out keeps the queue consistent. |
| RingProtocol.MustWaitExact | DLDriver/DldIODataQueue.cpp:482-518 | A consumer that gives an entry back waits exactly when an earlier entry is still out. |
| RingProtocol.RemoveKeeps | DLDriver/DldIODataQueue.cpp:567-595 | Giving back the oldest entry moves the head to the next one, across the wrap, and keeps the queue consistent. |
| RingProtocol.RemoverFindsNext | DLDriver/DldIODataQueue.cpp:597-630 | The entry whose flag decides about the wake-up after a removal is the next one in reservation order, wrapped or not. |
| RingRuns.NextKeeps | DLDriver/DldIODataQueue.cpp:128-595 | Every step of any interleaving of producers and consumers keeps the invariant. |
| RingRuns.Run | DLDriver/DldIODataQueue.cpp:128-595 | Every run of such steps ends in a consistent queue. |
| RingRuns.RunsAreFifo | DLDriver/DldIODataQueue.cpp:128-595 | In every run from a fresh queue with any number of producers and consumers, in which each dequeue meets the condition of RingProtocol.DequeueRightIff, the byte strings handed out are the first ones reserved, in reservation order, none lost, repeated or torn; entries still out read as they were given out. |
| RingRuns.OneAtATimeEnabled | DLDriver/DldIODataQueue.cpp:416-453 | That condition always holds when every dequeued entry has been given back. |
| RingRuns.StepRefinesFifo | DLDriver/DldIODataQueue.cpp:128-595 | Each concrete step is a step of an abstract queue of byte strings with the same output: a reservation takes effect exactly when there is room beside the live entries; copying, waiting and giving back are invisible. |
| RingLimits.SecondConsumerGoesWrong | DLDriver/DldIODataQueue.cpp:428-440 | A run of the code from a fresh queue ends in a state in which a second consumer is handed the extra header instead of the oldest entry. |
| RingLimits.WrappedSleeperNotWoken | DLDriver/DldIODataQueue.cpp:348-372 | A run ends with a publisher that leaves the producer of the next entry asleep, although it is that producer's turn. |
| RingLimits.HugeQueueGoesWrong | DLDriver/DldIODataQueue.cpp:428-430 | In a queue of 0xF0000000 bytes, one entry enqueued, dequeued and removed and a second one enqueued, the next dequeue gives out the extra header while the entry lies at offset 0. |
| DataQueues.DataQueue.constructor | DLDriver/DldIODataQueue.cpp:98-98 | A new queue is empty and consistent. |
| DataQueues.DataQueue.Reserve | DLDriver/DldIODataQueue.cpp:150-250 | The reservation done in place on the byte buffer equals the specified one, succeeds exactly when the entry and its header fit at the tail or at offset 0 without touching the head or a live entry, lies where there is room, and reports the entry and both tails. |
| DataQueues.DataQueue.CopyPiece | DLDriver/DldIODataQueue.cpp:270-276 | Copies one piece in place, byte by byte, behind the pieces already there. |
| DataQueues.DataQueue.Publish | DLDriver/DldIODataQueue.cpp:323-374 | Publishes in place; answers whether a sleeping producer is to be woken as the flag bytes say. |
| DataQueues.DataQueue.EnqueueScatterGather | DLDriver/DldIODataQueue.cpp:128-393 | Appends the concatenation of all pieces to the pending byte strings exactly when there is room at the tail or at offset 0, and otherwise leaves them as they were. |
| DataQueues.DataQueue.DequeueDataInPlace | DLDriver/DldIODataQueue.cpp:404-459 | In every state the in-place dequeue equals the specified one; it takes the oldest pending byte string whenever its wrap test is right, always when every entry handed out has been given back; finds none exactly when none is published. |
| DataQueues.DataQueue.RemoveEntry | DLDriver/DldIODataQueue.cpp:463-595 | Gives back the oldest entry that is out, leaves the pending byte strings alone, and for any other entry waits and changes nothing. |
| HookModel.AncestorHeight | DLDriver/DldHookerCommonClass.cpp:2139-2277 | A class has an n-th super class exactly when its chain is that long. |
| HookModel.DistanceOfAncestor | DLDriver/DldHookerCommonClass.cpp:2139-2277 | Walking up to the n-th super class takes n steps: no class occurs twice in a chain. |
| HookModel.AncestorOfDistance | DLDriver/DldHookerCommonClass.cpp:2139-2277 | The class met after the distance to a class is that class. |
| HookModel.SelectedTarget | DLDriver/DldIOKitHookEngine.cpp:533-593 | The class a hooker hooks lies exactly its inheritance depth above the class it was picked for. |
| HookModel.SelectNearest | DLDriver/DldIOKitHookEngine.cpp:523-586 | For every registration and class: the engine picks the hooker of the least k below ten for which the k-th super class is registered at depth k, and none exactly when there is no such k. |
| HookProofs.RestoredPatched | DLDriver/DldHookerCommonClass.cpp:2053-2085 | Writing back the saved originals undoes the patch slot for slot, for every vtable and every list of distinct slots. |
| HookProofs.OriginalRecorded | DLDriver/DldHookerCommonClass.cpp:1941-2045 | A slot has a saved original exactly when it is listed, and it is what the slot held. |
| HookProofs.NoteClassKeeps | DLDriver/DldHookerCommonClass.cpp:2690-2710 | The delayed initialisation gives the hooker the class it is registered for and changes nothing else. |
| HookProofs.TrackKeeps | DLDriver/DldHookerCommonClass.cpp:2825-2904 | Tracking one more object of a hooked vtable keeps all counts, keys and slots right. |
| HookProofs.InstallKeeps | DLDriver/DldHookerCommonClass.cpp:2906-3153 | Hooking a vtable for its first object keeps all counts, keys and slots right, with or without another vtable of the class. |
| HookProofs.UntrackKeeps | DLDriver/DldHookerCommonClass.cpp:3363-3464 | Losing an object of a vtable that has others keeps everything right. |
| HookProofs.LastReference | DLDriver/DldHookerCommonClass.cpp:3430-3464 | An entry that loses its last reference has one user, and owns the NULL key only when it is alone in its class. |
| HookProofs.UninstallKeeps | DLDriver/DldHookerCommonClass.cpp:3464-3529 | Losing the last object restores the vtable, frees the entry and keeps everything right unless the owner of the NULL key is stranded. |
| HookProofs.UnhookKeepsIff | DLDriver/DldHookerCommonClass.cpp:3363-3533 | Unhooking keeps the bookkeeping if and only if the object is not tracked, or it is tracked by this hooker and no owner of a NULL key is stranded. |
| HookProofs.UnhookEffect | DLDriver/DldHookerCommonClass.cpp:3363-3533 | In every consistent state an unhook stops tracking exactly this object; if it was tracked, the counter of the hooker is one less, and the entry of its vtable has one reference less or, with the last one, is gone with its key and the vtable is native again slot for slot. |
| HookProofs.WrongHookerBreaks | DLDriver/DldHookerCommonClass.cpp:3390-3430 | Unhooking through another hooker leaves that hooker's counter one below its tracked objects and the tracking hooker's counter one above. |
| HookProofs.StrandedBreaks | DLDriver/DldHookerCommonClass.cpp:3477-3516 | When the owner of the NULL key loses its last reference through another vtable, the NULL key is gone, its entry stays in the table under its own key with count 0, one retain and no user, and its vtable still holds the hooks. |
| HookRuns.HookKeeps | DLDriver/DldHookerCommonClass.cpp:2668-3206 | A hook of an object that uses a vtable of its class, is tracked already, meets a failed call or is stopped by the double hook test keeps the bookkeeping; it succeeds exactly when it is not refused, tells lack of memory from other errors, and a refused hook changes nothing but the class pointer of the hooker. |
| HookRuns.HookGains | DLDriver/DldHookerCommonClass.cpp:2668-3206 | A hook that is not refused tracks the object, counts it, and leaves its vtable patched; a refused one or one of a tracked object leaves objects, entries and vtables alone. |
| HookRuns.HookBreaks | DLDriver/DldHookerCommonClass.cpp:2906-3153 | In every other case the private vtable of the object is patched and gets an entry of its own as if it were a new vtable of the class. |
| HookRuns.HookKeepsIff | DLDriver/DldHookerCommonClass.cpp:2668-3206 | For every object and every failure, a hook keeps the bookkeeping if and only if the object uses a vtable of its class, or is tracked already, or a call fails, or the double hook test fires on its private vtable. |
| HookRuns.NoDoubleHook | DLDriver/DldHookerCommonClass.cpp:2916-2937 | The test for a double hook never fires on a pristine vtable. |
| HookRuns.FreshHookInstalls | DLDriver/DldHookerCommonClass.cpp:2906-3153 | Hooking the first object of a vtable installs the hook. |
| HookRuns.StepKeepsIff | DLDriver/DldHookerCommonClass.cpp:2668-3533 | Every hook, unhook and change of the set of objects keeps the invariant if and only if it is sound: a hook as above; an unhook by the hooker that tracks the object which strands no owner of a NULL key; for any number of vtables a class. |
| HookRuns.StepEffect | DLDriver/DldHookerCommonClass.cpp:2668-3533 | The set of tracked objects after a sound step: one more for a hook that is not refused, one less for an unhook, the same for everything the system does. |
| HookRuns.Run | DLDriver/DldHookerCommonClass.cpp:2668-3533 | Every run of sound steps keeps the invariant, for any number of vtables a class. |
| HookRuns.NeverStranded | DLDriver/DldHookerCommonClass.cpp:3477-3516 | With one vtable for each class no owner of a NULL key is ever stranded. |
| HookRuns.SoundUnhookIff | DLDriver/DldHookerCommonClass.cpp:3363-3533 | With one vtable for each class an unhook is sound if and only if nobody or this very hooker tracks the object. |
| HookRuns.HookedIff | DLDriver/DldHookerCommonClass.cpp:2668-3533 | However many vtables a class has, a vtable is not as before the first hook exactly while an object of it is tracked or its entry owns the NULL key on behalf of another hooked vtable. |
| HookRuns.HookedIffTracked | DLDriver/DldHookerCommonClass.cpp:2668-3533 | With one vtable for each class, a vtable holds hooks exactly while an object of it is tracked. |
| HookRuns.RestoredWhenLastLeaves | DLDriver/DldHookerCommonClass.cpp:3431-3464 | After every run a vtable is, slot for slot, what it was before the first hook if and only if no object of it is tracked and it is not kept for another vtable of its class; with one vtable for each class, if and only if no object of it is tracked. |
| HookRuns.NothingTracked | DLDriver/DldHookerCommonClass.cpp:50-96 | When nothing is tracked, no entry and no key is left and every counter is zero: each entry has been freed. |
| HookRuns.OneHookerPerVtable | DLDriver/DldIOKitHookEngine.cpp:533-593 | No vtable is hooked under two keys or by two hookers. |
| HookRuns.TwoVtablesStrandOne | DLDriver/DldHookerCommonClass.cpp:3477-3516 | A concrete run with two vtables of one class: everything is unhooked, and the vtable hooked first still holds its hook. |
| HookLookup.KeyClassIsLeaf | DLDriver/DldHookerCommonClass.cpp:2139-2277 | For an object of the hooked leaf class or of any class below it, the class key of the lookup is that leaf class, the only ancestor at the right depth: the key used when hooking. |
| HookLookup.FoundEntry | DLDriver/DldHookerCommonClass.cpp:2281-2329 | Any entry found under a class key was made by this hooker for a vtable of that class. |
| HookLookup.NoEntryNoGroup | DLDriver/DldHookerCommonClass.cpp:2281-2332 | The lookup finds nothing exactly when the class has no entry under the NULL key. |
| HookLookup.GetOriginalRight | DLDriver/DldHookerCommonClass.cpp:2089-2332 | While the leaf class has an entry, the lookup of an original function gives what a vtable of the leaf class held in the slot before hooking: the vtable the object had when it was tracked, or its own one if that is hooked for the leaf class; for calls through super from any depth, too. |
| HookLookup.GetOriginalIff | DLDriver/DldHookerCommonClass.cpp:2089-2372 | For every object, whatever vtable it uses, the lookup gives a native function of the leaf class if and only if the leaf class has an entry or the object's own slot holds such a function; without an entry it gives the object's own slot; a native function is never the hooking function. |
| HookLookup.GetOriginalOwnIff | DLDriver/DldHookerCommonClass.cpp:2332-2372 | For an object that uses a vtable of the system, if and only if the leaf class has an entry, or its own vtable has no hook in the slot and did not override it; always for an object of the leaf class itself. |
| HookLookup.SuperCallMisses | DLDriver/DldHookerCommonClass.cpp:2332-2372 | A call through super when no object of the leaf class is tracked any more: the lookup gives the overriding function of the derived class instead of the native function of the leaf class. |
| HookManagers.HookVtableFunctions | DLDriver/DldHookerCommonClass.cpp:1941-2045 | The slot loop saves every listed slot and writes every hooking function, also when both arrays are one. |
| HookManagers.UnHookVtableFunctions | DLDriver/DldHookerCommonClass.cpp:2053-2085 | The slot loop writes every saved original back. |
| HookManagers.FindKeyClass | DLDriver/DldHookerCommonClass.cpp:2139-2277 | The two walks up the class chain compute the class key. |
| HookManagers.EngineSelect | DLDriver/DldIOKitHookEngine.cpp:533-593 | The walk up the chain finds the hooker of the nearest class that is registered at its distance from the class of the object, and none exactly when no such class exists within ten steps. |
| HookManagers.HookManager.TrackObject | DLDriver/DldHookerCommonClass.cpp:2825-2904 | Tracks one more object, or rolls back to the old state when an allocation or insertion fails. |
| HookManagers.HookManager.InsertKeys | DLDriver/DldHookerCommonClass.cpp:3028-3085 | Adds NULL key, vtable key and object key in this order and stops at the first failure, counting the references it leaves. |
| HookManagers.HookManager.RollBack | DLDriver/DldHookerCommonClass.cpp:3090-3153 | Removes what was added and leaves the entries as they were before the call. |
| HookManagers.HookManager.InstallVtable | DLDriver/DldHookerCommonClass.cpp:2906-3153 | Hooks a vtable step by step; after any failure table, entries, counters and slots are as before. |
| HookManagers.HookManager.HookVtable | DLDriver/DldHookerCommonClass.cpp:2668-3206 | The whole in-place hook equals the specified one for every object and every combination of failures, and tells exactly when the manager stays consistent. |
| HookManagers.HookManager.UnHookObject | DLDriver/DldHookerCommonClass.cpp:3363-3533 | The whole in-place unhook equals the specified one, stops tracking exactly this object, and leaves a consistent manager exactly under the stated condition. |
| HookManagers.HookManager.GetOriginalFunction | DLDriver/DldHookerCommonClass.cpp:2089-2372 | The lookup through object key, vtable key, NULL key and finally the vtable itself equals the specified one. |
| ObjectHooks.CopySeesVtableHookIff | DLDriver/DldHookerCommonClass.cpp:2427-2530 | A private copy shows the vtable hook of a slot if and only if the vtable is hooked at the moment of copying. |
| ObjectHooks.KindsApart | DLDriver/DldHookerCommonClass.cpp:2427-2530 | Object hooks, vtable hooks and native functions are told apart in every slot. |
| ObjectHooks.CopyHops | DLDriver/DldHookerCommonClass.cpp:2103-2116 | The slot of the copy and its saved originals lead from the object hook to what the vtable held when it was copied. |
| ObjectHooks.VtableHop | DLDriver/DldHookerCommonClass.cpp:2139-2372 | The vtable hook of a hooked object leads to the native function while the vtable is hooked, and otherwise back to the slot of the private copy. |
| ObjectHooks.CallPath | DLDriver/DldHookerCommonClass.cpp:2393-2585 | Where a call on any slot of a hooked object goes, in every case: object hook, then the vtable hook exactly if the copy was made from the hooked vtable, then the native function exactly if the vtable is hooked still; otherwise it never ends. |
| ObjectHooks.PassesAllHooksIff | DLDriver/DldHookerCommonClass.cpp:2393-2585 | A call passes each hook of its slot once and reaches the original if and only if the slot has no vtable hook, or the copy was made from the hooked vtable and the vtable is hooked. |
| ObjectHooks.DoubleHookOnCopy | DLDriver/DldHookerCommonClass.cpp:2916-2937 | The double hook test fires on a private copy if and only if the copy was made from the hooked vtable and no object hook took the first listed slot. |
| ObjectHooks.LookupOnCopyIff | DLDriver/DldHookerCommonClass.cpp:2332-2372 | For an object on a private copy the lookup of an original gives a native function of the leaf class if and only if the leaf class has an entry, or neither hook is in the slot of the copy and the object's class did not override it. |
| ObjectHookRuns.PassesAllHooks | DLDriver/DldIOKitHookEngine.cpp:512-661 | After every run of sound events in which no vtable hook fails, each call passes the object hook once, then the vtable hook once, and reaches the original. |
| ObjectHookRuns.SoundWhenAllHooked | DLDriver/DldIOKitHookEngine.cpp:440-468 | In such runs hooking an object again is always sound: it is tracked. |
| ObjectHookRuns.CopyStaysAsMade | DLDriver/DldHookerCommonClass.cpp:2427-2530 | For as long as a private copy lives, its address, its saved originals and whether it was made from the hooked vtable stay, and its slots stay if and only if the event is no unsound engine call on an object of the class; it has the vtable hooks exactly when the vtable was hooked after the engine's own attempt. |
| ObjectHooks.MakeCopyKeeps | DLDriver/DldHookerCommonClass.cpp:2427-2530 | Making the private copy of a class keeps every bookkeeping fact. |
| ObjectHooks.HookObjectKeeps | DLDriver/DldHookerCommonClass.cpp:2393-2585 | Hooking an object keeps every bookkeeping fact whatever fails; it fails exactly when the table entry, or the copy a class needs for its first object, cannot be allocated; the copy is there afterwards unless it could not be allocated; other objects, hookers and vtables stay as they are. |
| ObjectHooks.UnhookObjectKeeps | DLDriver/DldHookerCommonClass.cpp:3283-3347 | Unhooking gives an object its own vtable back; the copy and the saved originals go exactly with the last object of the class; nothing else changes, and nothing at all for an object that is not hooked. |
| ObjectHookRuns.AfterKeepsIff | DLDriver/DldIOKitHookEngine.cpp:512-661 | Engine hooks (vtable first, its failure ignored, then object, and again when the class is published), unhooks in the opposite order, and objects coming and going keep every bookkeeping fact if and only if they are sound. |
| ObjectHookRuns.EventEffect | DLDriver/DldIOKitHookEngine.cpp:523-593 | The set of hooked objects after an event: the engine adds the object it attaches exactly when its class is registered for object hooks and no fault strikes; one that leaves is taken out and has its own vtable again. |
| ObjectHookRuns.SoundEngineIff | DLDriver/DldIOKitHookEngine.cpp:440-468 | An engine call is sound if and only if the object is not object-hooked, or its class has no vtable hooker, or it is tracked already, or a call of the vtable hook fails, or the copy was made from the hooked vtable and no object hook took the first listed slot. |
| ObjectHookRuns.UnsoundLeaves | DLDriver/DldHookerCommonClass.cpp:2906-3153 | An engine call that is not sound patches the private copy once more and enters it as a new vtable of the class; when the object was the only one hooked, leaving its object hook takes the copy away and the entry names a vtable that no longer exists. |
| ObjectHookRuns.AfterAll | DLDriver/DldIOKitHookEngine.cpp:512-661 | Every run of sound events keeps every bookkeeping fact. |
| ObjectHookRuns.LeavesWithOwnVtable | DLDriver/DldHookerCommonClass.cpp:3283-3347 | After any run of sound events a hooked object uses an existing copy, and when it leaves its object hook it has the only vtable of its class again. |
| ObjectHookLimits.SecondCallBreaks | DLDriver/DldIOKitHookEngine.cpp:440-468 | When the vtable hook of the first object of a class fails, hooking that object again without a failure is possible and not sound, and leads to an entry for a copy that is gone. |
| ObjectHookLimits.LaterObjectMisses | DLDriver/DldIOKitHookEngine.cpp:580-593 | When the vtable hook of the first object of a class fails, an object hooked both ways later without any failure is tracked, its vtable is hooked, and its calls pass through no vtable hook. |
| ObjectHookLimits.LeftBehindNeverEnds | DLDriver/DldIOKitHookEngine.cpp:580-593 | When the vtable hook of a later object fails and the tracked object leaves both hooks in order, calls of the other object on a slot with a vtable hook never reach the native function. |
| ObjectHookLimits.SecondObjectMisses | DLDriver/DldIOKitHookEngine.cpp:512-661 | A run of two engine hooks after which a call of the second object misses its vtable hook. |
| ObjectHookLimits.SecondObjectNeverEnds | DLDriver/DldIOKitHookEngine.cpp:512-661 | A run of two engine hooks and two unhooks after which a call of the remaining object never ends. |
| ObjectHookLimits.SecondCallOnPlain | DLDriver/DldIOKitHookEngine.cpp:440-468 | A run of two engine calls for one object, the first with a failed allocation, after which the bookkeeping is wrong and an entry names a vtable that the object's unhook takes away. |
| ObjectHookers.ObjectHooker.MakeCopy | DLDriver/DldHookerCommonClass.cpp:2427-2530 | Copies the vtable into a new array, patches the copy in place and saves the originals; the vtable itself is untouched. |
| ObjectHookers.ObjectHooker.HookObject | DLDriver/DldHookerCommonClass.cpp:2393-2585 | Swaps the pointer of the object for the copy and remembers the old one, or leaves the object alone; says exactly when the call succeeds and when there is a copy afterwards. |
| ObjectHookers.ObjectHooker.UnhookObject | DLDriver/DldHookerCommonClass.cpp:3283-3347 | Puts the old pointer back; copy and originals are cleared exactly when no object is left. |
| HashLinks.UnlinkChain | DLDriver/DldCommonHashTable.cpp:118-131 | Takes an entry out of a bucket chain: the rest is the chain without it. |
| HashLinks.UnlinkAge | DLDriver/DldCommonHashTable.cpp:133-149 | Takes an entry out of the age list: the rest is the list without it. |
| HashLinks.SwapUp | DLDriver/DldCommonHashTable.cpp:45-82 | The transpose heuristic swaps an entry with the one before it and keeps the chain well linked. |
| HashLinks.ToFront | DLDriver/DldCommonHashTable.cpp:87-114 | The move-to-front heuristic moves an entry first and keeps the chain well linked. |
| HashSpec.LookupIsMap | DLDriver/DldCommonHashTable.cpp:615-640 | Looking a key up in the insertion-ordered dictionary is looking it up in the map it stands for. |
| HashSpec.OperationsAreMapOperations | DLDriver/DldCommonHashTable.cpp:521-720 | Removing, replacing and appending on the dictionary are removal and update of the map. |
| HashSpec.KeptIffNoNull | DLDriver/DldCommonHashTable.cpp:876-888 | A rehash walk, which ends at the first NULL data pointer, keeps the map if and only if no data pointer is NULL. |
| HashSpec.RunsLikeAMap | DLDriver/DldCommonHashTable.cpp:521-720 | Every sequence of insert, get, replace, remove, rehash and settings gives the answers of a map and ends with its contents. |
| HashTables.HashTable.constructor | DLDriver/DldCommonHashTable.cpp:381-454 | A new table is empty; its size is the nearest power of two not below the request. |
| HashTables.HashTable.FoundOrAbsent | DLDriver/DldCommonHashTable.cpp:157-208 | A key is found in the chain of its bucket or is nowhere in the table. |
| HashTables.HashTable.SearchInBucket | DLDriver/DldCommonHashTable.cpp:157-208 | The search along the chain finds the first entry with the key or shows that the chain has none. |
| HashTables.HashTable.MoveFirst | DLDriver/DldCommonHashTable.cpp:87-114 | Move-to-front keeps the whole table and its contents. |
| HashTables.HashTable.MoveUp | DLDriver/DldCommonHashTable.cpp:45-82 | Transpose keeps the whole table and its contents. |
| HashTables.HashTable.ChainChanged | DLDriver/DldCommonHashTable.cpp:45-149 | A chain that lost and won entries of its own bucket, like the whole table, leaves a well formed table: both lists over the same entries, each in the bucket of its hash, counts exact. |
| HashTables.HashTable.Get | DLDriver/DldCommonHashTable.cpp:615-640 | Answers the data of the key or NULL and keeps the contents and the bucket limit; the chain of the key is reordered exactly as the heuristic says: not at all, one place up, or to the front. |
| HashTables.HashTable.Replace | DLDriver/DldCommonHashTable.cpp:645-674 | Answers the old data and replaces it in place, reordering the chain of the key exactly as the heuristic says; an absent key changes nothing; a kept bucket limit stays kept. |
| HashTables.HashTable.Remove | DLDriver/DldCommonHashTable.cpp:680-720 | Answers the data, takes the pair out of both lists and frees exactly that entry; the other entries of the chain keep their order; a kept bucket limit stays kept. |
| HashTables.HashTable.SetBoundedBuckets | DLDriver/DldCommonHashTable.cpp:491-500 | Sets the limit; a table that is still empty is within it. |
| HashTables.HashTable.EvictLast | DLDriver/DldCommonHashTable.cpp:568-586 | Eviction drops exactly the last entry of the chain and hands its pair to the callback. |
| HashTables.HashTable.Place | DLDriver/DldCommonHashTable.cpp:557-609 | Places a new entry first in its chain and last by age; a full bucket loses its last entry, any other bucket loses none; no limit is exceeded. |
| HashTables.HashTable.Insert | DLDriver/DldCommonHashTable.cpp:521-610 | Refuses a present key, reports a failed allocation, and otherwise adds the pair last and its entry in front of its chain; evicts exactly when as many keys hash to its bucket as the limit allows, then the last pair of that chain; doubles the table first exactly when automatic rehash is on and there are more than twice as many pairs as buckets, so the table stays sparse; freed are exactly the evicted entry and, when the table doubled, each old entry once; a kept limit stays kept. |
| HashTables.HashTable.ChainCounts | DLDriver/DldCommonHashTable.cpp:157-208 | Every chain is exactly as long as there are keys in the table that hash to its bucket. |
| HashTables.HashTable.WithinLimitIff | DLDriver/DldCommonHashTable.cpp:568-586 | The limit is kept if and only if no bucket has more keys of the contents hashing to it: so a rehash keeps it exactly when the kept keys fit the new buckets. |
| HashTables.HashTable.FullIff | DLDriver/DldCommonHashTable.cpp:568-586 | A bucket counts as full exactly when as many keys of the contents hash to it as the limit allows. |
| HashTables.RehashSplits | DLDriver/DldCommonHashTable.cpp:849-916 | After a rehash to a multiple of the number of buckets, a bucket has no more keys than the old bucket they came from. |
| HashTables.ModOfMultiple | DLDriver/DldCommonHashTable.cpp:400-407 | Masking by a larger power of two and then by the old size is masking by the old size. |
| HashTables.PowersDivide | DLDriver/DldCommonHashTable.cpp:400-407 | Of two table sizes the smaller divides the larger. |
| HashTables.HashTable.GrowFor | DLDriver/DldCommonHashTable.cpp:548-555 | Doubling a crowded table keeps the pairs before a NULL data pointer, frees each old entry once and computes the bucket of the key anew. |
| HashTables.HashTable.First | DLDriver/DldCommonHashTable.cpp:724-747 | An iteration starts at the oldest entry and remembers its neighbour. |
| HashTables.HashTable.Next | DLDriver/DldCommonHashTable.cpp:766-792 | An iteration goes on with the neighbour it remembered. |
| HashTables.HashTable.FreeAll | DLDriver/DldCommonHashTable.cpp:213-228 | Freeing walks the buckets and frees every entry exactly once. |
| HashTables.HashTable.FlatCovers | DLDriver/DldCommonHashTable.cpp:890-899 | The chains of all buckets in a row hold every entry exactly once. |
| HashTables.HashTable.CopyInto | DLDriver/DldCommonHashTable.cpp:874-888 | The walk inserts into the new table every pair up to the first NULL data pointer, oldest first. |
| HashTables.HashTable.Rehash | DLDriver/DldCommonHashTable.cpp:849-916 | Rebuilds the table with the requested size: order and pairs are kept up to a NULL data pointer, every old entry is freed once, all new ones are bucketed by the new size; the limit holds afterwards if and only if no new bucket has more of the kept keys hashing to it. |
| HashRuns.StaysNonNull | DLDriver/DldCommonHashTable.cpp:521-720 | Operations that store no NULL keep the table free of NULL data. |
| HashRuns.Step | DLDriver/DldCommonHashTable.cpp:521-720 | Each operation of the real table performs the specified operation. |
| HashRuns.Run | DLDriver/DldCommonHashTable.cpp:521-720 | Any list of operations on the real table, under any heuristics and rehash settings, gives the answers and the contents of a map. |
| HashLimits.Step | DLDriver/DldCommonHashTable.cpp:521-720 | Each operation of the real table, with any limit and NULL data pointers too, performs the specified one; the table grows and a pair is evicted exactly when the contents before say so; a limit stays kept and a table sparse unless a rehash makes the table smaller. |
| HashLimits.RunBounded | DLDriver/DldCommonHashTable.cpp:521-720 | Any run of operations with any limit, heuristics and automatic doubling has the specified contents and answers; at every moment a pair is evicted exactly when a new key comes to a bucket with as many keys as the limit allows; a limit kept at the start is kept, and with automatic rehash from the start there are never more than twice as many pairs as buckets and one, unless a rehash makes the table smaller. |
| HashLimits.AddedIsMap | DLDriver/DldCommonHashTable.cpp:521-610 | On the map an insertion with an eviction removes the evicted key and adds the new one. |
| HashLimits.ShrinkingBreaksLimit | DLDriver/DldCommonHashTable.cpp:849-916 | A table with limit 1 and one pair in each of two buckets exceeds the limit after a rehash to one bucket. |
| HashRuns.RemoveVisited | DLDriver/DldCommonHashTable.h:433-441 | Removing visited entries leaves the entries still to be visited at the end of the age list, in order. |
| HashRuns.Walk | DLDriver/DldCommonHashTable.h:433-441 | An iteration that removes the current or visited entries visits every original entry once in order of insertion, up to a NULL data pointer, terminates, and leaves what the removals leave. |
| OverlayModel.ChunkLength | DLDriver/DldCoveringVnode.cpp:1244-1281 | A chunk is not empty, not more than the rest, bounded, and never leaves a small tail behind. |
| OverlayModel.DescriptorShape | DLDriver/DldCoveringVnode.cpp:1362-1428 | Each block descriptor is not empty, lies in one block, is full unless it is first or last, follows the one before without gap, and its buffer position matches its file position. |
| OverlayModel.DescriptorsCoverOnce | DLDriver/DldCoveringVnode.cpp:1362-1428 | Every byte of a request is in exactly one descriptor and no descriptor holds another byte. |
| OverlayModel.WriteBlockPatches | DLDriver/DldCoveringVnode.cpp:1433-1436 | A write is refused exactly when it is partial and the block is absent; otherwise the visible bytes are the old ones patched with the data. |
| OverlayModel.ReadModifyWritePatches | DLDriver/DldCoveringVnode.cpp:1560-1625 | The read-modify-write of a refused partial write patches the visible bytes; it is dropped exactly when the block lies past the end of the covered file. |
| CoveringFiles.Describe | DLDriver/DldCoveringVnode.cpp:1362-1428 | The descriptor loop with its rounding computes the partition of the chunk. |
| CoveringFiles.CoveringFile.WriteOne | DLDriver/DldSparseFile.cpp:4360-4560 | One descriptor of a write patches the visible bytes or is refused as absent. |
| CoveringFiles.CoveringFile.ReadOne | DLDriver/DldSparseFile.cpp:4360-4560 | One descriptor of a read gives the bytes of a present block and leaves the buffer alone for an absent one. |
| CoveringFiles.CoveringFile.WriteAll | DLDriver/DldSparseFile.cpp:4352-4640 | All descriptors of a write: those served patch the visible bytes, and a full block is always served. |
| CoveringFiles.CoveringFile.ReadAll | DLDriver/DldSparseFile.cpp:4352-4640 | All descriptors of a read: those served fill their part of the buffer. |
| CoveringFiles.CoveringFile.RecoverWrite | DLDriver/DldCoveringVnode.cpp:1512-1625 | Repeats a refused write on the whole block and tells how many bytes were written. |
| CoveringFiles.CoveringFile.RecoverRead | DLDriver/DldCoveringVnode.cpp:1540-1650 | Serves an absent block from the covered file: the bytes up to its end, zeros behind it; a block past the end leaves the buffer alone. |
| CoveringFiles.CoveringFile.SettleWrites | DLDriver/DldCoveringVnode.cpp:1441-1656 | After recovery a write chunk is written completely and accounted byte for byte. |
| CoveringFiles.CoveringFile.SettleReads | DLDriver/DldCoveringVnode.cpp:1441-1656 | After recovery a read chunk shows the visible bytes; between the bytes inside the file and all bytes are accounted. |
| CoveringFiles.CoveringFile.TransferChunk | DLDriver/DldCoveringVnode.cpp:1376-1656 | One chunk moves its bytes between buffer and visible file. |
| CoveringFiles.CoveringFile.TransferBuffer | DLDriver/DldCoveringVnode.cpp:1240-1714 | The chunk loop covers the buffer once and terminates. |
| CoveringFiles.CoveringFile.TransferAll | DLDriver/DldCoveringVnode.cpp:1185-1790 | All buffers of a request are moved one after the other. |
| CoveringFiles.CoveringFile.ProcessWrite | DLDriver/DldCoveringVnode.cpp:2007-2204 | After a write of any data at any offset the visible bytes are the old ones patched with the data and the file size is the larger of both; errors change nothing. The offset reported is the request's plus the bytes written, also for an append, and for an append that ends early the file size. |
| CoveringFiles.CoveringFile.ProcessRead | DLDriver/DldCoveringVnode.cpp:2281-2457 | A read returns exactly min(requested, size - offset) of the visible bytes and adjusts residual and offset to that. |
| CoveringFiles.CoveringFile.FlushBlock | DLDriver/DldSparseFile.cpp:5236-5310 | Moving a block from the sparse file to the covered file changes nothing visible. |
| CoveringFiles.FlushKeepsView | DLDriver/DldSparseFile.cpp:5236-5310 | So for every block and every file size. |
| CoverProtocol.ThreadStepKeeps | DLDriver/DldCoveringVnode.cpp:337-614 | Every step of a replacing thread keeps the invariant: reference counts exact, one creator, links consistent. |
| CoverProtocol.SystemStepKeeps | DLDriver/DldCoveringVnode.cpp:943-1094 | So does every step of a reclaim. |
| CoverProtocol.RunKeeps | DLDriver/DldCoveringVnode.cpp:337-614 | So does every interleaving of any number of threads and reclaims. |
| CoverProtocol.OneCreatorOneCovering | DLDriver/DldCoveringVnode.cpp:363-386 | At most one thread creates a covering vnode, at most one covering vnode is installed, and the covered vnode links to that one. |
| CoverProtocol.FailsIff | DLDriver/DldCoveringVnode.cpp:412-595 | In every run a caller has failed, or is about to return a failure, if and only if its own creation of a covering vnode failed and it has not gone since: a caller refused by a terminating covering vnode never fails. |
| CoverProtocol.CoversAlone | DLDriver/DldCoveringVnode.cpp:337-505 | A caller that finds the vnode uncovered, with nobody between its steps, creates a covering vnode, links it, takes the user reference and leaves with the I/O reference moved. |
| CoverProtocol.JoinsAlone | DLDriver/DldCoveringVnode.cpp:539-614 | A caller that finds a living covering vnode leaves with an I/O reference on it and without the one on the covered vnode. |
| CoverProtocol.ReclaimsAlone | DLDriver/DldCoveringVnode.cpp:943-1094 | A reclaim of a covering vnode that nobody uses clears the link of the covered vnode and gives its user reference back. |
| CoverProgress.Advances | DLDriver/DldCoveringVnode.cpp:337-614 | A caller that is not waiting or starting over comes nearer to its end or to the start of the loop with each of its steps. |
| CoverProgress.AllCanFinish | DLDriver/DldCoveringVnode.cpp:337-614 | No deadlock: every run of callers and reclaims, whatever failed and whatever is half reclaimed, can go on until all callers have come to their end. |
| CoverProtocol.ReclaimClearsItsOwn | DLDriver/DldCoveringVnode.cpp:978-1012 | However late a reclaim clears the link of the covered vnode, the link is still its own, never that of a newer covering vnode; and a reclaim always finds its covered vnode. |
| CoverProtocol.ReferencesWhenQuiet | DLDriver/DldCoveringVnode.cpp:462-500 | When all callers have returned, each success has moved exactly one I/O reference from the covered to the covering vnode, and the user references are the covering vnodes not yet released. |
| CoverProtocol.CoveredStaysReferenced | DLDriver/DldCoveringVnode.cpp:462-500 | The covered vnode is never without a reference while an unreleased covering vnode exists. |
| CoverProtocol.ConfirmedReferencedIff | DLDriver/DldCoveringVnode.cpp:556-582 | In every run, when a caller is about to give up its I/O reference, the covered vnode has a user reference if and only if the new covering vnode's creator has taken it or an older covering vnode is still to be released; always when no creation is under way. |
| CoverProtocol.GivesUpBeforeReference | DLDriver/DldCoveringVnode.cpp:556-582 | A reachable state in which a caller is about to give up its I/O reference although no user reference has been taken yet: the claim asserted there does not always hold. |
| ClientRegistration.NextKeeps | DLDriver/DldDiskCAWL.cpp:76-141 | Every shared access of a notifier, a registration or an unregistration keeps the invariant. |
| ClientRegistration.RunKeeps | DLDriver/DldDiskCAWL.cpp:76-141 | So does every interleaving of any number of threads. |
| ClientRegistration.NeverReleasedInUse | DLDriver/DldDiskCAWL.cpp:174-205 | While a notifier is between its checks and its decrement, the reference of the registration it found has not been released; the counter counts exactly such threads; no reference is taken or released twice. |
| ClientRegistration.WaitsForAll | DLDriver/DldDiskCAWL.cpp:126-137 | An unregistration gets past its wait only when no thread is counted, and nobody works with its registration from then to the release. |
| ClientRegistration.ReleasedIff | DLDriver/DldDiskCAWL.cpp:96-141 | In every run a registration made has been released if and only if it is not the current one and no unregistration is on its way to release it: none leaks, none is released early. |
| ClientRegistration.ReferencesWhenIdle | DLDriver/DldDiskCAWL.cpp:76-141 | When all calls have returned, every registration made has taken its reference, and all but the current one have given it back. |
| ClientRegistration.RegistersAlone | DLDriver/DldDiskCAWL.cpp:76-94 | A registration with nobody registered and nothing pending installs the client and takes its reference. |
| ClientRegistration.UnregistersAlone | DLDriver/DldDiskCAWL.cpp:98-141 | An unregistration of the current client, with no notifier counted, takes the client away, releases it and clears the flag. |
| ClientRegistration.NotifiesAlone | DLDriver/DldDiskCAWL.cpp:174-205 | A notification gets to use the client registered and leaves no trace. |
| ClientRegistration.TurnedAway | DLDriver/DldDiskCAWL.cpp:76-110 | A registration while an unregistration is pending or a client is there, an unregistration of another client, and a notification with nobody registered or an unregistration pending return without a trace. |
| ClientRegistration.ComesTooLate | DLDriver/DldDiskCAWL.cpp:115-124 | An unregistration that finds its client gone clears the flag and changes nothing else. |
| ClientRegistration.NeverTurnedBack | DLDriver/DldDiskCAWL.cpp:183-205 | While one registration stays the current one, no counted notifier is turned back, whatever other threads do between its steps; if it works with a registration, then with that one. |
| ClientRegistration.Advances | DLDriver/DldDiskCAWL.cpp:76-205 | Each step of a call that has begun brings it nearer to its end, unless it is an unregistration that waits for notifiers; then nothing changes. |
| ClientRegistration.AllCanReturn | DLDriver/DldDiskCAWL.cpp:76-205 | No deadlock: every run can go on until all calls have returned. |
| ClientRegistration.LacksReferenceIff | DLDriver/DldDiskCAWL.cpp:76-94 | In every run a notifier works with a registration that has no reference of its own if and only if some thread has made it visible and not yet taken the reference. |
| ClientRegistration.RetainComesLate | DLDriver/DldDiskCAWL.cpp:86-94 | A reachable state in which a notifier works with a registration whose reference has not been taken yet. |
| ClientRegistration.PendingWhenOneAtATime | DLDriver/DldDiskCAWL.cpp:111-138 | In every run in which unregistrations do not overlap, the pending flag is set exactly while one is under way. |
| ClientRegistration.PendingClearIff | DLDriver/DldDiskCAWL.cpp:111-138 | In every run, while a thread waits for the notifiers the flag is clear if and only if another thread has cleared it and nobody has set it since. |
| ClientRegistration.SecondUnregistrationClearsPending | DLDriver/DldDiskCAWL.cpp:113-124 | A reachable state in which the pending flag is clear although an unregistration still waits for a notifier. |
| WaitLists.WaitList.Number | DLDriver/DldDiskCAWL.cpp:216-217 | Each notification gets an identifier no other has. |
| WaitLists.WaitList.Insert | DLDriver/DldDiskCAWL.cpp:461-467 | Inserting a frame appends it to the frames waiting. |
| WaitLists.WaitList.Remove | DLDriver/DldDiskCAWL.cpp:552-558 | Removing a frame takes exactly it out. |
| WaitLists.WaitList.ProcessResponse | DLDriver/DldDiskCAWL.cpp:657-692 | A response changes at most the one waiting frame with its identifier and never a frame that has left; it is found exactly when such a frame waits. |
| IntrusiveList.InitializeListHead | DLDriver/DldCommon.h:185-192 | A fresh head is the empty list. |
| IntrusiveList.IsListEmpty | DLDriver/DldCommon.h:194-201 | Answers whether the list is empty. |
| IntrusiveList.RemoveEntryList | DLDriver/DldCommon.h:203-217 | Takes an entry out of any position; the answer says whether the list is empty now. |
| IntrusiveList.RemoveHeadList | DLDriver/DldCommon.h:219-233 | Takes the first entry out, or answers the head of an empty list. |
| IntrusiveList.RemoveTailList | DLDriver/DldCommon.h:235-249 | Takes the last entry out, or answers the head of an empty list. |
| IntrusiveList.InsertTailList | DLDriver/DldCommon.h:251-265 | Appends an entry. |
| IntrusiveList.InsertHeadList | DLDriver/DldCommon.h:268-282 | Puts an entry in front. |
| IntrusiveList.AppendTailList | DLDriver/DldCommon.h:284-297 | Appends a ring that has no head. |

## Left out

- Counters, offsets of files and notification identifiers are unbounded integers; the wrap-around of 32-bit and 64-bit counters is not modelled, except for the sum in the wrap test of the queue.
- HashTables.HashTable.Rehash: a failed allocation of the new table or of an entry during the rehash is not modelled; the source asserts the first and only logs the second.
- HashTables.HashTable.constructor: requests above 2^30 buckets are not modelled, where the shift of a signed integer in the source overflows.
- HashTables.HashTable.Place: the eviction callback only receives the pair; a callback that inserts again is not modelled.
- ObjectHooks.CallPath: the hooking functions are taken to call their original exactly once; what else they do is not modelled.
- ObjectHookers.ObjectHooker.HookObject: the size of the vtable is known; the search for its end in memory and the zero padding around the copy are not modelled.
- CoveringFiles.CoveringFile.TransferChunk: I/O errors and failed allocations are not modelled.
- CoveringFiles.CoveringFile.TransferBuffer: failed mappings are not modelled.
- CoveringFiles.CoveringFile.TransferAll: I/O errors, failed mappings and allocations, the retry that bypasses the sparse file, and the debug flush are not modelled; the chunk size is that of the release build.
- CoveringFiles.CoveringFile.WriteOne: the sparse file is a map from block number to bytes; its B-tree, time stamps and data file are not modelled.
- Truncation of a covered file with its purge, and creation of the sparse file.
- RingRuns.RunsAreFifo: queues up to 2 GiB; beyond, the property is false (see above).
- DataQueues.DataQueue.EnqueueScatterGather: a call that no other producer overlaps; overlapping calls are runs of the methods for its critical sections, and the runs of RingRuns.
- DataQueues.DataQueue.RemoveEntry: queues up to 2 GiB; the flag and the counter of sleeping consumers are not modelled.
- HashRuns.Run: tables without a bucket limit and without NULL data pointers; HashLimits.RunBounded has neither restriction.
- Sleeping and waking of threads (a wait is a step that may be taken when its condition holds), fair scheduling, and progress of the queue; for covering and registration it is proved that every run can be finished, not that it will be.
- CoverProtocol.RunKeeps: vnode life cycle beyond I/O and user references; a failed creation of the bookkeeping object, where the source says that the system will crash.
- ClientRegistration.RunKeeps: progress of an unregistration while new notifications keep arriving.
- WaitLists.WaitList.ProcessResponse: finding the vnode of a response, time-outs, and the wake-up itself.
- Teardown of the hook manager's table, access checks, property forwarding, driver start-up, and debug-only assertions.
- The hash functions (any pure function is allowed, masking is the remainder by a power of two) and the CRC table.
- The fake file system, the DVD white list, and the hook macros.
