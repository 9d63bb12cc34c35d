/**
 The wait list of a vnode: every waiting notification is a structure in its waiter's frame, linked into the list from
 its insertion to its removal. A response of the service looks for its identifier among the linked structures only.
 */
module WaitLists {
  import opened IntrusiveList
  import opened Sequences

  class WaitList {
    const head: ListEntry
    /** The next notification identifier. */
    var idGenerator: nat
    /** The notifications between their insertion and their removal, in order of insertion. */
    ghost var live: seq<ListEntry>
    /** Every notification that was ever numbered; those not in `live` wait for their insertion or have left. */
    ghost var issued: set<ListEntry>
    /** Their frames. */
    ghost var frames: set<Record>

    ghost predicate EntryOk(e: ListEntry)
      reads this`idGenerator, this`frames
    {
      e.record != null && e.record.id < idGenerator && e.record in frames
    }

    /** Two notifications have different frames and different identifiers. */
    ghost predicate Apart(e: ListEntry, f: ListEntry) {
      e != f && e.record != null && f.record != null ==> e.record != f.record && e.record.id != f.record.id
    }

    ghost predicate Valid()
      reads this, issued, head
    {
      && head !in issued && Nodes(live) <= issued && Listed(head, live)
      && (forall e: ListEntry {:trigger EntryOk(e)} :: e in issued ==> EntryOk(e))
      && (forall e: ListEntry, f: ListEntry {:trigger Apart(e, f)} :: e in issued && f in issued ==> Apart(e, f))
    }

    constructor ()
      ensures Valid() && live == [] && issued == {}
    {
      head := new ListEntry(null);
      idGenerator, live, issued, frames := 0, [], {}, {};
    }

    /** A frame gets its number. */
    method Number() returns (e: ListEntry)
      requires Valid()
      modifies this`idGenerator, this`issued, this`frames
      ensures Valid() && fresh(e) && fresh(e.record) && e.record != null && issued == old(issued) + {e} &&
        live == old(live)
      ensures e.record.id == old(idGenerator) && !e.record.responseReceived
    {
      var r := new Record(idGenerator);
      e := new ListEntry(r);
      idGenerator := idGenerator + 1;
      issued, frames := issued + {e}, frames + {r};
      RingKept([head] + live);
      forall x: ListEntry, y: ListEntry {:trigger Apart(x, y)} | x in issued && y in issued ensures Apart(x, y) {
        assert x != e ==> old(EntryOk(x));
        assert y != e ==> old(EntryOk(y));
        assert x != e && y != e ==> Apart(x, y);
      }
      forall x: ListEntry {:trigger EntryOk(x)} | x in issued ensures EntryOk(x) {
        assert x != e ==> old(EntryOk(x));
      }
    }

    method Insert(e: ListEntry)
      requires Valid() && e in issued && e !in live
      modifies this`live, head, issued
      ensures Valid() && live == old(live) + [e] && issued == old(issued)
    {
      assert e !in [head] + live;
      InsertTailList(head, e, live);
      label L:
      live := live + [e];
      RingKept@L([head] + live);
    }

    method Remove(e: ListEntry, ghost k: nat)
      requires Valid() && k < |live| && live[k] == e
      modifies this`live, head, issued
      ensures Valid() && live == Without(old(live), k) && issued == old(issued)
    {
      var last := RemoveEntryList(e, head, live, k);
      NodesWithout(live, k);
      label L:
      live := Without(live, k);
      RingKept@L([head] + live);
    }

    /**
     Walks the list for an identifier and answers the notification that has it. Only that notification changes, and only
     while it is linked: none that has left is touched.
     */
    method ProcessResponse(id: nat, disable: bool, log: bool) returns (found: bool)
      requires Valid()
      modifies frames
      ensures Valid() && live == old(live)
      ensures found <==> exists e: ListEntry :: e in live && e.record != null && e.record.id == id
      ensures forall e: ListEntry {:trigger e.record} :: e in issued && e.record != null ==>
        if e in live && e.record.id == id
        then e.record.responseReceived && e.record.disableAccess == disable && e.record.logOperation == log
        else
          && e.record.responseReceived == old(e.record.responseReceived)
          && e.record.disableAccess == old(e.record.disableAccess)
          && e.record.logOperation == old(e.record.logOperation)
    {
      ghost var c := [head] + live;
      assert LinkAt(c, 0);
      var e := head.flink;
      ghost var k := 0;
      ghost var hit: ListEntry? := null;
      found := false;
      assert forall x: ListEntry {:trigger EntryOk(x)} :: x in live ==> x in Nodes(live);
      while e != head
        invariant Valid() && k <= |live| && e == After(c, k) && !found
        invariant forall i: nat {:trigger live[i]} :: i < k ==> live[i].record != null && live[i].record.id != id
        invariant forall r: Record {:trigger r.responseReceived} {:trigger r.disableAccess} {:trigger r.logOperation} ::
          r in frames ==>
            r.responseReceived == old(r.responseReceived) && r.disableAccess == old(r.disableAccess) &&
            r.logOperation == old(r.logOperation)
        decreases |live| - k
      {
        assert c[k + 1] == e && LinkAt(c, k + 1) && e in Nodes(live) && EntryOk(e);
        var r := e.record;
        if r.id == id {
          r.responseReceived := true;
          r.disableAccess := disable;
          r.logOperation := log;
          found, hit := true, e;
          break;
        }
        e, k := e.flink, k + 1;
      }
      if found {
        assert hit in live && hit.record.id == id;
        forall x: ListEntry {:trigger x.record} | x in issued && x.record != null && x.record.id == id
          ensures x == hit {
          assert Apart(x, hit);
        }
        forall x: ListEntry {:trigger x.record} | x in issued && x.record != null && x != hit
          ensures x.record != hit.record {
          assert Apart(x, hit);
        }
      } else {
        forall x: ListEntry {:trigger x.record} | x in live && x.record != null ensures x.record.id != id {
          var i: nat :| i < |live| && live[i] == x;
        }
      }
    }
  }

  lemma NodesWithout(s: seq<ListEntry>, k: nat)
    requires k < |s|
    ensures Nodes(Without(s, k)) <= Nodes(s)
  {
    var t := Without(s, k);
    forall e: ListEntry | e in Nodes(t) ensures e in Nodes(s) {
      var i: nat :| i < |t| && t[i] == e;
      assert s[if i < k then i else i + 1] == e;
    }
  }
}
