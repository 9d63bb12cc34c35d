/**
 Reads and writes of a covering file: a request is cut into chunks, a chunk into block descriptors; the sparse file
 serves what it holds, and what it refuses is recovered from the covered file.
 */
module CoveringFiles {
  import opened ByteStore
  import opened OverlayModel

  // ---------- which bytes of a chunk have been handled ----------

  /** Byte `x` belongs to the chunk and to a descriptor that is marked. */
  predicate Handled(off: nat, len: nat, mask: seq<bool>, x: nat) {
    off <= x < off + len && x / BLOCK - off / BLOCK < |mask| && mask[x / BLOCK - off / BLOCK]
  }

  ghost predicate PatchedWhere(covered: seq<byte>, before: Blocks, after: Blocks, off: nat, bytes: seq<byte>,
          mask: seq<bool>)
    requires WellSized(before) && WellSized(after)
  {
    forall x: nat {:trigger VisibleAt(covered, after, x)} :: x < |covered| ==>
      VisibleAt(covered, after, x) == if Handled(off, |bytes|, mask, x) then bytes[x - off]
        else VisibleAt(covered, before, x)
  }

  lemma PatchedMore(covered: seq<byte>, before: Blocks, mid: Blocks, after: Blocks, ds: seq<Dscr>, off: nat, base: nat,
          bytes: seq<byte>, mask: seq<bool>, i: nat)
    requires WellSized(before) && WellSized(mid) && WellSized(after)
    requires Describes(ds, off, |bytes|, base) && i < |ds| == |mask|
    requires PatchedWhere(covered, before, mid, off, bytes, mask)
    requires off <= ds[i].offset && ds[i].offset + ds[i].size <= off + |bytes|
    requires Patched(covered, mid, after, ds[i].offset, bytes[ds[i].offset - off..ds[i].offset - off + ds[i].size])
    ensures PatchedWhere(covered, before, after, off, bytes, mask[i := true])
  {
    forall x: nat {:trigger VisibleAt(covered, after, x)} | x < |covered|
      ensures VisibleAt(covered, after, x) == if Handled(off, |bytes|, mask[i := true], x) then bytes[x - off]
        else VisibleAt(covered, before, x)
    {
      DescriptorsCoverOnce(ds, off, |bytes|, base, x, i);
    }
  }

  ghost predicate ReadAt(covered: seq<byte>, blocks: Blocks, x: nat, b: byte)
    requires WellSized(blocks)
  {
    x < |covered| ==> b == VisibleAt(covered, blocks, x)
  }

  ghost predicate ReadWhere(covered: seq<byte>, blocks: Blocks, was: seq<byte>, now: seq<byte>, off: nat, len: nat,
          base: nat, mask: seq<bool>)
    requires WellSized(blocks)
  {
    |was| == |now| && forall p: nat {:trigger now[p]} :: p < |now| ==>
      if base <= p < base + len && Handled(off, len, mask, off + p - base)
        then ReadAt(covered, blocks, off + p - base, now[p]) else now[p] == was[p]
  }

  /** `now` holds the visible bytes from `off` on at `base`, and is `was` elsewhere. */
  ghost predicate ReadRange(covered: seq<byte>, blocks: Blocks, was: seq<byte>, now: seq<byte>, off: nat, len: nat,
          base: nat)
    requires WellSized(blocks)
  {
    |was| == |now| && forall p: nat {:trigger now[p]} :: p < |now| ==>
      if base <= p < base + len then ReadAt(covered, blocks, off + p - base, now[p]) else now[p] == was[p]
  }

  lemma ReadMore(covered: seq<byte>, blocks: Blocks, was: seq<byte>, mid: seq<byte>, now: seq<byte>, ds: seq<Dscr>,
          off: nat, len: nat, base: nat, mask: seq<bool>, i: nat)
    requires WellSized(blocks) && Describes(ds, off, len, base) && i < |ds| == |mask|
    requires ReadWhere(covered, blocks, was, mid, off, len, base, mask)
    requires off <= ds[i].offset && ds[i].buffer == base + (ds[i].offset - off)
    requires ReadRange(covered, blocks, mid, now, ds[i].offset, ds[i].size, ds[i].buffer)
    ensures ReadWhere(covered, blocks, was, now, off, len, base, mask[i := true])
  {
    forall p: nat {:trigger now[p]} | p < |now|
      ensures if base <= p < base + len && Handled(off, len, mask[i := true], off + p - base)
        then ReadAt(covered, blocks, off + p - base, now[p]) else now[p] == was[p]
    {
      DescriptorInside(ds, off, len, base, i);
      if base <= p < base + len {
        DescriptorsCoverOnce(ds, off, len, base, off + p - base, i);
      }
      assert mid[p] == mid[p];
    }
  }

  predicate All(mask: seq<bool>) {
    forall i: nat {:trigger mask[i]} :: i < |mask| ==> mask[i]
  }

  lemma AllHandled(ds: seq<Dscr>, off: nat, len: nat, base: nat, mask: seq<bool>, x: nat)
    requires Describes(ds, off, len, base) && |mask| == |ds| && All(mask)
    ensures Handled(off, len, mask, x) <==> off <= x < off + len
  {
    if off <= x < off + len {
      OwnerInRange(ds, off, len, base, x);
    }
  }

  /** When every descriptor is dealt with, the whole chunk is patched. */
  lemma AllSettled(covered: seq<byte>, before: Blocks, after: Blocks, ds: seq<Dscr>, off: nat, len: nat, base: nat,
          bytes: seq<byte>, mask: seq<bool>)
    requires WellSized(before) && WellSized(after) && Describes(ds, off, len, base) && |bytes| == len
    requires |mask| == |ds| && All(mask) && PatchedWhere(covered, before, after, off, bytes, mask)
    ensures Patched(covered, before, after, off, bytes)
  {
    forall x: nat {:trigger VisibleAt(covered, after, x)} | x < |covered|
      ensures VisibleAt(covered, after, x) == if off <= x < off + len then bytes[x - off]
        else VisibleAt(covered, before, x)
    {
      AllHandled(ds, off, len, base, mask, x);
    }
  }

  /** The state of block number `off / BLOCK + i` that goes with mark `i`. */
  ghost predicate PresenceAt(blocks: Blocks, off: nat, mask: seq<bool>, i: nat)
    requires i < |mask|
  {
    off / BLOCK + i in blocks <==> mask[i]
  }

  class CoveringFile {
    /** The covered file. */
    var covered: seq<byte>
    /** The sparse file. */
    var blocks: Blocks
    var fileDataSize: nat

    ghost predicate Valid()
      reads this
    {
      WellSized(blocks) && fileDataSize == |covered|
    }

    /** The file as its users see it. */
    ghost function Contents(): (s: seq<byte>)
      requires Valid()
      reads this
      ensures |s| == fileDataSize
    {
      View(covered, blocks)
    }

    constructor (covered: seq<byte>)
      ensures Valid() && Contents() == covered
    {
      this.covered, blocks, fileDataSize := covered, map[], |covered|;
    }

    // ---------- the sparse file ----------

    /** One descriptor of a write; a part of an absent block is refused. */
    method WriteOne(d: Dscr, buf: array<byte>) returns (present: bool)
      requires Valid() && d.size > 0 && d.offset % BLOCK + d.size <= BLOCK && d.buffer + d.size <= buf.Length
      modifies this`blocks
      ensures Valid() && present == (d.offset / BLOCK in old(blocks) || d.size == BLOCK)
      ensures !present ==> blocks == old(blocks)
      ensures present ==> blocks.Keys == old(blocks.Keys) + {d.offset / BLOCK}
      ensures present ==> Patched(covered, old(blocks), blocks, d.offset, buf[d.buffer..d.buffer + d.size])
    {
      WriteBlockPatches(covered, blocks, d.offset, buf[d.buffer..d.buffer + d.size]);
      var r := WriteBlock(blocks, d.offset, buf[d.buffer..d.buffer + d.size]);
      present := r.Some?;
      if present {
        blocks := r.value;
      }
    }

    /** All descriptors of a write chunk; the marks tell which were served. */
    method WriteAll(ds: seq<Dscr>, buf: array<byte>, ghost off: nat, ghost len: nat, ghost base: nat)
            returns (present: seq<bool>)
      requires Valid() && Describes(ds, off, len, base) && base + len <= buf.Length
      modifies this`blocks
      ensures Valid() && |present| == |ds|
      ensures PatchedWhere(covered, old(blocks), blocks, off, buf[base..base + len], present)
      ensures forall i: nat {:trigger PresenceAt(blocks, off, present, i)} :: i < |ds| ==>
        PresenceAt(blocks, off, present, i)
      ensures forall i: nat {:trigger present[i]} :: i < |ds| && ds[i].size == BLOCK ==> present[i]
    {
      present := seq(|ds|, _ => false);
      var i := 0;
      while i < |ds|
        invariant i <= |ds| && Valid() && ServedUpTo(ds, off, present, i)
        invariant PatchedWhere(covered, old(blocks), blocks, off, buf[base..base + len], present)
      {
        present := WriteNext(ds, buf, old(blocks), off, len, base, present, i);
        i := i + 1;
      }
    }

    /** The marks of the descriptors before `i` tell which blocks are present; a whole block is. */
    ghost predicate ServedUpTo(ds: seq<Dscr>, off: nat, present: seq<bool>, i: nat)
      reads this`blocks
    {
      && i <= |ds| == |present|
      && (forall j: nat {:trigger present[j]} :: i <= j < |ds| ==> !present[j])
      && (forall j: nat {:trigger PresenceAt(blocks, off, present, j)} :: j < i ==> PresenceAt(blocks, off, present, j))
      && (forall j: nat {:trigger present[j]} :: j < i && ds[j].size == BLOCK ==> present[j])
    }

    /** The next descriptor of a write chunk. */
    method WriteNext(ds: seq<Dscr>, buf: array<byte>, ghost was: Blocks, ghost off: nat, ghost len: nat,
            ghost base: nat, before: seq<bool>, i: nat) returns (present: seq<bool>)
      requires Valid() && Describes(ds, off, len, base) && base + len <= buf.Length && WellSized(was) && i < |ds|
      requires ServedUpTo(ds, off, before, i)
      requires PatchedWhere(covered, was, blocks, off, buf[base..base + len], before)
      modifies this`blocks
      ensures Valid() && ServedUpTo(ds, off, present, i + 1)
      ensures PatchedWhere(covered, was, blocks, off, buf[base..base + len], present)
    {
      DescriptorInside(ds, off, len, base, i);
      DescriptorBlock(ds, off, len, base, i);
      ghost var mid := blocks;
      var ok := WriteOne(ds[i], buf);
      if ok {
        SubSlice(buf[..], base, len, ds[i].offset - off, ds[i].size);
        PatchedMore(covered, was, mid, blocks, ds, off, base, buf[base..base + len], before, i);
      }
      present := before[i := ok];
      assert !ok ==> present == before;
      assert forall j: nat {:trigger PresenceAt(blocks, off, present, j)} :: j < i ==> PresenceAt(mid, off, before, j);
    }

    /** One descriptor of a read; an absent block leaves the buffer alone. */
    method ReadOne(d: Dscr, buf: array<byte>) returns (present: bool)
      requires Valid() && d.size > 0 && d.offset % BLOCK + d.size <= BLOCK && d.buffer + d.size <= buf.Length
      modifies buf
      ensures present == (d.offset / BLOCK in blocks)
      ensures !present ==> buf[..] == old(buf[..])
      ensures present ==> ReadRange(covered, blocks, old(buf[..]), buf[..], d.offset, d.size, d.buffer)
    {
      present := d.offset / BLOCK in blocks;
      if present {
        CopyOut(blocks[d.offset / BLOCK], d.offset % BLOCK, d.size, buf, d.buffer);
        forall p: nat {:trigger buf[..][p]} | d.buffer <= p < d.buffer + d.size
          ensures ReadAt(covered, blocks, d.offset + p - d.buffer, buf[..][p]) {
          InsideBlock(d.offset, d.size, p - d.buffer);
        }
      }
    }

    /** All descriptors of a read chunk. */
    method ReadAll(ds: seq<Dscr>, buf: array<byte>, ghost off: nat, ghost len: nat, ghost base: nat)
            returns (present: seq<bool>)
      requires Valid() && Describes(ds, off, len, base) && base + len <= buf.Length
      modifies buf
      ensures |present| == |ds| && ReadWhere(covered, blocks, old(buf[..]), buf[..], off, len, base, present)
      ensures forall i: nat {:trigger PresenceAt(blocks, off, present, i)} :: i < |ds| ==>
        PresenceAt(blocks, off, present, i)
    {
      present := seq(|ds|, _ => false);
      var i := 0;
      while i < |ds|
        invariant i <= |ds| == |present| && ReadWhere(covered, blocks, old(buf[..]), buf[..], off, len, base, present)
        invariant forall j: nat {:trigger PresenceAt(blocks, off, present, j)} :: j < i ==>
          PresenceAt(blocks, off, present, j)
        invariant forall j: nat {:trigger present[j]} :: i <= j < |ds| ==> !present[j]
      {
        DescriptorInside(ds, off, len, base, i);
        DescriptorBlock(ds, off, len, base, i);
        ghost var mid := buf[..];
        var ok := ReadOne(ds[i], buf);
        if ok {
          ReadMore(covered, blocks, old(buf[..]), mid, buf[..], ds, off, len, base, present, i);
        }
        ghost var before := present;
        present := present[i := ok];
        assert !ok ==> present == before;
        assert forall j: nat {:trigger PresenceAt(blocks, off, present, j)} :: j < i ==>
          PresenceAt(blocks, off, before, j);
        i := i + 1;
      }
    }

    // ---------- recovery from the covered file ----------

    /** Repeats a refused write on the whole block; answers how many of the caller's bytes were written. */
    method RecoverWrite(d: Dscr, buf: array<byte>) returns (processed: nat)
      requires Valid() && d.size > 0 && d.offset % BLOCK + d.size <= BLOCK && d.buffer + d.size <= buf.Length
      requires d.offset / BLOCK !in blocks
      modifies this`blocks
      ensures Valid() && processed == (if AlignToBlock(d.offset) < |covered| then d.size else 0)
      ensures processed == 0 ==> blocks == old(blocks)
      ensures processed > 0 ==> blocks.Keys == old(blocks.Keys) + {d.offset / BLOCK}
      ensures processed > 0 ==> Patched(covered, old(blocks), blocks, d.offset, buf[d.buffer..d.buffer + d.size])
    {
      ReadModifyWritePatches(covered, blocks, d.offset, buf[d.buffer..d.buffer + d.size]);
      var r := ReadModifyWrite(covered, blocks, d.offset, buf[d.buffer..d.buffer + d.size]);
      processed := 0;
      if r.Some? {
        blocks := r.value;
        processed := d.size;
      }
    }

    /** Reads a refused descriptor from the covered file; behind its end a partly filled buffer is zeroed, an unfilled
        one is left alone. */
    method RecoverRead(d: Dscr, buf: array<byte>) returns (processed: nat)
      requires Valid() && d.size > 0 && d.offset % BLOCK + d.size <= BLOCK && d.buffer + d.size <= buf.Length
      requires d.offset / BLOCK !in blocks
      modifies buf
      ensures processed == CoveredCount(covered, d.offset, d.size)
      ensures ReadRange(covered, blocks, old(buf[..]), buf[..], d.offset, d.size, d.buffer)
      ensures processed == 0 ==> buf[..] == old(buf[..])
      ensures processed > 0 ==> forall p: nat {:trigger buf[..][p]} ::
        d.buffer + processed <= p < d.buffer + d.size ==> buf[..][p] == 0
    {
      processed := CoveredCount(covered, d.offset, d.size);
      if processed > 0 {
        CopyOut(covered[d.offset..d.offset + processed] + seq(d.size - processed, _ => 0), 0, d.size, buf, d.buffer);
      }
      forall p: nat {:trigger buf[..][p]} | d.buffer <= p < d.buffer + d.size
        ensures ReadAt(covered, blocks, d.offset + p - d.buffer, buf[..][p]) {
        InsideBlock(d.offset, d.size, p - d.buffer);
      }
    }

    /** The descriptors a write has dealt with: those before `i`, and those the sparse file served. */
    ghost predicate DealtWith(ds: seq<Dscr>, off: nat, mask: seq<bool>, present: seq<bool>, i: nat)
      reads this`blocks
    {
      && |mask| == |ds| == |present|
      && (forall j: nat {:trigger PresenceAt(blocks, off, mask, j)} :: j < |ds| ==> PresenceAt(blocks, off, mask, j))
      && (forall j: nat {:trigger mask[j]} :: j < |ds| ==> mask[j] == (j < i || present[j]))
    }

    /** One result of a write chunk; a refused block inside the request would be an unrecoverable error. */
    method SettleWrite(ds: seq<Dscr>, present: seq<bool>, buf: array<byte>, residual: nat, ghost was: Blocks,
            ghost off: nat, ghost len: nat, ghost base: nat, ghost mask: seq<bool>, i: nat)
            returns (left: nat, ghost mask': seq<bool>)
      requires Valid() && Describes(ds, off, len, base) && base + len <= buf.Length && WellSized(was) && i < |ds|
      requires DealtWith(ds, off, mask, present, i) && ds[i].size <= residual && off + len <= |covered|
      requires PatchedWhere(covered, was, blocks, off, buf[base..base + len], mask)
      requires forall j: nat {:trigger present[j]} :: j < |ds| && ds[j].size == BLOCK ==> present[j]
      modifies this`blocks
      ensures Valid() && left == residual - ds[i].size && DealtWith(ds, off, mask', present, i + 1)
      ensures PatchedWhere(covered, was, blocks, off, buf[base..base + len], mask')
    {
      left, mask' := residual, mask;
      DescriptorInside(ds, off, len, base, i);
      DescriptorBlock(ds, off, len, base, i);
      DescriptorShape(ds, off, len, base, i);
      if present[i] {
        left := left - ds[i].size;
      } else {
        assert i == 0 || i == |ds| - 1;
        assert PresenceAt(blocks, off, mask, i);
        ghost var mid := blocks;
        var processed := RecoverWrite(ds[i], buf);
        SubSlice(buf[..], base, len, ds[i].offset - off, ds[i].size);
        PatchedMore(covered, was, mid, blocks, ds, off, base, buf[base..base + len], mask, i);
        mask' := mask[i := true];
        assert forall j: nat {:trigger PresenceAt(blocks, off, mask', j)} :: j < |ds| ==> PresenceAt(mid, off, mask, j);
        left := left - processed;
      }
    }

    /** Looks at the results of a write chunk and recovers what was refused. */
    method SettleWrites(ds: seq<Dscr>, present: seq<bool>, buf: array<byte>, residual: nat, ghost was: Blocks,
            ghost off: nat, ghost len: nat, ghost base: nat) returns (left: nat)
      requires Valid() && Describes(ds, off, len, base) && base + len <= buf.Length && |present| == |ds| &&
        WellSized(was)
      requires PatchedWhere(covered, was, blocks, off, buf[base..base + len], present)
      requires forall i: nat {:trigger PresenceAt(blocks, off, present, i)} :: i < |ds| ==>
        PresenceAt(blocks, off, present, i)
      requires forall i: nat {:trigger present[i]} :: i < |ds| && ds[i].size == BLOCK ==> present[i]
      requires off + len <= |covered| && len <= residual
      modifies this`blocks
      ensures Valid() && left == residual - len && Patched(covered, was, blocks, off, buf[base..base + len])
    {
      left := residual;
      ghost var mask := present;
      BeforeStep(ds, off, len, base, 0);
      var i := 0;
      while i < |ds|
        invariant i <= |ds| && Valid() && left == residual - Before(ds, off, len, i)
        invariant PatchedWhere(covered, was, blocks, off, buf[base..base + len], mask)
        invariant DealtWith(ds, off, mask, present, i)
      {
        BeforeStep(ds, off, len, base, i);
        DescriptorInside(ds, off, len, base, i);
        left, mask := SettleWrite(ds, present, buf, left, was, off, len, base, mask, i);
        i := i + 1;
      }
      AllSettled(covered, was, blocks, ds, off, len, base, buf[base..base + len], mask);
    }

    /** Looks at the results of a read chunk and recovers what was refused. */
    method SettleReads(ds: seq<Dscr>, present: seq<bool>, buf: array<byte>, residual: nat, ghost was: seq<byte>,
            ghost off: nat, ghost len: nat, ghost base: nat) returns (left: nat)
      requires Valid() && Describes(ds, off, len, base) && base + len <= buf.Length && |present| == |ds|
      requires ReadWhere(covered, blocks, was, buf[..], off, len, base, present)
      requires forall i: nat {:trigger PresenceAt(blocks, off, present, i)} :: i < |ds| ==>
        PresenceAt(blocks, off, present, i)
      requires len <= residual
      modifies buf
      ensures CoveredCount(covered, off, len) <= residual - left <= len
      ensures ReadRange(covered, blocks, was, buf[..], off, len, base)
    {
      left := residual;
      ghost var mask := present;
      BeforeStep(ds, off, len, base, 0);
      var i := 0;
      while i < |ds|
        invariant i <= |ds| == |mask| && 0 <= Before(ds, off, len, i) <= len
        invariant CoveredCount(covered, off, Before(ds, off, len, i)) <= residual - left <= Before(ds, off, len, i)
        invariant ReadWhere(covered, blocks, was, buf[..], off, len, base, mask)
        invariant forall j: nat {:trigger mask[j]} :: j < |ds| ==> mask[j] == (j < i || present[j])
      {
        DescriptorInside(ds, off, len, base, i);
        DescriptorBlock(ds, off, len, base, i);
        DescriptorShape(ds, off, len, base, i);
        BeforeStep(ds, off, len, base, i);
        if present[i] {
          left := left - ds[i].size;
        } else {
          assert PresenceAt(blocks, off, present, i);
          ghost var mid := buf[..];
          var processed := RecoverRead(ds[i], buf);
          ReadMore(covered, blocks, was, mid, buf[..], ds, off, len, base, mask, i);
          mask := mask[i := true];
          left := left - processed;
        }
        i := i + 1;
      }
      forall p: nat {:trigger buf[..][p]} | base <= p < base + len
        ensures ReadAt(covered, blocks, off + p - base, buf[..][p]) {
        AllHandled(ds, off, len, base, mask, off + p - base);
      }
      forall p: nat {:trigger buf[..][p]} | p < buf.Length && !(base <= p < base + len) ensures buf[..][p] == was[p] {
      }
    }

    // ---------- chunks, buffers, requests ----------

    /** What moving `len` bytes between the file at `off` and the buffer at `base` means. */
    twostate predicate Moved(new write: bool, buf: array<byte>, new off: nat, new len: nat, new base: nat)
      requires base + len <= buf.Length && old(WellSized(blocks)) && WellSized(blocks)
      reads this, buf
    {
      if write then buf[..] == old(buf[..]) && Patched(covered, old(blocks), blocks, off, buf[base..base + len])
      else blocks == old(blocks) && ReadRange(covered, blocks, old(buf[..]), buf[..], off, len, base)
    }

    /** One chunk: descriptors, the sparse file, recovery. */
    method TransferChunk(write: bool, buf: array<byte>, base: nat, len: nat, off: nat, residual: nat)
            returns (left: nat)
      requires Valid() && 0 < len <= residual && base + len <= buf.Length && (write ==> off + len <= fileDataSize)
      modifies this`blocks, buf
      ensures Valid() && Moved(write, buf, off, len, base)
      ensures if write then left == residual - len else CoveredCount(covered, off, len) <= residual - left <= len
    {
      var ds := Describe(off, len, base);
      if write {
        var present := WriteAll(ds, buf, off, len, base);
        left := SettleWrites(ds, present, buf, residual, old(blocks), off, len, base);
      } else {
        var present := ReadAll(ds, buf, off, len, base);
        left := SettleReads(ds, present, buf, residual, old(buf[..]), off, len, base);
      }
    }

    /** What the first `m` bytes of a buffer have moved since `before` and `was`. */
    ghost predicate MovedSince(write: bool, buf: array<byte>, before: Blocks, was: seq<byte>, off: nat, m: nat)
      requires m <= buf.Length && WellSized(before) && WellSized(blocks) && |was| == buf.Length
      reads this, buf
    {
      if write then buf[..] == was && Patched(covered, before, blocks, off, was[0..m])
      else before == blocks && ReadRange(covered, before, was, buf[..], off, m, 0)
    }

    /** The next chunk of a buffer. */
    method TransferNextChunk(write: bool, buf: array<byte>, base: nat, len: nat, off: nat, residual: nat,
            ghost before: Blocks, ghost was: seq<byte>, ghost total: nat) returns (left: nat)
      requires Valid() && WellSized(before) && |was| == buf.Length && 0 < len <= residual && base + len <= buf.Length
      requires (write ==> off + base + len <= fileDataSize) && MovedSince(write, buf, before, was, off, base)
      requires if write then residual == total - base
        else CoveredCount(covered, off, base) <= total - residual <= base
      modifies this`blocks, buf
      ensures Valid() && MovedSince(write, buf, before, was, off, base + len)
      ensures if write then left == total - (base + len)
        else CoveredCount(covered, off, base + len) <= total - left <= base + len
    {
      left := TransferChunk(write, buf, base, len, off + base, residual);
      CountJoin(covered, off, base, len);
      if write {
        assert was[0..base] + was[base..base + len] == was[0..base + len];
        PatchedJoin(covered, before, old(blocks), blocks, off, was[0..base], was[base..base + len]);
      } else {
        ReadJoin(covered, before, was, old(buf[..]), buf[..], off, base, len);
      }
    }

    /** One buffer, mapped and moved chunk by chunk. */
    method TransferBuffer(write: bool, buf: array<byte>, off: nat, residual: nat) returns (left: nat)
      requires Valid() && buf.Length <= residual && (write ==> off + buf.Length <= fileDataSize)
      modifies this`blocks, buf
      ensures Valid() && Moved(write, buf, off, buf.Length, 0)
      ensures if write then left == residual - buf.Length
        else CoveredCount(covered, off, buf.Length) <= residual - left <= buf.Length
    {
      left := residual;
      var rest := buf.Length;
      while rest != 0
        invariant 0 <= rest <= buf.Length && Valid()
        invariant MovedSince(write, buf, old(blocks), old(buf[..]), off, buf.Length - rest)
        invariant if write then left == residual - (buf.Length - rest)
          else CoveredCount(covered, off, buf.Length - rest) <= residual - left <= buf.Length - rest
      {
        var base := buf.Length - rest;
        var n := ChunkLength(rest);
        left := TransferNextChunk(write, buf, base, n, off, left, old(blocks), old(buf[..]), residual);
        rest := rest - n;
      }
      assert buf[0..buf.Length] == buf[..];
    }

    /** How far a request of `total` bytes has come: `data` is what its first buffers hold, `was` the blocks before. */
    ghost predicate Transferred(write: bool, was: Blocks, off: nat, data: seq<byte>, total: nat, left: nat)
      requires WellSized(was) && Valid()
      reads this
    {
      if write then left == total - |data| && Patched(covered, was, blocks, off, data)
      else
        && blocks == was && Shown(covered, blocks, off, data)
        && CoveredCount(covered, off, |data|) <= total - left <= |data|
    }

    /** The next buffer of a request. */
    method TransferNext(write: bool, buf: array<byte>, residual: nat, ghost was: Blocks, ghost off: nat,
            ghost data: seq<byte>, ghost total: nat, at: nat) returns (left: nat)
      requires Valid() && WellSized(was) && |data| + buf.Length <= total && Transferred(write, was, off, data, total,
        residual)
      requires at == off + |data| && (write ==> off + total <= fileDataSize)
      modifies this`blocks, buf
      ensures Valid() && Transferred(write, was, off, data + buf[..], total, left)
      ensures write ==> buf[..] == old(buf[..])
    {
      left := TransferBuffer(write, buf, at, residual);
      CountJoin(covered, off, |data|, buf.Length);
      if write {
        assert buf[0..buf.Length] == buf[..];
        PatchedJoin(covered, was, old(blocks), blocks, off, data, buf[..]);
      } else {
        ShownJoin(covered, blocks, off, data, buf[..]);
      }
    }

    /** Buffer number `i` of a request; the buffers before it are gathered, and a write changes no buffer. */
    method TransferNumber(write: bool, bufs: seq<array<byte>>, i: nat, at: nat, residual: nat, ghost was: Blocks,
            ghost off: nat, ghost total: nat) returns (left: nat)
      requires Valid() && Apart(bufs) && WellSized(was) && i < |bufs| && Total(bufs, i + 1) <= total
      requires Transferred(write, was, off, Gathered(bufs, i), total, residual)
      requires at == off + Total(bufs, i) && (write ==> off + total <= fileDataSize)
      modifies this`blocks, bufs[i]
      ensures Valid() && Transferred(write, was, off, Gathered(bufs, i + 1), total, left)
      ensures write ==> forall j: nat {:trigger bufs[j]} :: j < |bufs| ==> bufs[j][..] == old(bufs[j][..])
    {
      ghost var data := Gathered(bufs, i);
      left := TransferNext(write, bufs[i], residual, was, off, data, total, at);
      GatheredKept(bufs, i);
      assert Gathered(bufs, i + 1) == data + bufs[i][..];
    }

    /** The buffers of a request one after the other. */
    method TransferAll(write: bool, bufs: seq<array<byte>>, off: nat, residual: nat) returns (left: nat)
      requires Valid() && Apart(bufs) && Total(bufs, |bufs|) == residual && (write ==> off + residual <= fileDataSize)
      modifies this`blocks, set b | b in bufs
      ensures Valid()
      ensures write ==> left == 0 && Patched(covered, old(blocks), blocks, off, old(Gathered(bufs, |bufs|)))
      ensures write ==> forall i: nat {:trigger bufs[i]} :: i < |bufs| ==> bufs[i][..] == old(bufs[i][..])
      ensures !write ==> blocks == old(blocks) && CoveredCount(covered, off, residual) <= residual - left <= residual
      ensures !write ==> Shown(covered, blocks, off, Gathered(bufs, |bufs|))
    {
      left := residual;
      var at, i := off, 0;
      while i < |bufs|
        invariant i <= |bufs| && Valid() && at == off + Total(bufs, i)
        invariant Transferred(write, old(blocks), off, Gathered(bufs, i), residual, left)
        invariant write ==> forall j: nat {:trigger bufs[j]} :: j < |bufs| ==> bufs[j][..] == old(bufs[j][..])
      {
        TotalMonotone(bufs, i + 1);
        left := TransferNumber(write, bufs, i, at, left, old(blocks), off, residual);
        at, i := at + bufs[i].Length, i + 1;
      }
      if write { GatheredKept(bufs, |bufs|); }
    }

    /** Grows the covered file; what the new part holds is not specified. */
    method SetSize(size: nat, junk: nat -> byte, granted: bool) returns (ok: bool)
      requires Valid() && size > fileDataSize
      modifies this`covered, this`fileDataSize
      ensures ok == granted && Valid()
      ensures !ok ==> covered == old(covered)
      ensures ok ==> fileDataSize == size && covered[..old(fileDataSize)] == old(covered)
    {
      ok := granted;
      if ok {
        covered := covered + seq(size - fileDataSize, i requires 0 <= i => junk(i));
        fileDataSize := size;
      }
    }

    /**
     A write request. The file is grown first, so that no read-modify-write finds its block past the covered file's end;
     then the visible bytes are the old ones patched with the data.
     */
    method ProcessWrite(bufs: seq<array<byte>>, offset: int, append: bool, junk: nat -> byte, granted: bool)
            returns (r: Outcome)
      requires Valid() && Apart(bufs)
      modifies this, set b | b in bufs
      ensures Valid()
      ensures forall i: nat {:trigger bufs[i]} :: i < |bufs| ==> bufs[i][..] == old(bufs[i][..])
      ensures var at, n := if append then old(fileDataSize) else offset, Total(bufs, |bufs|);
        && r.status == (if at < 0 then FileTooBig else if n > 0 && at + n > old(fileDataSize) && !granted then NoSpace
          else Success)
        && (r.status != Success || n == 0 ==> Contents() == old(Contents()) && r.residual == n && r.offset == at)
        && (r.status == Success && n > 0 ==>
              && r.residual == 0 && r.offset == offset + n
              && fileDataSize == Max(old(fileDataSize), at + n)
              && Overwritten(old(Contents()), Contents(), at, old(Gathered(bufs, |bufs|))))
    {
      var at := if append then fileDataSize else offset;
      var n := Total(bufs, |bufs|);
      if at < 0 {
        return Outcome(FileTooBig, n, at);
      }
      if n == 0 {
        return Outcome(Success, n, at);
      }
      ghost var before := Contents();
      if at + n > fileDataSize {
        var ok := SetSize(at + n, junk, granted);
        if !ok {
          return Outcome(NoSpace, n, at);
        }
      }
      ghost var grown := Contents();
      assert forall x: nat {:trigger grown[x]} :: x < |before| ==> grown[x] == before[x];
      label L:
      var left := TransferAll(true, bufs, at, n);
      forall x: nat {:trigger Contents()[x]} | x < |Contents()|
        ensures Contents()[x] == if at <= x < at + n then old(Gathered(bufs, |bufs|))[x - at] else grown[x]
      {
        assert VisibleAt(covered, blocks, x) == Contents()[x];
      }
      r := Outcome(Success, left, offset + (n - left));
    }

    /** A read request answers exactly the visible bytes up to the end of the file. */
    method ProcessRead(bufs: seq<array<byte>>, offset: int) returns (r: Outcome)
      requires Valid() && Apart(bufs)
      modifies this`blocks, set b | b in bufs
      ensures Valid() && Contents() == old(Contents())
      ensures var n := Total(bufs, |bufs|);
        && r.status == (if offset < 0 then FileTooBig else Success)
        && (offset < 0 || n == 0 || offset >= fileDataSize ==> r.residual == n && r.offset == offset)
        && (0 <= offset < fileDataSize && n > 0 ==>
              var done := Min(n, fileDataSize - offset);
              && r.residual == n - done && r.offset == offset + done
              && Gathered(bufs, |bufs|)[..done] == Contents()[offset..offset + done])
    {
      var n := Total(bufs, |bufs|);
      if offset < 0 {
        return Outcome(FileTooBig, n, offset);
      }
      if n == 0 || offset >= fileDataSize {
        return Outcome(Success, n, offset);
      }
      var left := TransferAll(false, bufs, offset, n);
      var adjusted := if offset + (n - left) > fileDataSize then offset + n - fileDataSize else left;
      r := Outcome(Success, adjusted, offset + (n - adjusted));
      ShownIsView(covered, blocks, offset, Gathered(bufs, |bufs|), Min(n, fileDataSize - offset));
    }

    /** Moves one block of the sparse file into the covered file, as far as the file reaches: users see no
        difference. */
    method FlushBlock(k: nat)
      requires Valid() && k in blocks
      modifies this`blocks, this`covered
      ensures Valid() && Contents() == old(Contents()) && blocks == old(blocks) - {k}
    {
      FlushKeepsView(covered, blocks, k);
      var at := k * BLOCK;
      var n := CoveredCount(covered, at, BLOCK);
      if n > 0 {
        covered := Splice(covered, at, blocks[k][..n]);
      }
      blocks := blocks - {k};
    }
  }

  datatype Status = Success | FileTooBig | NoSpace
  datatype Outcome = Outcome(status: Status, residual: int, offset: int)

  function Max(a: int, b: int): int { if a < b then b else a }

  function Min(a: int, b: int): int { if a < b then a else b }

  /** `after` has `data` at `at` and otherwise begins with the bytes of `before`. */
  ghost predicate Overwritten(before: seq<byte>, after: seq<byte>, at: nat, data: seq<byte>) {
    && |before| <= |after| && at + |data| <= |after|
    && forall x: nat {:trigger after[x]} :: x < |after| ==>
         if at <= x < at + |data| then after[x] == data[x - at] else x < |before| ==> after[x] == before[x]
  }

  function Flushed(covered: seq<byte>, blocks: Blocks, k: nat): (r: (seq<byte>, Blocks))
    requires WellSized(blocks) && k in blocks
    ensures WellSized(r.1)
  {
    var n := CoveredCount(covered, k * BLOCK, BLOCK);
    (if n > 0 then Splice(covered, k * BLOCK, blocks[k][..n]) else covered, blocks - {k})
  }

  /** Flushing a block changes nothing that is visible. */
  lemma FlushKeepsView(covered: seq<byte>, blocks: Blocks, k: nat)
    requires WellSized(blocks) && k in blocks
    ensures var (c, b) := Flushed(covered, blocks, k); View(c, b) == View(covered, blocks)
  {
    var (c, b) := Flushed(covered, blocks, k);
    forall x: nat {:trigger VisibleAt(c, b, x)} | x < |covered|
      ensures VisibleAt(c, b, x) == VisibleAt(covered, blocks, x) {
      if x / BLOCK == k {
        InItsBlock(x);
      } else if k * BLOCK <= x < (k + 1) * BLOCK {
        SameBlock(k, x);
      }
    }
    assert forall x: nat {:trigger View(c, b)[x]} :: x < |covered| ==> View(c, b)[x] == VisibleAt(c, b, x);
  }

  ghost predicate Apart(bufs: seq<array<byte>>) {
    forall i: nat, j: nat {:trigger bufs[i], bufs[j]} :: i < j < |bufs| ==> bufs[i] != bufs[j]
  }

  /** The length of the first `n` buffers. */
  function Total(bufs: seq<array<byte>>, n: nat): nat
    requires n <= |bufs|
  {
    if n == 0 then 0 else Total(bufs, n - 1) + bufs[n - 1].Length
  }

  lemma {:induction false} TotalMonotone(bufs: seq<array<byte>>, n: nat)
    requires n <= |bufs|
    ensures Total(bufs, n) <= Total(bufs, |bufs|)
    decreases |bufs| - n
  {
    if n < |bufs| { TotalMonotone(bufs, n + 1); }
  }

  /** The bytes of the first `n` buffers. */
  ghost function Gathered(bufs: seq<array<byte>>, n: nat): (s: seq<byte>)
    requires n <= |bufs|
    reads set i | 0 <= i < n :: bufs[i]
    ensures |s| == Total(bufs, n)
  {
    if n == 0 then [] else Gathered(bufs, n - 1) + bufs[n - 1][..]
  }

  /** Buffers that hold what they held gather what they gathered. */
  twostate lemma {:induction false} GatheredKept(bufs: seq<array<byte>>, new n: nat)
    requires n <= |bufs|
    requires forall j: nat {:trigger bufs[j]} :: j < n ==> bufs[j][..] == old(bufs[j][..])
    ensures Gathered(bufs, n) == old(Gathered(bufs, n))
  {
    if n > 0 { GatheredKept(bufs, n - 1); }
  }

  /** `s` agrees with the visible bytes from `off` on, as far as the file reaches. */
  ghost predicate Shown(covered: seq<byte>, blocks: Blocks, off: nat, s: seq<byte>)
    requires WellSized(blocks)
  {
    forall p: nat {:trigger s[p]} :: p < |s| ==> ReadAt(covered, blocks, off + p, s[p])
  }

  lemma ShownJoin(covered: seq<byte>, blocks: Blocks, off: nat, a: seq<byte>, b: seq<byte>)
    requires WellSized(blocks) && Shown(covered, blocks, off, a) && Shown(covered, blocks, off + |a|, b)
    ensures Shown(covered, blocks, off, a + b)
  {
    forall p: nat {:trigger (a + b)[p]} | p < |a + b| ensures ReadAt(covered, blocks, off + p, (a + b)[p]) {
      if p >= |a| { assert ReadAt(covered, blocks, off + |a| + (p - |a|), b[p - |a|]); }
    }
  }

  lemma ShownIsView(covered: seq<byte>, blocks: Blocks, off: nat, s: seq<byte>, n: nat)
    requires WellSized(blocks) && Shown(covered, blocks, off, s) && n <= |s| && off + n <= |covered|
    ensures s[..n] == View(covered, blocks)[off..off + n]
  {
    forall p: nat {:trigger s[..n][p]} | p < n ensures s[..n][p] == View(covered, blocks)[off..off + n][p] {
      assert ReadAt(covered, blocks, off + p, s[p]);
    }
  }

  /** Offsets inside one block. */
  lemma InsideBlock(off: nat, n: nat, p: nat)
    requires off % BLOCK + n <= BLOCK && p < n
    ensures (off + p) / BLOCK == off / BLOCK && (off + p) % BLOCK == off % BLOCK + p
  {
  }

  /** Two adjacent stretches reach into the file together no further than each for itself. */
  lemma CountJoin(covered: seq<byte>, off: nat, m: nat, n: nat)
    ensures CoveredCount(covered, off, m + n) <= CoveredCount(covered, off, m) + CoveredCount(covered, off + m, n)
  {
  }

  lemma PatchedJoin(covered: seq<byte>, before: Blocks, mid: Blocks, after: Blocks, off: nat, a: seq<byte>,
          b: seq<byte>)
    requires WellSized(before) && WellSized(mid) && WellSized(after)
    requires Patched(covered, before, mid, off, a) && Patched(covered, mid, after, off + |a|, b)
    ensures Patched(covered, before, after, off, a + b)
  {
    forall x: nat {:trigger VisibleAt(covered, after, x)} | x < |covered|
      ensures VisibleAt(covered, after, x) == if off <= x < off + |a + b| then (a + b)[x - off]
        else VisibleAt(covered, before, x)
    {
      assert VisibleAt(covered, mid, x) == if off <= x < off + |a| then a[x - off] else VisibleAt(covered, before, x);
    }
  }

  lemma ReadJoin(covered: seq<byte>, blocks: Blocks, was: seq<byte>, mid: seq<byte>, now: seq<byte>, off: nat, m: nat,
          n: nat)
    requires WellSized(blocks) && ReadRange(covered, blocks, was, mid, off, m, 0) &&
      ReadRange(covered, blocks, mid, now, off + m, n, m)
    ensures ReadRange(covered, blocks, was, now, off, m + n, 0)
  {
    forall p: nat {:trigger now[p]} | p < |now| ensures if p < m + n then ReadAt(covered, blocks, off + p, now[p])
      else now[p] == was[p] {
      assert if p < m then ReadAt(covered, blocks, off + p, mid[p]) else mid[p] == was[p];
      assert if m <= p < m + n then ReadAt(covered, blocks, off + m + p - m, now[p]) else now[p] == mid[p];
    }
  }

  /** The descriptors of a chunk. */
  method Describe(off: nat, len: nat, base: nat) returns (ds: seq<Dscr>)
    requires len > 0
    ensures Describes(ds, off, len, base)
  {
    var count := (AlignToBlock(off + len + (BLOCK - 1)) - AlignToBlock(off)) / BLOCK;
    CountBlocks(off, len);
    ds := [];
    var i := 0;
    while i < count
      invariant i == |ds| <= count
      invariant i > 0 ==> ds[0].offset == off
      invariant forall j: nat {:trigger ds[j]} :: j < i ==> ds[j] == DscrOf(off, len, base, count, j)
    {
      AlignedBlock(off, i);
      DscrOfDescribes(off, len, base, count, i);
      var at := if i == 0 then off else AlignToBlock(off + i * BLOCK);
      var size := if i < count - 1 then AlignToBlock(at + BLOCK) - at else len - (at - off);
      ds := ds + [Dscr(at, size, base + (at - off))];
      i := i + 1;
    }
    forall j: nat {:trigger DescribesAt(ds, j, off, len, base)} | j < |ds| ensures DescribesAt(ds, j, off, len, base) {
      DscrOfDescribes(off, len, base, count, j);
    }
  }

  /** The `j`-th of `count` descriptors. */
  ghost function DscrOf(off: nat, len: nat, base: nat, count: nat, j: nat): Dscr
    requires len > 0 && j < count && InBlocks(off, len, count)
  {
    var k := off / BLOCK + j;
    var at := if j == 0 then off else k * BLOCK;
    Dscr(at, (if j == count - 1 then off + len else (k + 1) * BLOCK) - at, base + (at - off))
  }

  /** The request's last byte is in the last of `count` blocks. */
  ghost predicate InBlocks(off: nat, len: nat, count: nat) {
    count > 0 && (off / BLOCK + count - 1) * BLOCK < off + len <= (off / BLOCK + count) * BLOCK
  }

  lemma CountBlocks(off: nat, len: nat)
    requires len > 0
    ensures InBlocks(off, len, (AlignToBlock(off + len + (BLOCK - 1)) - AlignToBlock(off)) / BLOCK)
  {
    var q, p := (off + len + (BLOCK - 1)) / BLOCK, off / BLOCK;
    assert AlignToBlock(off + len + (BLOCK - 1)) - AlignToBlock(off) == (q - p) * BLOCK;
  }

  lemma AlignedBlock(off: nat, i: nat)
    ensures AlignToBlock(off + i * BLOCK) == (off / BLOCK + i) * BLOCK
    ensures AlignToBlock(off + BLOCK) == (off / BLOCK + 1) * BLOCK
    ensures AlignToBlock((off / BLOCK + i) * BLOCK + BLOCK) == (off / BLOCK + i + 1) * BLOCK
  {
    var k := off / BLOCK;
    InItsBlock(off);
    SameBlock(k + i, off + i * BLOCK);
    SameBlock(k + 1, off + BLOCK);
    SameBlock(k + i + 1, (k + i) * BLOCK + BLOCK);
  }

  lemma InItsBlock(x: nat)
    ensures x / BLOCK * BLOCK <= x < (x / BLOCK + 1) * BLOCK
  {
  }

  lemma DscrOfDescribes(off: nat, len: nat, base: nat, count: nat, j: nat)
    requires len > 0 && j < count && InBlocks(off, len, count)
    ensures var d, k := DscrOf(off, len, base, count, j), off / BLOCK + j;
      d.size > 0 && k * BLOCK <= d.offset && d.offset + d.size <= (k + 1) * BLOCK
  {
  }

  /** How much of the request comes before descriptor `i`. */
  ghost function Before(ds: seq<Dscr>, off: nat, len: nat, i: nat): int
    requires i <= |ds|
  {
    if i == |ds| then len else ds[i].offset - off
  }

  lemma BeforeStep(ds: seq<Dscr>, off: nat, len: nat, base: nat, i: nat)
    requires Describes(ds, off, len, base) && i < |ds|
    ensures 0 <= Before(ds, off, len, i) && Before(ds, off, len, i + 1) == Before(ds, off, len, i) + ds[i].size <= len
    ensures i == 0 ==> Before(ds, off, len, i) == 0
  {
    DescriptorShape(ds, off, len, base, i);
    DescriptorInside(ds, off, len, base, i);
    if i + 1 < |ds| {
      DescriptorShape(ds, off, len, base, i + 1);
    }
  }

  lemma SubSlice(s: seq<byte>, base: nat, len: nat, a: nat, n: nat)
    requires base + len <= |s| && a + n <= len
    ensures s[base..base + len][a..a + n] == s[base + a..base + a + n]
  {
    var l, r := s[base..base + len][a..a + n], s[base + a..base + a + n];
    assert |l| == |r| == n;
    assert forall i: nat {:trigger l[i]} :: i < n ==> l[i] == s[base + a + i] == r[i];
  }

  /** Copies bytes into a caller's buffer. */
  method CopyOut(from: seq<byte>, at: nat, n: nat, buf: array<byte>, to: nat)
    requires at + n <= |from| && to + n <= buf.Length
    modifies buf
    ensures forall p: nat {:trigger buf[p]} :: p < buf.Length ==> buf[p] == if to <= p < to + n then from[at + (p - to)]
      else old(buf[p])
  {
    var i := 0;
    while i < n
      invariant i <= n
      invariant forall p: nat {:trigger buf[p]} :: p < buf.Length ==> buf[p] == if to <= p < to + i
        then from[at + (p - to)] else old(buf[p])
    {
      buf[to + i] := from[at + i];
      i := i + 1;
    }
  }

  lemma DescriptorBlock(ds: seq<Dscr>, off: nat, len: nat, base: nat, i: nat)
    requires Describes(ds, off, len, base) && i < |ds|
    ensures ds[i].size > 0 && ds[i].offset / BLOCK == off / BLOCK + i && ds[i].offset % BLOCK + ds[i].size <= BLOCK
    ensures ds[i].buffer == base + (ds[i].offset - off) && (0 < i < |ds| - 1 ==> ds[i].size == BLOCK)
  {
    assert DescribesAt(ds, i, off, len, base);
    SameBlock(off / BLOCK + i, ds[i].offset);
  }
}
