/**
 The covering file as a block-wise overlay: the bytes of the covered file, and above them the blocks the sparse file
 holds. What a reader sees is the block where there is one and the covered file elsewhere.
 */
module OverlayModel {
  import opened ByteStore
  import opened Options

  const PAGE_SIZE: nat := 0x1000
  const BLOCK: nat := 4 * PAGE_SIZE
  /** The largest piece of a buffer that is mapped at once, and the smallest rest that is worth a mapping of its own. */
  const MAP_LIMIT: nat := 2 * 0x1000 * 0x1000
  const SMALL_TAIL: nat := 4 * 0x1000

  type Blocks = map<nat, seq<byte>>

  function AlignToBlock(x: nat): (r: nat)
    ensures r <= x < r + BLOCK && r % BLOCK == 0 && r == x / BLOCK * BLOCK
  {
    x - x % BLOCK
  }

  ghost predicate WellSized(blocks: Blocks) {
    forall k: nat {:trigger blocks[k]} :: k in blocks ==> |blocks[k]| == BLOCK
  }

  ghost function VisibleAt(covered: seq<byte>, blocks: Blocks, x: nat): byte
    requires WellSized(blocks) && x < |covered|
  {
    if x / BLOCK in blocks then blocks[x / BLOCK][x % BLOCK] else covered[x]
  }

  /** What a reader sees. */
  ghost function View(covered: seq<byte>, blocks: Blocks): (s: seq<byte>)
    requires WellSized(blocks)
    ensures |s| == |covered|
  {
    seq(|covered|, x requires 0 <= x < |covered| => VisibleAt(covered, blocks, x))
  }

  // ---------- chunks and descriptors ----------

  /** The part of the rest of a buffer that is handled next. */
  function ChunkLength(residual: nat): (n: nat)
    ensures n <= residual && (residual > 0 ==> n > 0)
    ensures n < MAP_LIMIT + SMALL_TAIL
    ensures n < residual ==> n == MAP_LIMIT && residual - n >= SMALL_TAIL
  {
    var n := if residual >= MAP_LIMIT then MAP_LIMIT else residual;
    if residual - n < SMALL_TAIL then residual else n
  }

  /** A request for one block or a part of it: file offset, size, and the position in the caller's buffer. */
  datatype Dscr = Dscr(offset: nat, size: nat, buffer: nat)

  /** Descriptor `i` of a request is the request's part in the `i`-th block it touches. */
  ghost predicate DescribesAt(ds: seq<Dscr>, i: nat, off: nat, len: nat, base: nat)
    requires i < |ds|
  {
    var k := off / BLOCK + i;
    && ds[i].offset == (if i == 0 then off else k * BLOCK)
    && ds[i].offset + ds[i].size == (if i == |ds| - 1 then off + len else (k + 1) * BLOCK)
    && ds[i].buffer == base + (ds[i].offset - off)
    && ds[i].size > 0 && k * BLOCK <= ds[i].offset && ds[i].offset + ds[i].size <= (k + 1) * BLOCK
  }

  ghost predicate Describes(ds: seq<Dscr>, off: nat, len: nat, base: nat) {
    && |ds| > 0
    && forall i: nat {:trigger DescribesAt(ds, i, off, len, base)} :: i < |ds| ==> DescribesAt(ds, i, off, len, base)
  }

  predicate InDscr(d: Dscr, x: nat) {
    d.offset <= x < d.offset + d.size
  }

  /** The descriptor that handles byte `x` of the file. */
  ghost function Owner(ds: seq<Dscr>, off: nat, x: nat): nat {
    if off <= x then x / BLOCK - off / BLOCK else |ds|
  }

  /** One descriptor: not empty, inside one block, full unless it is the first or the last, and right behind the one
      before it. */
  lemma DescriptorShape(ds: seq<Dscr>, off: nat, len: nat, base: nat, i: nat)
    requires Describes(ds, off, len, base) && i < |ds|
    ensures 0 < ds[i].size <= BLOCK && AlignToBlock(ds[i].offset) == AlignToBlock(ds[i].offset + ds[i].size - 1)
    ensures ds[i].buffer - base == ds[i].offset - off && (0 < i < |ds| - 1 ==> ds[i].size == BLOCK)
    ensures if i == 0 then ds[i].offset == off else ds[i].offset == ds[i - 1].offset + ds[i - 1].size
    ensures i == |ds| - 1 ==> ds[i].offset + ds[i].size == off + len
  {
    assert DescribesAt(ds, i, off, len, base);
    if i > 0 { assert DescribesAt(ds, i - 1, off, len, base); }
    SameBlock(off / BLOCK + i, ds[i].offset);
    SameBlock(off / BLOCK + i, ds[i].offset + ds[i].size - 1);
  }

  lemma SameBlock(k: nat, x: nat)
    requires k * BLOCK <= x < (k + 1) * BLOCK
    ensures x / BLOCK == k && AlignToBlock(x) == k * BLOCK
  {
  }

  /** Every byte of the request is in exactly one descriptor, and no descriptor holds another byte. */
  lemma DescriptorsCoverOnce(ds: seq<Dscr>, off: nat, len: nat, base: nat, x: nat, i: nat)
    requires Describes(ds, off, len, base) && i < |ds|
    ensures InDscr(ds[i], x) <==> off <= x < off + len && i == Owner(ds, off, x)
  {
    assert DescribesAt(ds, i, off, len, base) && DescribesAt(ds, 0, off, len, base);
    if off <= x < off + len {
      OwnerInRange(ds, off, len, base, x);
    } else {
      DescriptorInside(ds, off, len, base, i);
    }
  }

  lemma DescriptorInside(ds: seq<Dscr>, off: nat, len: nat, base: nat, i: nat)
    requires Describes(ds, off, len, base) && i < |ds|
    ensures off <= ds[i].offset && ds[i].offset + ds[i].size <= off + len
  {
    var n := |ds| - 1;
    assert DescribesAt(ds, i, off, len, base) && DescribesAt(ds, n, off, len, base);
    assert i > 0 ==> off < (off / BLOCK + i) * BLOCK;
    assert i < n ==> (off / BLOCK + i + 1) * BLOCK <= (off / BLOCK + n) * BLOCK;
  }

  lemma OwnerInRange(ds: seq<Dscr>, off: nat, len: nat, base: nat, x: nat)
    requires Describes(ds, off, len, base) && off <= x < off + len
    ensures Owner(ds, off, x) < |ds| && InDscr(ds[Owner(ds, off, x)], x)
  {
    var i := Owner(ds, off, x);
    assert DescribesAt(ds, |ds| - 1, off, len, base);
    assert (off / BLOCK + |ds|) * BLOCK >= off + len;
    assert DescribesAt(ds, i, off, len, base);
  }

  // ---------- the sparse file ----------

  /** Writes within one block: a partial write of an absent block is refused. */
  function WriteBlock(blocks: Blocks, off: nat, bytes: seq<byte>): (r: Option<Blocks>)
    requires WellSized(blocks) && off % BLOCK + |bytes| <= BLOCK
  {
    var k := off / BLOCK;
    if |bytes| == BLOCK then Some(blocks[k := bytes])
    else if k in blocks then Some(blocks[k := Splice(blocks[k], off % BLOCK, bytes)])
    else None
  }

  /** `after` shows `bytes` at `off` and everything else as before. */
  ghost predicate Patched(covered: seq<byte>, before: Blocks, after: Blocks, off: nat, bytes: seq<byte>)
    requires WellSized(before) && WellSized(after)
  {
    forall x: nat {:trigger VisibleAt(covered, after, x)} :: x < |covered| ==>
      VisibleAt(covered, after, x) == if off <= x < off + |bytes| then bytes[x - off] else VisibleAt(covered, before, x)
  }

  lemma WriteBlockPatches(covered: seq<byte>, blocks: Blocks, off: nat, bytes: seq<byte>)
    requires WellSized(blocks) && 0 < |bytes| && off % BLOCK + |bytes| <= BLOCK
    ensures var r := WriteBlock(blocks, off, bytes);
      && (r == None <==> off / BLOCK !in blocks && |bytes| < BLOCK)
      && (r.Some? ==>
        WellSized(r.value) && r.value.Keys == blocks.Keys + {off / BLOCK} &&
        Patched(covered, blocks, r.value, off, bytes))
  {
    var r, k := WriteBlock(blocks, off, bytes), off / BLOCK;
    if r.Some? {
      forall x: nat {:trigger VisibleAt(covered, r.value, x)} | x < |covered|
        ensures VisibleAt(covered, r.value, x) == if off <= x < off + |bytes| then bytes[x - off]
          else VisibleAt(covered, blocks, x)
      {
        if x / BLOCK == k && |bytes| < BLOCK {
          PatchedByte(blocks[k], off, bytes, x);
        }
      }
    }
  }

  lemma PatchedByte(block: seq<byte>, off: nat, bytes: seq<byte>, x: nat)
    requires |block| == BLOCK && off % BLOCK + |bytes| <= BLOCK && x / BLOCK == off / BLOCK
    ensures Splice(block, off % BLOCK, bytes)[x % BLOCK] == if off <= x < off + |bytes| then bytes[x - off]
      else block[x % BLOCK]
  {
    assert x - off == x % BLOCK - off % BLOCK;
  }

  /** The bytes the covered file has from `off` on, at most `n` of them. */
  function CoveredCount(covered: seq<byte>, off: nat, n: nat): (r: nat)
    ensures r <= n && off + r <= |covered| + off && (r > 0 ==> off + r <= |covered|)
    ensures r < n ==> off + r >= |covered|
  {
    if off >= |covered| then 0 else if off + n <= |covered| then n else |covered| - off
  }

  /** A block filled from the covered file, with zeros behind its end. */
  function FilledBlock(covered: seq<byte>, base: nat): (s: seq<byte>)
    ensures |s| == BLOCK
    ensures forall i: nat {:trigger s[i]} :: i < BLOCK ==> s[i] == if base + i < |covered| then covered[base + i] else 0
  {
    seq(BLOCK, i requires 0 <= i < BLOCK => if base + i < |covered| then covered[base + i] else 0)
  }

  /** A refused write is repeated on the whole block, filled from the covered file; when that has no byte there the
      write is dropped. */
  function ReadModifyWrite(covered: seq<byte>, blocks: Blocks, off: nat, bytes: seq<byte>): (r: Option<Blocks>)
    requires WellSized(blocks) && off % BLOCK + |bytes| <= BLOCK
  {
    var base := AlignToBlock(off);
    if CoveredCount(covered, base, BLOCK) == 0 then None
    else WriteBlock(blocks, base, Splice(FilledBlock(covered, base), off - base, bytes))
  }

  /** The read-modify-write of an absent block shows the new bytes; it is dropped exactly when the block lies past the
      covered file's end. */
  lemma ReadModifyWritePatches(covered: seq<byte>, blocks: Blocks, off: nat, bytes: seq<byte>)
    requires WellSized(blocks) && 0 < |bytes| && off % BLOCK + |bytes| <= BLOCK && off / BLOCK !in blocks
    ensures var r := ReadModifyWrite(covered, blocks, off, bytes);
      && (r == None <==> |covered| <= AlignToBlock(off))
      && (r.Some? ==>
        WellSized(r.value) && r.value.Keys == blocks.Keys + {off / BLOCK} &&
        Patched(covered, blocks, r.value, off, bytes))
  {
    var r, base := ReadModifyWrite(covered, blocks, off, bytes), AlignToBlock(off);
    var filled := FilledBlock(covered, base);
    assert base / BLOCK == off / BLOCK && off - base == off % BLOCK;
    if r.Some? {
      forall x: nat {:trigger VisibleAt(covered, r.value, x)} | x < |covered|
        ensures VisibleAt(covered, r.value, x) == if off <= x < off + |bytes| then bytes[x - off]
          else VisibleAt(covered, blocks, x)
      {
        if x / BLOCK == off / BLOCK {
          PatchedByte(filled, off, bytes, x);
          assert base + x % BLOCK == x;
        }
      }
    }
  }
}
