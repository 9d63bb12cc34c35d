/** Byte buffers as sequences: overwriting a stretch in place, and what such a write leaves alone. */
module ByteStore {
  type byte = x: int | 0 <= x < 256

  /** The buffer `s` after `b` has been copied over the bytes that start at `at`. */
  function Splice(s: seq<byte>, at: nat, b: seq<byte>): (r: seq<byte>)
    requires at + |b| <= |s|
    ensures |r| == |s|
  {
    seq(|s|, k requires 0 <= k < |s| => if at <= k < at + |b| then b[k - at] else s[k])
  }

  /** A stretch that the write does not touch reads as before. */
  lemma SpliceOutside(s: seq<byte>, at: nat, b: seq<byte>, lo: nat, hi: nat)
    requires at + |b| <= |s| && lo <= hi <= |s|
    requires hi <= at || at + |b| <= lo
    ensures Splice(s, at, b)[lo..hi] == s[lo..hi]
  {
  }

  /** A stretch that ends where the written bytes begin grows by them. */
  lemma SpliceExtends(s: seq<byte>, at: nat, b: seq<byte>, lo: nat)
    requires lo <= at && at + |b| <= |s|
    ensures Splice(s, at, b)[lo..at + |b|] == s[lo..at] + b
  {
  }
}
