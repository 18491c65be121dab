/** Bytes, 512-byte blocks and the little-endian words stored in them.

    The block cache is a C union: the same 512 bytes are read as data, as 16-bit or
    32-bit FAT entries, and as directory entries (Modules/SD/SdFat.h:409-422). Here a
    block is its bytes, and the other views are words at byte offsets. */
module Bytes {
  type byte = x: int | 0 <= x < 256

  const BLOCK_SIZE: nat := 512
  const TWO_16: nat := 0x1_0000
  const TWO_32: nat := 0x1_0000_0000

  type Block = b: seq<byte> | |b| == BLOCK_SIZE witness seq(BLOCK_SIZE, _ => 0)

  function ZeroBlock(): (b: Block) {
    seq(BLOCK_SIZE, _ => 0)
  }

  function Word16(b: seq<byte>, off: nat): (w: nat)
    requires off + 2 <= |b|
    ensures w < TWO_16
  {
    b[off] as int + 0x100 * (b[off + 1] as int)
  }

  function Word32(b: seq<byte>, off: nat): (w: nat)
    requires off + 4 <= |b|
    ensures w < TWO_32
  {
    Word16(b, off) + TWO_16 * Word16(b, off + 2)
  }

  /** Storing a 16-bit word truncates the value and changes those two bytes only. */
  function Put16(b: seq<byte>, off: nat, v: nat): (r: seq<byte>)
    requires off + 2 <= |b|
    ensures |r| == |b| && Word16(r, off) == v % TWO_16
    ensures forall i :: 0 <= i < |b| && (i < off || off + 2 <= i) ==> r[i] == b[i]
  {
    b[off := v % 0x100][off + 1 := v / 0x100 % 0x100]
  }

  /** Storing a 32-bit word truncates the value and changes those four bytes only. */
  function Put32(b: seq<byte>, off: nat, v: nat): (r: seq<byte>)
    requires off + 4 <= |b|
    ensures |r| == |b| && Word32(r, off) == v % TWO_32
    ensures forall i :: 0 <= i < |b| && (i < off || off + 4 <= i) ==> r[i] == b[i]
  {
    var low := Put16(b, off, v % TWO_16);
    var r := Put16(low, off + 2, v / TWO_16);
    assert Word16(r, off) == Word16(low, off);
    r
  }

  /** Overwrite part of a byte sequence. */
  function Patch(b: seq<byte>, off: nat, src: seq<byte>): (r: seq<byte>)
    requires off + |src| <= |b|
    ensures |r| == |b|
  {
    b[..off] + src + b[off + |src|..]
  }

  /** Two adjoining patches are one. */
  lemma PatchTwice(b: seq<byte>, off: nat, x: seq<byte>, y: seq<byte>)
    requires off + |x| + |y| <= |b|
    ensures Patch(Patch(b, off, x), off + |x|, y) == Patch(b, off, x + y)
  {
  }

  lemma PatchNothing(b: seq<byte>)
    ensures Patch(b, 0, []) == b
  {
  }

  lemma PatchFront(b: seq<byte>, src: seq<byte>)
    requires |src| <= |b|
    ensures Patch(b, 0, src)[..|src|] == src
  {
  }

  lemma PatchIs(was: seq<byte>, now: seq<byte>, at: nat, src: seq<byte>)
    requires |now| == |was| && at + |src| <= |was| && now[at..at + |src|] == src
    requires forall i :: 0 <= i < |was| && !(at <= i < at + |src|) ==> now[i] == was[i]
    ensures now == Patch(was, at, src)
  {
    assert forall i :: at <= i < at + |src| ==> now[i] == now[at..at + |src|][i - at];
  }

  /** What a write of `src` at position `p` does to a byte sequence: bytes are replaced,
      and the sequence grows when the write runs past its end. */
  function Splice(s: seq<byte>, p: nat, src: seq<byte>): (r: seq<byte>)
    requires p <= |s|
    ensures |r| == if p + |src| <= |s| then |s| else p + |src|
  {
    s[..p] + src + if p + |src| <= |s| then s[p + |src|..] else []
  }

  /** Byte by byte. */
  lemma SpliceReads(s: seq<byte>, p: nat, src: seq<byte>, i: nat)
    requires p <= |s| && (i < |s| || i < p + |src|)
    ensures Splice(s, p, src)[i] == if p <= i < p + |src| then src[i - p] else s[i]
  {
  }

  lemma SpliceNothing(s: seq<byte>, p: nat)
    requires p <= |s|
    ensures Splice(s, p, []) == s
  {
  }

  /** Writing in two pieces is writing once. */
  lemma SpliceTwice(s: seq<byte>, p: nat, a: seq<byte>, b: seq<byte>)
    requires p <= |s|
    ensures Splice(Splice(s, p, a), p + |a|, b) == Splice(s, p, a + b)
  {
  }

  /** Of what was there, at most the `len` bytes from `at` on are different now. */
  predicate OutsideKept(was: seq<byte>, now: seq<byte>, at: nat, len: nat) {
    |was| <= |now| && forall p :: 0 <= p < |was| && !(at <= p < at + len) ==> now[p] == was[p]
  }

  lemma OutsideSame(was: seq<byte>, at: nat, len: nat)
    ensures OutsideKept(was, was, at, len)
  {
  }

  /** A write that made `done` bytes, and spoilt at most the rest. */
  lemma OutsideSplice(was: seq<byte>, now: seq<byte>, at: nat, src: seq<byte>, done: nat, len: nat)
    requires at <= |was| && done + len <= |src| && OutsideKept(Splice(was, at, src[..done]), now, at + done, len)
    ensures OutsideKept(was, now, at, |src|)
  {
  }

  lemma SplicedKeepsRest(was: seq<byte>, at: nat, src: seq<byte>)
    requires at <= |was|
    ensures OutsideKept(was, Splice(was, at, src), at, |src|)
  {
  }

  lemma OutsideFewer(was: seq<byte>, now: seq<byte>, at: nat, n: nat, len: nat)
    requires OutsideKept(was, now, at, n) && n <= len
    ensures OutsideKept(was, now, at, len)
  {
  }

  lemma ModOnce(x: nat, n: nat)
    requires 0 < n && x < 2 * n
    ensures x % n == if x < n then x else x - n
  {
    var q := x / n;
    assert x == q * n + x % n;
    assert q >= 2 ==> q * n >= 2 * n;
    assert q == 0 ==> q * n == 0;
    assert q == 1 ==> q * n == n;
  }
}
