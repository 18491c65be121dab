/** The one-block write-back cache of `SdVolume`, with the pending copy of a FAT block for
    the second FAT (Modules/SD/SdVolume.cpp:22-28, 105-146; Modules/SD/SdFat.h:499-503).

    The ghost field `disk` is the plain array of blocks that the cache stands for: the
    card, with the cached block and its pending mirror copy already in place. Every
    operation is specified by what it does to `disk`, whether or not the card fails. */
module Cache {
  import opened Bytes
  import opened Layouts
  import opened SdCard

  /** What a caller can tell about the cache: the blocks it stands for, and the block that
      has unwritten data, if any. */
  datatype CacheState = CacheState(disk: Disk, dirty: bool, number: nat) {
    /** There is unwritten data, but it is no longer known for which block. */
    predicate Stranded() {
      dirty && number == NO_BLOCK
    }
  }

  class BlockCache {
    const card: Sd2Card
    const buffer: array<byte>
    var blockNumber: nat
    var dirty: bool
    var mirrorBlock: nat
    ghost var disk: Disk

    ghost function Repr(): set<object> {
      {this, card, buffer}
    }

    ghost predicate Valid()
      reads Repr()
    {
      && card.Valid() && buffer.Length == BLOCK_SIZE
      && |disk| == |card.blocks| < NO_BLOCK
      && (blockNumber < |disk| || blockNumber == NO_BLOCK)
      && (blockNumber < |disk| ==> buffer[..] == disk[blockNumber])
      && (dirty ==> blockNumber != 0)
      && (mirrorBlock != 0 ==> dirty && blockNumber != mirrorBlock
                               && blockNumber < |disk| && mirrorBlock < |disk| && buffer[..] == disk[mirrorBlock])
      && (forall b :: 0 <= b < |disk| && !Pending(b) ==> card.blocks[b] == disk[b])
    }

    /** Blocks whose contents on the card may be out of date. */
    ghost predicate Pending(b: nat)
      reads this
    {
      dirty && (b == blockNumber || (b == mirrorBlock && mirrorBlock != 0))
    }

    ghost function State(): CacheState
      reads this
    {
      CacheState(disk, dirty, blockNumber)
    }

    ghost predicate Stranded()
      reads this
    {
      State().Stranded()
    }

    /** Why an operation may fail: the card failed meanwhile, or the cache is stranded. */
    ghost predicate Excused(before: nat)
      reads this, card
    {
      card.faults > before || Stranded()
    }

    /** The buffer holds the cached block. */
    lemma Cached()
      requires Valid() && blockNumber < |disk|
      ensures buffer.Length == BLOCK_SIZE && buffer[..] == disk[blockNumber]
    {
    }

    /** A clean cache has nothing that is not on the card. */
    lemma CleanIsOnCard()
      requires Valid() && !dirty
      ensures card.blocks == disk
    {
    }

    /** The cache of a card that was just initialized. */
    constructor (device: Sd2Card)
      requires device.Valid() && |device.blocks| < NO_BLOCK
      ensures Valid() && card == device && disk == device.blocks && !dirty && blockNumber == 0xFFFF_FFFF
              && mirrorBlock == 0
      ensures fresh(buffer) && fresh(this)
    {
      card := device;
      buffer := new byte[BLOCK_SIZE](_ => 0);
      blockNumber, dirty, mirrorBlock := NO_BLOCK, false, 0;
      disk := device.blocks;
    }

    /** Write the cached block, then its mirror copy, if it is dirty. A failure between the
        two writes loses nothing: both are made again by the next flush. */
    method Flush() returns (ok: bool)
      requires Valid()
      modifies this`dirty, this`mirrorBlock, card
      ensures Valid() && disk == old(disk) && card.partialBlockRead == old(card.partialBlockRead)
      ensures ok ==> !dirty && card.blocks == disk
      ensures dirty ==> old(dirty)
      ensures !ok ==> dirty && mirrorBlock == old(mirrorBlock)
      ensures mirrorBlock != 0 ==> mirrorBlock == old(mirrorBlock)
      ensures old(Stranded()) ==> !ok
      ensures card.faults >= old(card.faults) && (!ok ==> Excused(old(card.faults)))
    {
      if dirty {
        if blockNumber < |card.blocks| {
          assert buffer[..] == disk[blockNumber];
        }
        ok := card.WriteBlock(blockNumber, buffer[..]);
        if !ok {
          return;
        }
        if mirrorBlock != 0 {
          ok := card.WriteBlock(mirrorBlock, buffer[..]);
          if !ok {
            return;
          }
          mirrorBlock := 0;
        }
        dirty := false;
      }
      ok := true;
    }

    /** Bring a block into the cache, and mark it dirty if it is to be written. */
    method RawBlock(block: nat, forWrite: bool) returns (ok: bool)
      requires Valid() && (block != NO_BLOCK || blockNumber != NO_BLOCK) && (forWrite ==> block != 0)
      modifies this`blockNumber, this`dirty, this`mirrorBlock, buffer, card
      ensures Valid() && disk == old(disk) && card.partialBlockRead == old(card.partialBlockRead)
      ensures ok ==> block == blockNumber < |disk| && (forWrite ==> dirty)
      ensures !ok ==> blockNumber == old(blockNumber)
      ensures dirty ==> (blockNumber == old(blockNumber) && old(dirty)) || (ok && forWrite)
      ensures mirrorBlock != 0 ==> mirrorBlock == old(mirrorBlock) && blockNumber == old(blockNumber)
      ensures ok && old(blockNumber) != block ==> (dirty <==> forWrite)
      ensures old(blockNumber) == block ==>
                ok && (dirty <==> old(dirty) || forWrite) && mirrorBlock == old(mirrorBlock) && unchanged(card)
      ensures old(Stranded()) ==> !ok && Stranded()
      ensures card.faults >= old(card.faults)
      ensures !ok ==> Excused(old(card.faults)) || block >= |disk|
    {
      if blockNumber != block {
        ok := Flush();
        if !ok {
          return;
        }
        ok := card.ReadBlock(block, buffer);
        if !ok {
          return;
        }
        blockNumber := block;
      }
      dirty := dirty || forWrite;
      ok := true;
    }

    /** Cache a block of zeros for a block number. */
    method ZeroCached(block: nat) returns (ok: bool)
      requires Valid() && 0 < block < |disk|
      modifies this, buffer, card
      ensures Valid()
      ensures ok ==> disk == old(disk)[block := ZeroBlock()] && blockNumber == block && dirty && mirrorBlock == 0
      ensures !ok ==> disk == old(disk) && blockNumber == old(blockNumber)
      ensures !ok && mirrorBlock != 0 ==> mirrorBlock == old(mirrorBlock)
      ensures dirty ==> old(dirty) || ok
      ensures old(Stranded()) ==> !ok && Stranded()
      ensures card.faults >= old(card.faults) && (!ok ==> Excused(old(card.faults)))
    {
      ok := Flush();
      if !ok {
        return;
      }
      for i := 0 to BLOCK_SIZE
        invariant forall j :: 0 <= j < i ==> buffer[j] == 0
        invariant disk == old(disk) && !dirty && card.blocks == disk && card.Valid() && mirrorBlock == 0
        invariant card.faults >= old(card.faults)
      {
        buffer[i] := 0;
      }
      assert buffer[..] == ZeroBlock();
      blockNumber := block;
      dirty := true;
      disk := disk[block := buffer[..]];
    }

    /** Start a new block of a file without reading it: what the buffer happens to hold
        becomes the block's contents. */
    method Adopt(block: nat) returns (ok: bool)
      requires Valid() && 0 < block < |disk|
      modifies this`disk, this`dirty, this`mirrorBlock, this`blockNumber, card
      ensures Valid()
      ensures ok ==> disk == old(disk)[block := buffer[..]] && blockNumber == block && dirty && mirrorBlock == 0
      ensures !ok ==> disk == old(disk) && blockNumber == old(blockNumber)
      ensures !ok && mirrorBlock != 0 ==> mirrorBlock == old(mirrorBlock)
      ensures dirty ==> old(dirty) || ok
      ensures old(Stranded()) ==> !ok && Stranded()
      ensures card.faults >= old(card.faults) && (!ok ==> Excused(old(card.faults)))
    {
      ok := Flush();
      if ok {
        blockNumber := block;
        dirty := true;
        disk := disk[block := buffer[..]];
      }
    }

    /** Copy bytes into the cached block. */
    method CopyIn(off: nat, src: seq<byte>)
      requires Valid() && dirty && blockNumber < |disk| && mirrorBlock == 0 && off + |src| <= BLOCK_SIZE
      modifies this`disk, buffer
      ensures Valid()
      ensures disk == old(disk)[blockNumber := Patch(old(disk[blockNumber]), off, src)]
    {
      ghost var was := buffer[..];
      for i := 0 to |src|
        invariant disk == old(disk) && buffer[off..off + i] == src[..i]
        invariant buffer[..off] == was[..off] && buffer[off + i..] == was[off + i..]
      {
        buffer[off + i] := src[i];
      }
      assert src[..|src|] == src && was == disk[blockNumber];
      assert buffer[..] == Patch(was, off, src);
      disk := disk[blockNumber := buffer[..]];
    }

    /** Copy bytes out of the cached block. */
    method CopyOut(off: nat, n: nat, dst: array<byte>, at: nat)
      requires Valid() && blockNumber < |disk| && off + n <= BLOCK_SIZE
      requires at + n <= dst.Length && dst != buffer
      modifies dst
      ensures dst[..] == Patch(old(dst[..]), at, disk[blockNumber][off..off + n])
    {
      ghost var was := dst[..];
      for i := 0 to n
        invariant dst[at..at + i] == disk[blockNumber][off..off + i]
        invariant forall j :: 0 <= j < dst.Length && !(at <= j < at + n) ==> dst[j] == was[j]
      {
        dst[at + i] := buffer[off + i];
      }
      PatchIs(was, dst[..], at, disk[blockNumber][off..off + n]);
    }

    /** Replace the contents of the cached block, mark it dirty, and note the block that
        must become its copy (0 for none). */
    method Replace(contents: Block, mirror: nat)
      requires Valid() && 0 < blockNumber < |disk| && mirror < |disk| && mirror != blockNumber
      requires mirrorBlock == 0 || mirrorBlock == mirror
      modifies this`disk, this`dirty, this`mirrorBlock, buffer
      ensures Valid() && dirty && mirrorBlock == mirror
      ensures mirror == 0 ==> disk == old(disk)[blockNumber := contents]
      ensures mirror != 0 ==> disk == old(disk)[blockNumber := contents][mirror := contents]
    {
      forall i | 0 <= i < BLOCK_SIZE {
        buffer[i] := contents[i];
      }
      assert buffer[..] == contents;
      dirty := true;
      mirrorBlock := mirror;
      disk := disk[blockNumber := contents];
      if mirror != 0 {
        disk := disk[mirror := contents];
      }
    }

    /** Write a whole block past the cache. A cached copy of it is dropped by forgetting its
        number; the dirty flag is left as it is. */
    method WriteThrough(block: nat, src: Block) returns (ok: bool)
      requires Valid() && 0 < block < |disk|
      requires mirrorBlock != 0 ==> block != blockNumber && block != mirrorBlock
      modifies this`disk, this`blockNumber, card
      ensures Valid() && |disk| == |old(disk)|
      ensures ok ==> disk == old(disk)[block := src]
      ensures forall b :: 0 <= b < |disk| && b != block ==> disk[b] == old(disk)[b]
      ensures blockNumber == if old(blockNumber) == block then NO_BLOCK else old(blockNumber)
      ensures card.faults >= old(card.faults) && (!ok ==> card.faults > old(card.faults))
    {
      if blockNumber == block {
        blockNumber := NO_BLOCK;
      }
      ok := card.WriteBlock(block, src);
      disk := disk[block := card.blocks[block]];
    }

    /** Read part of a block past the cache. */
    method ReadThrough(block: nat, off: nat, n: nat, dst: array<byte>, at: nat) returns (ok: bool)
      requires Valid() && block != blockNumber && (mirrorBlock != 0 ==> block != mirrorBlock)
      requires 0 < n && off + n <= BLOCK_SIZE && at + n <= dst.Length && dst != buffer
      modifies card, dst
      ensures Valid() && card.blocks == old(card.blocks)
      ensures ok ==> block < |disk| && dst[..] == Patch(old(dst[..]), at, disk[block][off..off + n])
      ensures !ok ==> dst[..] == old(dst[..])
      ensures card.faults >= old(card.faults) && (!ok ==> card.faults > old(card.faults) || block >= |disk|)
    {
      ok := card.ReadData(block, off, n, dst, at);
      if ok {
        PatchIs(old(dst[..]), dst[..], at, disk[block][off..off + n]);
      }
    }
  }
}
