/** Open files: reading, writing, seeking, truncating and synchronizing through the cache
    (Modules/SD/SdFile.cpp:36-47, 723-781, 1009-1079, 1157-1207, 1225-1327). */
module File {
  import opened Bytes
  import opened Layouts
  import opened Chains
  import opened Cache
  import opened Volume
  import opened FileModel
  import opened WriteModel
  import opened TruncateModel
  import opened Slots
  import opened DirModel

  /** How a step of a write ends. Reading a link in the middle of a chain is the one failure
      after which the source returns without setting the error flag. */
  datatype Progress = Going | Failed | LinkFailed

  datatype FileType = Closed | Normal | Root16 | Root32 | Subdir

  class SdFile {
    const vol: SdVolume
    var fileType: FileType
    // the bits of `flags_`
    var canRead: bool
    var canWrite: bool
    var append: bool
    var syncWrites: bool
    var unbuffered: bool
    var dirDirty: bool

    var curCluster: nat
    var curPosition: nat
    var dirBlock: nat
    var dirIndex: nat
    var fileSize: nat
    var firstCluster: nat
    /** The error flag inherited from `Print`. */
    var writeError: bool

    /** The clusters of the file, in order. */
    ghost var chain: seq<nat>

    ghost function Repr(): set<object> {
      {this} + vol.Repr()
    }

    constructor (volume: SdVolume)
      ensures vol == volume && fileType == Closed && fresh(this)
    {
      vol, fileType := volume, Closed;
    }

    /** How many bytes of the chain count, on the way through a write that may lengthen the file. */
    ghost function Extent(): nat
      reads this
    {
      if curPosition > fileSize then curPosition else fileSize
    }

    ghost function Snap(): FileState
      reads this
    {
      FileState(fileType == Root16, firstCluster, chain, fileSize, curPosition, curCluster, dirBlock, dirIndex,
                dirDirty)
    }

    /** The invariant of a handle: closed, or open for a regular file. */
    ghost predicate Valid()
      reads Repr()
      ensures Valid() ==> vol.Valid()
    {
      && vol.Valid() && (fileType == Normal || fileType == Closed)
      && (fileType == Normal ==> Good(vol.g, vol.cache.State(), Snap()))
    }

    /** What is left of it when an operation failed half way. */
    ghost predicate Usable()
      reads Repr()
      ensures Usable() ==> vol.Valid()
    {
      && vol.Valid() && (fileType == Normal || fileType == Closed)
      && (fileType == Normal ==>
            && Sound(vol.g, vol.cache.disk, Snap(), Extent())
            && CursorLoose(vol.g, chain, curPosition, curCluster))
    }

    lemma ValidIsUsable()
      requires Valid()
      ensures Usable() && (fileType == Normal ==> CursorOn(vol.g, chain, curPosition, curCluster))
    {
      hide Fat, Layout.Fits, SdVolume.Valid, BlockCache.Valid, Sound, TailClean, CursorOn, CursorLoose;
      if fileType == Normal {
        GoodIsUsable(vol.g, vol.cache.State(), Snap());
      }
    }

    /** A handle that a failure left usable is good again, once it is somewhere in the file with a cursor
        that is right, as it is after a rewind, exactly if the cache holds no dirty block of the file
        from behind its end. */
    lemma ValidAgain()
      requires Usable() && fileType == Normal && curPosition <= fileSize
      requires CursorOn(vol.g, chain, curPosition, curCluster)
      ensures Valid() <==> TailClean(vol.g, vol.cache.State(), chain, fileSize)
    {
      hide Fat, Layout.Fits, SdVolume.Valid, BlockCache.Valid, Sound, TailClean, CursorOn, CursorLoose;
    }

    /** A handle whose position can be set: usable, or open for a directory. */
    ghost predicate Seekable()
      reads Repr()
      ensures Seekable() ==> vol.Valid()
      ensures Seekable() && !IsDir() <==> Usable()
    {
      if IsDir() then
        && vol.Valid() && DirGood(vol.g, vol.cache.disk, Snap()) && curPosition <= fileSize
        && (fileType != Root16 ==> CursorLoose(vol.g, chain, curPosition, curCluster))
      else Usable()
    }

    /** Set the position. The walk starts from the current cluster if the target is not in
        an earlier one, else from the first cluster; the root directory of a FAT16 volume has
        no clusters. */
    method SeekSet(pos: nat) returns (ok: bool)
      requires Seekable()
      modifies this`curCluster, this`curPosition, vol.cache.Repr()
      ensures Seekable() && vol.cache.disk == old(vol.cache.disk)
      ensures FatOnly(vol.g, old(vol.cache.State()), vol.cache.State())
      ensures vol.cache.dirty ==> old(vol.cache.dirty)
      ensures pos > fileSize || fileType == Closed ==> !ok
      ensures ok ==> curPosition == pos
      ensures !ok ==> curPosition == old(curPosition)
      ensures !ok && (pos > fileSize || fileType == Closed) ==> curCluster == old(curCluster)
      ensures !ok && pos <= fileSize && fileType != Closed ==>
                pos > 0 && Stopped(vol.g, chain, firstCluster, old(curPosition), old(curCluster), pos, curCluster)
      ensures ok && fileType != Root16 ==>
                (CursorOn(vol.g, chain, pos, curCluster) <==>
                   SeekHeals(vol.g, old(curPosition), pos)
                   || CursorOn(vol.g, chain, old(curPosition), old(curCluster)))
      ensures ok && fileType != Root16 && !SeekHeals(vol.g, old(curPosition), pos) ==>
                Shifted(vol.g, chain, old(curPosition), old(curCluster), pos, curCluster)
      ensures ok && old(Valid()) ==> Valid()
      ensures vol.cache.card.faults >= old(vol.cache.card.faults)
      ensures !ok && (fileType == Root16 || SeekHeals(vol.g, old(curPosition), pos)
                      || CursorOn(vol.g, chain, old(curPosition), old(curCluster))) ==>
                vol.cache.Excused(old(vol.cache.card.faults)) || pos > fileSize || fileType == Closed
    {
      hide Fat, Layout.Fits, SdVolume.Valid, BlockCache.Valid, FatOnly, Sound, TailClean, CursorOn, CursorLoose,
        Chained, DirGood;
      assert this !in vol.Repr();
      ghost var f, s, extent := Snap(), vol.cache.State(), Extent();
      if fileType == Closed || pos > fileSize {
        return false;
      }
      if fileType == Root16 {
        curPosition := pos;
        DirGoodMoves(vol.g, s.disk, f, Snap());
        return true;
      }
      ChainedHandle(f, extent);
      if pos == 0 {
        CursorAtStart(vol.g, chain);
        curCluster := 0;
        curPosition := 0;
        ok := true;
      } else {
        ok := WalkTo(pos);
      }
      if IsDir() {
        DirGoodMoves(vol.g, s.disk, f, Snap());
      } else {
        SoundMoves(vol.g, s.disk, f, extent, Snap(), Extent());
      }
      if ok && old(Valid()) {
        GoodAfterSeek(vol.g, s, vol.cache.State(), f, Snap());
      }
    }

    lemma ChainedHandle(f: FileState, extent: nat)
      requires Seekable() && fileType != Closed && fileType != Root16 && f == Snap() && extent == Extent()
      ensures Chained(vol.g, vol.cache.disk, f, extent) && CursorLoose(vol.g, chain, curPosition, curCluster)
    {
      hide Fat, Layout.Fits, SdVolume.Valid, BlockCache.Valid, CursorLoose;
      if IsDir() {
        DirIsChained(vol.g, vol.cache.disk, f);
      }
    }

    /** `SeekSet` to a position other than 0. */
    method WalkTo(pos: nat) returns (ok: bool)
      requires vol.Valid() && fileType != Root16 && Chained(vol.g, vol.cache.disk, Snap(), Extent())
      requires 0 < pos <= fileSize
      requires CursorLoose(vol.g, chain, curPosition, curCluster)
      modifies this`curCluster, this`curPosition, vol.cache.Repr()
      ensures vol.Valid() && vol.cache.disk == old(vol.cache.disk)
      ensures CursorLoose(vol.g, chain, curPosition, curCluster)
      ensures FatOnly(vol.g, old(vol.cache.State()), vol.cache.State()) && (vol.cache.dirty ==> old(vol.cache.dirty))
      ensures curPosition == if ok then pos else old(curPosition)
      ensures !ok ==>
                Stopped(vol.g, chain, firstCluster, old(curPosition), old(curCluster), pos, curCluster)
      ensures ok ==> (CursorOn(vol.g, chain, pos, curCluster) <==>
                        SeekHeals(vol.g, old(curPosition), pos)
                        || CursorOn(vol.g, chain, old(curPosition), old(curCluster)))
      ensures ok && !SeekHeals(vol.g, old(curPosition), pos) ==>
                Shifted(vol.g, chain, old(curPosition), old(curCluster), pos, curCluster)
      ensures vol.cache.card.faults >= old(vol.cache.card.faults)
      ensures !ok && (SeekHeals(vol.g, old(curPosition), pos)
                      || CursorOn(vol.g, chain, old(curPosition), old(curCluster))) ==>
                vol.cache.Excused(old(vol.cache.card.faults))
    {
      hide Fat, Layout.Fits, SdVolume.Valid, BlockCache.Valid, FatOnly, Walked, Chained, CursorOn, IsChain,
        ClusterBefore, CursorLoose;
      assert this !in vol.Repr();
      ghost var f, extent := Snap(), Extent();
      // at position 0 the source takes the predecessor modulo 2^32, and then ignores it
      var nCur := ClusterBefore(vol.g, if curPosition == 0 then TWO_32 else curPosition);
      var nNew := ClusterBefore(vol.g, pos);
      ghost var i := SeekStart(vol.g, vol.cache.disk, f, extent, pos);
      if nNew < nCur || curPosition == 0 {
        curCluster := firstCluster;
      } else {
        nNew := nNew - nCur;
      }
      ghost var j;
      ok, j := Follow(nNew, i);
      if ok {
        curPosition := pos;
      }
      SeekEnd(vol.g, vol.cache.disk, f, extent, j, Snap());
    }

    /** Follow links from the current cluster. */
    method Follow(steps: nat, ghost i: nat) returns (ok: bool, ghost j: nat)
      requires vol.Valid() && IsChain(Fat(vol.g, vol.cache.disk), vol.g.EocMin(), chain)
      requires Walked(vol.g, chain, i, curCluster)
      modifies this`curCluster, vol.cache.Repr()
      ensures vol.Valid() && vol.cache.disk == old(vol.cache.disk)
      ensures FatOnly(vol.g, old(vol.cache.State()), vol.cache.State()) && (vol.cache.dirty ==> old(vol.cache.dirty))
      ensures Walked(vol.g, chain, j, curCluster) && (ok ==> j == i + steps)
      ensures vol.cache.card.faults >= old(vol.cache.card.faults)
      ensures !ok ==> i <= j < i + steps && (vol.cache.Excused(old(vol.cache.card.faults)) || j == |chain|)
    {
      hide Fat, Layout.Fits, SdVolume.Valid, FatOnly, Walked, IsChain;
      assert this !in vol.Repr();
      var n := steps;
      j := i;
      while n > 0
        invariant vol.Valid() && vol.cache.disk == old(vol.cache.disk)
        invariant FatOnly(vol.g, old(vol.cache.State()), vol.cache.State())
                  && (vol.cache.dirty ==> old(vol.cache.dirty))
        invariant Walked(vol.g, chain, j, curCluster) && j + n == i + steps && i <= j
        invariant vol.cache.card.faults >= old(vol.cache.card.faults)
      {
        ghost var before, was := vol.cache.State(), curCluster;
        ok, curCluster := vol.FatGet(curCluster);
        FatOnlyTrans(vol.g, old(vol.cache.State()), before, vol.cache.State());
        if !ok {
          WalkStuck(vol.g, Fat(vol.g, vol.cache.disk), chain, j, was);
          return;
        }
        WalkStep(vol.g, Fat(vol.g, vol.cache.disk), chain, j, was);
        j := j + 1;
        n := n - 1;
      }
      ok := true;
    }

    /** The block that holds the byte at the current position. At the start of a cluster the
        current cluster moves on first. */
    method Locate() returns (ok: bool, block: nat)
      requires vol.Valid() && Readable(vol.g, vol.cache.disk, Snap()) && curPosition < fileSize
      modifies this`curCluster, vol.cache.Repr()
      ensures vol.Valid() && vol.cache.disk == old(vol.cache.disk)
      ensures FatOnly(vol.g, old(vol.cache.State()), vol.cache.State())
      ensures curPosition / BLOCK_SIZE < HomeBlocks(vol.g, fileType == Root16, chain)
      ensures ok ==> block == Home(vol.g, fileType == Root16, chain, curPosition / BLOCK_SIZE)
      ensures ok && fileType != Root16 ==> CursorAt(vol.g, chain, curPosition, curCluster)
      ensures ok && !AtBoundary(vol.g, curPosition) ==> curCluster == old(curCluster)
      ensures !ok ==> curCluster == old(curCluster)
      ensures fileType == Root16 ==> curCluster == old(curCluster)
      ensures vol.cache.card.faults >= old(vol.cache.card.faults)
      ensures !ok ==> vol.cache.Excused(old(vol.cache.card.faults))
    {
      hide Fat, Layout.Fits, SdVolume.Valid, FatOnly, CursorOn, CursorAt, IsChain;
      assert this !in vol.Repr();
      ContentsPiece(vol.g, vol.cache.disk, fileType == Root16, chain, fileSize, curPosition, 1);
      ok := true;
      if fileType == Root16 {
        block := vol.g.rootStart + curPosition / BLOCK_SIZE;
        return;
      }
      var blockOfCluster := curPosition / BLOCK_SIZE % vol.g.blocksPerCluster;
      if curPosition % BLOCK_SIZE == 0 && blockOfCluster == 0 {
        if curPosition == 0 {
          CursorFirst(vol.g, chain);
          curCluster := firstCluster;
        } else {
          CursorCrosses(vol.g, Fat(vol.g, vol.cache.disk), chain, curPosition, curCluster);
          ok, curCluster := vol.FatGet(curCluster);
          if !ok {
            return ok, 0;
          }
        }
      } else {
        CursorStays(vol.g, chain, curPosition, curCluster);
      }
      CursorBlock(vol.g, chain, curPosition, curCluster);
      block := ClusterStart(vol.g, curCluster) + blockOfCluster;
    }

    /** Read bytes of one block, past the cache if they are a whole block, or if the file is
        read unbuffered, and the block is not the cached one. */
    method Fetch(block: nat, off: nat, n: nat, dst: array<byte>, at: nat) returns (ok: bool)
      requires vol.Valid() && block < |vol.cache.disk| && !vol.g.IsFatBlock(block)
      requires 0 < n && off + n <= BLOCK_SIZE && at + n <= dst.Length && dst != vol.cache.buffer
      modifies vol.cache.Repr(), dst
      ensures vol.Valid() && vol.cache.disk == old(vol.cache.disk)
      ensures FatOnly(vol.g, old(vol.cache.State()), vol.cache.State())
      ensures dst[..] == if ok then Patch(old(dst[..]), at, vol.cache.disk[block][off..off + n]) else old(dst[..])
      ensures ok && !unbuffered && n < BLOCK_SIZE ==> vol.cache.blockNumber == block
      ensures (unbuffered || n == BLOCK_SIZE) && block != old(vol.cache.blockNumber) ==>
                vol.cache.State() == old(vol.cache.State())
      ensures vol.cache.card.faults >= old(vol.cache.card.faults)
      ensures !ok ==> vol.cache.Excused(old(vol.cache.card.faults))
    {
      hide Fat, Layout.Fits, Mirrored;
      if (unbuffered || n == BLOCK_SIZE) && block != vol.cache.blockNumber {
        if vol.cache.mirrorBlock != 0 {
          vol.MirrorIsFat();
        }
        ok := vol.cache.ReadThrough(block, off, n, dst, at);
      } else {
        ok := vol.cache.RawBlock(block, false);
        if ok {
          vol.cache.CopyOut(off, n, dst, at);
        }
      }
    }

    /** Read up to `nbyte` bytes from the current position on. The count comes back as a
        16-bit signed number, -1 stands for failure. */
    method Read(dst: array<byte>, nbyte: nat) returns (r: int, ghost done: bool)
      requires vol.Valid() && (fileType != Closed ==> Readable(vol.g, vol.cache.disk, Snap()))
      requires nbyte <= dst.Length && nbyte < TWO_16 && dst != vol.cache.buffer
      modifies this`curCluster, this`curPosition, vol.cache.Repr(), dst
      ensures vol.Valid() && vol.cache.disk == old(vol.cache.disk)
      ensures FatOnly(vol.g, old(vol.cache.State()), vol.cache.State())
      ensures fileType == Closed || !canRead ==> !done
      ensures done ==>
        && curPosition == old(curPosition) + (if nbyte <= fileSize - old(curPosition) then nbyte
                                                  else fileSize - old(curPosition))
        && r == Int16(curPosition - old(curPosition)) && Readable(vol.g, vol.cache.disk, Snap())
        && dst[..] == Patch(old(dst[..]), 0,
                            Contents(vol.g, vol.cache.disk, fileType == Root16, chain,
                                     fileSize)[old(curPosition)..curPosition])
      ensures !done ==> r == -1 && (fileType == Normal ==> CursorNear(vol.g, chain, curPosition, curCluster))
      ensures fileType != Closed ==> old(curPosition) <= curPosition <= fileSize
      ensures vol.cache.card.faults >= old(vol.cache.card.faults)
      ensures !done ==> vol.cache.Excused(old(vol.cache.card.faults)) || fileType == Closed || !canRead
    {
      hide Fat, Layout.Fits, SdVolume.Valid, BlockCache.Valid, FatOnly, CursorOn, CursorAt, Contents, Readable,
        HasBytes, Home, HomeBlocks, Patch;
      assert this !in vol.Repr();
      if fileType == Closed || !canRead {
        return -1, false;
      }
      var count := if nbyte > fileSize - curPosition then fileSize - curPosition else nbyte;
      var toRead := count;
      ghost var p, was := curPosition, dst[..];
      ghost var all := Contents(vol.g, vol.cache.disk, fileType == Root16, chain, fileSize);
      PatchNothing(was);
      assert all[p..p] == [];
      while toRead > 0
        invariant vol.Valid() && vol.cache.disk == old(vol.cache.disk)
        invariant FatOnly(vol.g, old(vol.cache.State()), vol.cache.State())
        invariant 0 <= toRead <= count && curPosition == p + count - toRead <= fileSize
        invariant Readable(vol.g, vol.cache.disk, Snap())
        invariant dst[..] == Patch(was, 0, all[p..curPosition])
        invariant vol.cache.card.faults >= old(vol.cache.card.faults)
      {
        ghost var before, at := vol.cache.State(), curPosition;
        var n := ReadPiece(dst, count - toRead, toRead, all);
        FatOnlyTrans(vol.g, old(vol.cache.State()), before, vol.cache.State());
        if n == 0 {
          return -1, false;
        }
        PatchTwice(was, 0, all[p..at], all[at..curPosition]);
        assert all[p..curPosition] == all[p..at] + all[at..curPosition];
        toRead := toRead - n;
      }
      return Int16(count), true;
    }

    /** Read what the current block has of the `toRead` bytes still wanted; 0 on failure. */
    method ReadPiece(dst: array<byte>, at: nat, toRead: nat, ghost all: seq<byte>) returns (n: nat)
      requires vol.Valid() && fileType != Closed && Readable(vol.g, vol.cache.disk, Snap())
      requires all == Contents(vol.g, vol.cache.disk, fileType == Root16, chain, fileSize)
      requires 0 < toRead <= fileSize - curPosition && at + toRead <= dst.Length && dst != vol.cache.buffer
      modifies this`curCluster, this`curPosition, vol.cache.Repr(), dst
      ensures vol.Valid() && vol.cache.disk == old(vol.cache.disk)
      ensures FatOnly(vol.g, old(vol.cache.State()), vol.cache.State())
      ensures n <= toRead && curPosition == old(curPosition) + n
      ensures n > 0 ==> Readable(vol.g, vol.cache.disk, Snap())
                        && dst[..] == Patch(old(dst[..]), at, all[old(curPosition)..curPosition])
      ensures n > 0 ==> old(curPosition) / BLOCK_SIZE < HomeBlocks(vol.g, fileType == Root16, chain)
      ensures 0 < n < BLOCK_SIZE && !unbuffered ==>
                vol.cache.blockNumber == Home(vol.g, fileType == Root16, chain,
                                              old(curPosition) / BLOCK_SIZE) < |vol.cache.disk|
      ensures n == 0 && fileType == Normal ==> CursorNear(vol.g, chain, curPosition, curCluster)
      ensures vol.cache.card.faults >= old(vol.cache.card.faults)
      ensures n == 0 ==> vol.cache.Excused(old(vol.cache.card.faults))
    {
      hide Fat, Layout.Fits, SdVolume.Valid, BlockCache.Valid, FatOnly, CursorOn, CursorAt, Contents, Readable,
        HasBytes, Home, HomeBlocks, Patch;
      assert this !in vol.Repr();
      ghost var f := Snap();
      var ok, block := Locate();
      if !ok {
        return 0;
      }
      var offset := curPosition % BLOCK_SIZE;
      n := if toRead > BLOCK_SIZE - offset then BLOCK_SIZE - offset else toRead;
      ContentsPiece(vol.g, vol.cache.disk, fileType == Root16, chain, fileSize, curPosition, n);
      ghost var before := vol.cache.State();
      ok := Fetch(block, offset, n, dst, at);
      FatOnlyTrans(vol.g, old(vol.cache.State()), before, vol.cache.State());
      if !ok {
        return 0;
      }
      curPosition := curPosition + n;
      ReadableAdvances(vol.g, vol.cache.disk, f, Snap(), n);
    }

    /** Add a cluster at the end of the chain, and note a first cluster for the directory. */
    method AddCluster() returns (ok: bool)
      requires vol.Valid() && AtEnd(Fat(vol.g, vol.cache.disk), vol.g.EocMin(), firstCluster, chain, curCluster)
      requires InRange(vol.g, chain)
      modifies this`curCluster, this`firstCluster, this`dirDirty, this`chain, vol`allocSearchStart, vol.cache.Repr()
      ensures vol.Valid() && FatOnly(vol.g, old(vol.cache.State()), vol.cache.State())
      ensures FatConfined(old(Fat(vol.g, vol.cache.disk)), Fat(vol.g, vol.cache.disk), old(chain), chain)
      ensures FormKept(old(Fat(vol.g, vol.cache.disk)), Fat(vol.g, vol.cache.disk), vol.g.EocMin(), old(chain), chain)
      ensures HasChain(Fat(vol.g, vol.cache.disk), vol.g.EocMin(), firstCluster, chain)
      ensures InRange(vol.g, chain) && Unique(chain)
      ensures ok ==> chain == old(chain) + [curCluster] && vol.g.IsFatBlock(vol.cache.blockNumber)
      ensures !ok ==> chain == old(chain) && curCluster == old(curCluster)
      ensures if old(firstCluster) == 0 && ok then firstCluster == curCluster && dirDirty
              else firstCluster == old(firstCluster) && dirDirty == old(dirDirty)
      ensures vol.cache.card.faults >= old(vol.cache.card.faults)
      ensures !ok ==> vol.cache.Excused(old(vol.cache.card.faults)) || AllInUse(Fat(vol.g, vol.cache.disk))
    {
      hide Fat, Layout.Fits, SdVolume.Valid, BlockCache.Valid, FatOnly, FatConfined, FormKept, HasChain, Allocated,
        IsChain, OrphanRun, NoRun, AllInUse;
      assert this !in vol.Repr();
      ghost var fat, eoc := Fat(vol.g, vol.cache.disk), vol.g.EocMin();
      AtEndInRange(fat, eoc, firstCluster, chain, curCluster);
      var r, cluster := vol.AllocContiguous(1, curCluster);
      ok := r == Done;
      if !ok {
        if r == Refused {
          NoneIsFree(fat);
        }
        assert OrphanRun(fat, Fat(vol.g, vol.cache.disk), EndMark(vol.g)) by {
          if r == Refused {
            OrphanNone(fat, EndMark(vol.g));
          }
        }
        GrowFails(fat, Fat(vol.g, vol.cache.disk), eoc, EndMark(vol.g), firstCluster, chain);
        return;
      }
      GrowChain(fat, eoc, firstCluster, chain, curCluster, cluster, EndMark(vol.g));
      curCluster := cluster;
      chain := chain + [cluster];
      if firstCluster == 0 {
        firstCluster := curCluster;
        dirDirty := true;
      }
    }

    /** `AddCluster` for a regular file, at a position just past its chain. */
    method Grow() returns (ok: bool)
      requires vol.Valid() && fileType == Normal && Sound(vol.g, vol.cache.disk, Snap(), Extent())
      requires AtEnd(Fat(vol.g, vol.cache.disk), vol.g.EocMin(), firstCluster, chain, curCluster)
      requires curPosition / BLOCK_SIZE == Blocks(vol.g, chain)
      modifies this`curCluster, this`firstCluster, this`dirDirty, this`chain, vol`allocSearchStart, vol.cache.Repr()
      ensures vol.Valid() && Sound(vol.g, vol.cache.disk, Snap(), Extent()) && old(chain) <= chain
      ensures FileBytes(vol.g, vol.cache.disk, chain, Extent()) ==
                old(FileBytes(vol.g, vol.cache.disk, chain, Extent()))
      ensures Confined(vol.g, old(vol.cache.State()), vol.cache.State(), old(chain), chain, dirBlock, dirIndex)
      ensures FatOnly(vol.g, old(vol.cache.State()), vol.cache.State())
      ensures ok ==> CursorAt(vol.g, chain, curPosition, curCluster) && vol.g.IsFatBlock(vol.cache.blockNumber)
      ensures !ok ==> chain == old(chain) && curCluster == old(curCluster)
      ensures vol.cache.card.faults >= old(vol.cache.card.faults)
      ensures !ok ==> vol.cache.Excused(old(vol.cache.card.faults)) || AllInUse(Fat(vol.g, vol.cache.disk))
    {
      hide Fat, Layout.Fits, SdVolume.Valid, BlockCache.Valid, FatOnly, FatConfined, FormKept, CursorAt, Confined,
        FileBytes, AtEnd, HasChain, Sound;
      assert this !in vol.Repr();
      ghost var f, s, extent := Snap(), vol.cache.State(), Extent();
      SoundFacts(vol.g, s.disk, f, extent);
      ok := AddCluster();
      SoundGrows(vol.g, s, vol.cache.State(), f, Snap(), extent);
      if ok {
        CursorGrown(vol.g, f.chain, chain, curPosition, curCluster);
      }
    }

    /** Make the current cluster the one that holds the byte at the current position, adding
        one to the chain if the file ends there. */
    method EnterBlock() returns (r: Progress)
      requires vol.Valid() && fileType == Normal && Sound(vol.g, vol.cache.disk, Snap(), Extent())
      requires CursorOn(vol.g, chain, curPosition, curCluster)
      modifies this`curCluster, this`firstCluster, this`dirDirty, this`chain, vol`allocSearchStart, vol.cache.Repr()
      ensures vol.Valid() && Sound(vol.g, vol.cache.disk, Snap(), Extent()) && old(chain) <= chain
      ensures FileBytes(vol.g, vol.cache.disk, chain, Extent()) ==
                old(FileBytes(vol.g, vol.cache.disk, chain, Extent()))
      ensures Confined(vol.g, old(vol.cache.State()), vol.cache.State(), old(chain), chain, dirBlock, dirIndex)
      ensures FatOnly(vol.g, old(vol.cache.State()), vol.cache.State())
      ensures r == Going ==> CursorAt(vol.g, chain, curPosition, curCluster)
                             && EnterQuiet(vol.g, old(vol.cache.State()), vol.cache.State(), old(chain), chain,
                                           curPosition)
      ensures r != Going ==> chain == old(chain) && curCluster == old(curCluster)
      ensures vol.cache.card.faults >= old(vol.cache.card.faults)
      ensures r != Going ==> vol.cache.Excused(old(vol.cache.card.faults)) || AllInUse(Fat(vol.g, vol.cache.disk))
    {
      hide Fat, Layout.Fits, SdVolume.Valid, BlockCache.Valid, FatOnly, FatConfined, CursorOn, CursorAt, IsChain,
        Confined, FileBytes, Sound, AtEnd, HasChain;
      assert this !in vol.Repr();
      ghost var s := vol.cache.State();
      SoundFacts(vol.g, s.disk, Snap(), Extent());
      CursorZero(vol.g, chain, curPosition, curCluster);
      ConfinedQuiet(vol.g, s, s, chain, dirBlock, dirIndex);
      r := Going;
      if curPosition % BLOCK_SIZE != 0 || curPosition / BLOCK_SIZE % vol.g.blocksPerCluster != 0 {
        CursorStays(vol.g, chain, curPosition, curCluster);
      } else if curCluster != 0 {
        r := NextCluster();
      } else if firstCluster == 0 {
        AtEndEmpty(Fat(vol.g, s.disk), vol.g.EocMin());
        var ok := Grow();
        r := if ok then Going else Failed;
      } else {
        FirstOf(Fat(vol.g, s.disk), vol.g.EocMin(), firstCluster, chain);
        CursorFirst(vol.g, chain);
        curCluster := firstCluster;
        SoundMoves(vol.g, s.disk, old(Snap()), Extent(), Snap(), Extent());
      }
    }

    /** Go on to the next cluster of the chain, adding one if there is none. */
    method NextCluster() returns (r: Progress)
      requires vol.Valid() && fileType == Normal && Sound(vol.g, vol.cache.disk, Snap(), Extent())
      requires CursorOn(vol.g, chain, curPosition, curCluster) && AtBoundary(vol.g, curPosition) && curPosition > 0
      modifies this`curCluster, this`firstCluster, this`dirDirty, this`chain, vol`allocSearchStart, vol.cache.Repr()
      ensures vol.Valid() && Sound(vol.g, vol.cache.disk, Snap(), Extent()) && old(chain) <= chain
      ensures FileBytes(vol.g, vol.cache.disk, chain, Extent()) ==
                old(FileBytes(vol.g, vol.cache.disk, chain, Extent()))
      ensures Confined(vol.g, old(vol.cache.State()), vol.cache.State(), old(chain), chain, dirBlock, dirIndex)
      ensures FatOnly(vol.g, old(vol.cache.State()), vol.cache.State())
      ensures r == Going ==> CursorAt(vol.g, chain, curPosition, curCluster) && vol.g.IsFatBlock(vol.cache.blockNumber)
      ensures r != Going ==> chain == old(chain) && curCluster == old(curCluster)
      ensures vol.cache.card.faults >= old(vol.cache.card.faults)
      ensures r != Going ==> vol.cache.Excused(old(vol.cache.card.faults)) || AllInUse(Fat(vol.g, vol.cache.disk))
    {
      hide Fat, Layout.Fits, SdVolume.Valid, BlockCache.Valid, FatConfined, CursorOn, CursorAt, IsChain, Confined,
        FileBytes, Sound, AtEnd, HasChain;
      assert this !in vol.Repr();
      ghost var s := vol.cache.State();
      SoundFacts(vol.g, s.disk, Snap(), Extent());
      CursorCrosses(vol.g, Fat(vol.g, s.disk), chain, curPosition, curCluster);
      var ok, next := vol.FatGet(curCluster);
      ghost var s1 := vol.cache.State();
      ConfinedQuiet(vol.g, s, s1, chain, dirBlock, dirIndex);
      if !ok {
        r := LinkFailed;
      } else if vol.g.IsEoc(next) {
        AtEndLast(Fat(vol.g, s.disk), vol.g.EocMin(), firstCluster, chain, curCluster);
        ok := Grow();
        ConfinedTrans(vol.g, s, s1, vol.cache.State(), old(chain), old(chain), chain, dirBlock, dirIndex);
        FatOnlyTrans(vol.g, s, s1, vol.cache.State());
        r := if ok then Going else Failed;
      } else {
        curCluster := next;
        r := Going;
        SoundMoves(vol.g, s.disk, old(Snap()), Extent(), Snap(), Extent());
      }
    }

    /** Store bytes in a block: a whole block goes straight to the card, part of one goes
        through the cache, which reads the block first unless it is new. */
    method PutBytes(block: nat, offset: nat, src: seq<byte>, isNew: bool) returns (ok: bool)
      requires vol.Valid() && 0 < block < |vol.cache.disk| && !vol.g.IsFatBlock(block)
      requires 0 < |src| && offset + |src| <= BLOCK_SIZE
      modifies vol.cache.Repr()
      ensures vol.Valid() && |vol.cache.disk| == |old(vol.cache.disk)|
      ensures forall b :: 0 <= b < |vol.cache.disk| && b != block ==> vol.cache.disk[b] == old(vol.cache.disk)[b]
      ensures ok ==> vol.cache.disk[block] == Patch(old(vol.cache.disk)[block], offset, src)
                     || (isNew && offset == 0 && vol.cache.disk[block][..|src|] == src)
      ensures !ok && |src| < BLOCK_SIZE ==> vol.cache.disk == old(vol.cache.disk)
      ensures DirtyHere(old(vol.cache.State()), vol.cache.State(), block)
      ensures old(vol.cache.Stranded()) ==> vol.cache.Stranded()
      ensures ok ==> StoredHere(old(vol.cache.State()), vol.cache.State(), block, |src|)
      ensures vol.cache.card.faults >= old(vol.cache.card.faults)
      ensures !ok ==> vol.cache.Excused(old(vol.cache.card.faults))
    {
      hide Fat, Layout.Fits, SdVolume.Valid, BlockCache.Valid, Mirrored;
      if |src| == BLOCK_SIZE {
        ok := PutWhole(block, src);
        assert src == Patch(old(vol.cache.disk)[block], offset, src);
      } else {
        ok := PutPart(block, offset, src, isNew);
      }
    }

    method PutWhole(block: nat, src: Block) returns (ok: bool)
      requires vol.Valid() && 0 < block < |vol.cache.disk| && !vol.g.IsFatBlock(block)
      modifies vol.cache.Repr()
      ensures vol.Valid() && |vol.cache.disk| == |old(vol.cache.disk)|
      ensures forall b :: 0 <= b < |vol.cache.disk| && b != block ==> vol.cache.disk[b] == old(vol.cache.disk)[b]
      ensures ok ==> vol.cache.disk[block] == src
      ensures vol.cache.dirty == old(vol.cache.dirty)
      ensures vol.cache.blockNumber ==
                if old(vol.cache.blockNumber) == block then NO_BLOCK else old(vol.cache.blockNumber)
      ensures vol.cache.card.faults >= old(vol.cache.card.faults)
      ensures !ok ==> vol.cache.Excused(old(vol.cache.card.faults))
    {
      hide Fat, Layout.Fits, Mirrored, BlockCache.Valid;
      if vol.cache.mirrorBlock != 0 {
        vol.MirrorIsFat();
      }
      ghost var d := vol.cache.disk;
      ok := vol.cache.WriteThrough(block, src);
      DataKeepsFat(vol.g, d, vol.cache.disk, block);
    }

    method PutPart(block: nat, offset: nat, src: seq<byte>, isNew: bool) returns (ok: bool)
      requires vol.Valid() && 0 < block < |vol.cache.disk| && !vol.g.IsFatBlock(block)
      requires offset + |src| <= BLOCK_SIZE
      modifies vol.cache.Repr()
      ensures vol.Valid() && |vol.cache.disk| == |old(vol.cache.disk)|
      ensures forall b :: 0 <= b < |vol.cache.disk| && b != block ==> vol.cache.disk[b] == old(vol.cache.disk)[b]
      ensures ok ==> vol.cache.disk[block] == Patch(old(vol.cache.disk)[block], offset, src)
                     || (isNew && offset == 0 && vol.cache.disk[block][..|src|] == src)
      ensures ok ==> vol.cache.blockNumber == block && !old(vol.cache.Stranded())
      ensures !ok ==> vol.cache.disk == old(vol.cache.disk) && vol.cache.blockNumber == old(vol.cache.blockNumber)
      ensures !ok && vol.cache.dirty ==> old(vol.cache.dirty)
      ensures !ok && old(vol.cache.Stranded()) ==> vol.cache.Stranded()
      ensures vol.cache.card.faults >= old(vol.cache.card.faults)
      ensures !ok ==> vol.cache.Excused(old(vol.cache.card.faults))
    {
      hide Fat, Layout.Fits, Mirrored, BlockCache.Valid;
      if vol.cache.mirrorBlock != 0 {
        vol.MirrorIsFat();
      }
      ghost var d := vol.cache.disk;
      if isNew && offset == 0 {
        ok := vol.cache.Adopt(block);
      } else {
        ok := vol.cache.RawBlock(block, true);
      }
      if ok {
        vol.cache.CopyIn(offset, src);
        DataKeepsFat(vol.g, d, vol.cache.disk, block);
      }
    }

    /** Store a piece that fits in the current block, and move on past it. */
    method StorePiece(piece: seq<byte>) returns (ok: bool)
      requires vol.Valid() && fileType == Normal && Sound(vol.g, vol.cache.disk, Snap(), Extent())
      requires CursorAt(vol.g, chain, curPosition, curCluster) && TailClean(vol.g, vol.cache.State(), chain, Extent())
      requires 0 < |piece| && curPosition % BLOCK_SIZE + |piece| <= BLOCK_SIZE && curPosition + |piece| < TWO_32
      modifies this`curPosition, vol.cache.Repr()
      ensures vol.Valid() && Sound(vol.g, vol.cache.disk, Snap(), Extent())
      ensures Confined(vol.g, old(vol.cache.State()), vol.cache.State(), chain, chain, dirBlock, dirIndex)
      ensures !ok ==> curPosition == old(curPosition)
                      && OutsideKept(old(FileBytes(vol.g, vol.cache.disk, chain, Extent())),
                                     FileBytes(vol.g, vol.cache.disk, chain, Extent()), curPosition, |piece|)
      ensures ok ==> curPosition == old(curPosition) + |piece| && CursorOn(vol.g, chain, curPosition, curCluster)
      ensures ok ==> TailClean(vol.g, vol.cache.State(), chain, Extent())
      ensures ok ==> FileBytes(vol.g, vol.cache.disk, chain, Extent()) ==
                     Splice(old(FileBytes(vol.g, vol.cache.disk, chain, Extent())), old(curPosition), piece)
      ensures ok ==> StoredHere(old(vol.cache.State()), vol.cache.State(),
                                BlockAt(vol.g, chain, old(curPosition) / BLOCK_SIZE), |piece|)
      ensures vol.cache.card.faults >= old(vol.cache.card.faults)
      ensures !ok ==> vol.cache.Excused(old(vol.cache.card.faults))
    {
      hide Fat, Layout.Fits, SdVolume.Valid, BlockCache.Valid, CursorOn, FileBytes, Sound, Confined, TailClean, Splice,
        Patch, StoredHere, DirtyHere, BlockAt, OutsideKept, BlockCache.Excused;
      assert this !in vol.Repr();
      ghost var f, s := Snap(), vol.cache.State();
      SoundFacts(vol.g, s.disk, f, Extent());
      CursorBlock(vol.g, chain, curPosition, curCluster);
      BlockAtOwned(vol.g, |s.disk|, chain, curPosition / BLOCK_SIZE);
      var block := ClusterStart(vol.g, curCluster) + curPosition / BLOCK_SIZE % vol.g.blocksPerCluster;
      ok := PutBytes(block, curPosition % BLOCK_SIZE, piece, curPosition >= fileSize);
      if ok {
        CursorAdvances(vol.g, chain, curPosition, curCluster, |piece|);
        PieceStored(vol.g, s, vol.cache.State(), f, piece, vol.cache.disk[block]);
        curPosition := curPosition + |piece|;
      } else {
        BlockChanged(vol.g, s, vol.cache.State(), f, Extent());
        PieceFailed(vol.g, s, vol.cache.State(), f, |piece|);
      }
    }

    /** Store `src` at the current position, piece by piece. */
    method StoreAll(src: seq<byte>) returns (r: Progress)
      requires vol.Valid() && fileType == Normal && Sound(vol.g, vol.cache.disk, Snap(), Extent())
      requires CursorOn(vol.g, chain, curPosition, curCluster) && TailClean(vol.g, vol.cache.State(), chain, Extent())
      requires curPosition + |src| < TWO_32
      modifies this`curCluster, this`firstCluster, this`dirDirty, this`chain, this`curPosition
      modifies vol`allocSearchStart, vol.cache.Repr()
      ensures vol.Valid() && Sound(vol.g, vol.cache.disk, Snap(), Extent())
      ensures Confined(vol.g, old(vol.cache.State()), vol.cache.State(), old(chain), chain, dirBlock, dirIndex)
      ensures r == Going ==>
        && curPosition == old(curPosition) + |src| && CursorOn(vol.g, chain, curPosition, curCluster)
        && TailClean(vol.g, vol.cache.State(), chain, Extent())
        && FileBytes(vol.g, vol.cache.disk, chain, Extent()) ==
           Splice(old(FileBytes(vol.g, vol.cache.disk, chain, Extent())), old(curPosition), src)
        && (vol.cache.Stranded() <==>
              old(vol.cache.Stranded() || Hits(vol.g, vol.cache.State(), chain, curPosition, |src|)))
      ensures r != Going ==>
                CursorLoose(vol.g, chain, curPosition, curCluster)
                && OutsideKept(old(FileBytes(vol.g, vol.cache.disk, chain, Extent())),
                               FileBytes(vol.g, vol.cache.disk, chain, Extent()), old(curPosition), |src|)
      ensures vol.cache.card.faults >= old(vol.cache.card.faults)
      ensures r != Going ==> vol.cache.Excused(old(vol.cache.card.faults)) || AllInUse(Fat(vol.g, vol.cache.disk))
    {
      hide Fat, Layout.Fits, SdVolume.Valid, BlockCache.Valid, CursorOn, CursorLoose, FileBytes, Sound, Confined,
        TailClean, Splice, Hits, OutsideKept;
      assert this !in vol.Repr();
      ghost var s0, p, was := vol.cache.State(), curPosition, FileBytes(vol.g, vol.cache.disk, chain, Extent());
      var nToWrite := |src|;
      ConfinedQuiet(vol.g, s0, s0, chain, dirBlock, dirIndex);
      SpliceNothing(was, p);
      assert src[..0] == [];
      while nToWrite > 0
        invariant vol.Valid() && Sound(vol.g, vol.cache.disk, Snap(), Extent()) && old(chain) <= chain
        invariant 0 <= nToWrite <= |src| && curPosition == p + |src| - nToWrite
        invariant CursorOn(vol.g, chain, curPosition, curCluster)
                  && TailClean(vol.g, vol.cache.State(), chain, Extent())
        invariant Confined(vol.g, s0, vol.cache.State(), old(chain), chain, dirBlock, dirIndex)
        invariant FileBytes(vol.g, vol.cache.disk, chain, Extent()) == Splice(was, p, src[..|src| - nToWrite])
        invariant old(vol.cache.Stranded() || Hits(vol.g, vol.cache.State(), chain, curPosition, |src|)) <==>
                  (vol.cache.Stranded() || Hits(vol.g, vol.cache.State(), chain, curPosition, nToWrite))
        invariant vol.cache.card.faults >= old(vol.cache.card.faults)
      {
        ghost var s1, c1, done := vol.cache.State(), chain, |src| - nToWrite;
        var n;
        r, n := StoreNext(src, |src| - nToWrite);
        ConfinedTrans(vol.g, s0, s1, vol.cache.State(), old(chain), c1, chain, dirBlock, dirIndex);
        if r != Going {
          OutsideSplice(was, FileBytes(vol.g, vol.cache.disk, chain, Extent()), p, src, done, |src| - done);
          return;
        }
        SpliceTwice(was, p, src[..done], src[done..done + n]);
        assert src[..done] + src[done..done + n] == src[..done + n];
        nToWrite := nToWrite - n;
      }
      assert src[..|src|] == src;
      HitsNot(vol.g, |s0.disk|, vol.cache.State(), chain, curPosition, 0);
      r := Going;
    }

    /** One turn of the loop: enter the block at the current position and store what fits. */
    method StoreNext(src: seq<byte>, done: nat) returns (r: Progress, n: nat)
      requires vol.Valid() && fileType == Normal && Sound(vol.g, vol.cache.disk, Snap(), Extent())
      requires CursorOn(vol.g, chain, curPosition, curCluster) && TailClean(vol.g, vol.cache.State(), chain, Extent())
      requires done < |src| && curPosition + |src| - done < TWO_32
      modifies this`curCluster, this`firstCluster, this`dirDirty, this`chain, this`curPosition
      modifies vol`allocSearchStart, vol.cache.Repr()
      ensures vol.Valid() && Sound(vol.g, vol.cache.disk, Snap(), Extent()) && old(chain) <= chain
      ensures Confined(vol.g, old(vol.cache.State()), vol.cache.State(), old(chain), chain, dirBlock, dirIndex)
      ensures r == Going ==>
        && 0 < n && done + n <= |src| && curPosition == old(curPosition) + n
        && CursorOn(vol.g, chain, curPosition, curCluster)
        && TailClean(vol.g, vol.cache.State(), chain, Extent())
        && FileBytes(vol.g, vol.cache.disk, chain, Extent()) ==
           Splice(old(FileBytes(vol.g, vol.cache.disk, chain, Extent())), old(curPosition), src[done..done + n])
        && (old(vol.cache.Stranded() || Hits(vol.g, vol.cache.State(), chain, curPosition, |src| - done)) <==>
            (vol.cache.Stranded() || Hits(vol.g, vol.cache.State(), chain, curPosition, |src| - done - n)))
      ensures r != Going ==>
                CursorLoose(vol.g, chain, curPosition, curCluster)
                && OutsideKept(old(FileBytes(vol.g, vol.cache.disk, chain, Extent())),
                               FileBytes(vol.g, vol.cache.disk, chain, Extent()), old(curPosition), |src| - done)
      ensures vol.cache.card.faults >= old(vol.cache.card.faults)
      ensures r != Going ==> vol.cache.Excused(old(vol.cache.card.faults)) || AllInUse(Fat(vol.g, vol.cache.disk))
    {
      hide Fat, Layout.Fits, SdVolume.Valid, BlockCache.Valid, CursorOn, FileBytes, Sound, Confined, TailClean, Splice,
        Hits, CursorAt, CursorLoose, EnterQuiet, StoredHere, FatOnly, BlockAt, OutsideKept;
      assert this !in vol.Repr();
      ghost var s0, c0, p, extent := vol.cache.State(), chain, curPosition, Extent();
      OnIsLoose(vol.g, chain, curPosition, curCluster);
      r := EnterBlock();
      ghost var entered := FileBytes(vol.g, vol.cache.disk, chain, extent);
      OutsideSame(entered, p, |src| - done);
      if r != Going {
        return r, 0;
      }
      OnIsLoose(vol.g, chain, curPosition, curCluster);
      TailEnter(vol.g, |s0.disk|, s0, vol.cache.State(), c0, chain, p, extent);
      ghost var s1 := vol.cache.State();
      n := if |src| - done < BLOCK_SIZE - curPosition % BLOCK_SIZE then |src| - done
           else BLOCK_SIZE - curPosition % BLOCK_SIZE;
      var ok := StorePiece(src[done..done + n]);
      ConfinedTrans(vol.g, s0, s1, vol.cache.State(), c0, chain, chain, dirBlock, dirIndex);
      if ok {
        HitsTurn(vol.g, |s0.disk|, s0, s1, vol.cache.State(), c0, chain, p, curCluster, |src| - done, n);
      } else {
        OutsideFewer(entered, FileBytes(vol.g, vol.cache.disk, chain, extent), p, n, |src| - done);
      }
      r := if ok then Going else Failed;
    }

    /** Put size and first cluster into the cached directory entry. */
    method UpdateEntry() returns (ok: bool)
      requires vol.Valid() && fileType == Normal && Sound(vol.g, vol.cache.disk, Snap(), Extent())
      modifies this`dirDirty, vol.cache.Repr()
      ensures vol.Valid() && Sound(vol.g, vol.cache.disk, Snap(), Extent())
      ensures FileBytes(vol.g, vol.cache.disk, chain, Extent()) ==
                old(FileBytes(vol.g, vol.cache.disk, chain, Extent()))
      ensures Confined(vol.g, old(vol.cache.State()), vol.cache.State(), chain, chain, dirBlock, dirIndex)
      ensures old(TailClean(vol.g, vol.cache.State(), chain, Extent())) ==>
                TailClean(vol.g, vol.cache.State(), chain, Extent())
      ensures Fat(vol.g, vol.cache.disk) == old(Fat(vol.g, vol.cache.disk))
      ensures if ok then !dirDirty && !old(vol.cache.Stranded()) else dirDirty == old(dirDirty)
      ensures vol.cache.card.faults >= old(vol.cache.card.faults)
      ensures !ok ==> vol.cache.Excused(old(vol.cache.card.faults))
    {
      hide Fat, Layout.Fits, SdVolume.Valid, BlockCache.Valid, FileBytes, Sound, Confined, TailClean, SetFields;
      assert this !in vol.Repr();
      ghost var f, s := Snap(), vol.cache.State();
      FirstFits(vol.g, s.disk, f, Extent());
      ok := CacheDirEntry();
      if !ok {
        ConfinedQuiet(vol.g, s, vol.cache.State(), chain, dirBlock, dirIndex);
        QuietTail(vol.g, s, vol.cache.State(), chain, Extent());
        return;
      }
      StoreInEntry(SetFields(vol.cache.buffer[..], dirIndex, firstCluster, fileSize));
      dirDirty := false;
      EntryUpdated(vol.g, s, vol.cache.State(), f, Snap(), Extent());
    }

    /** Bring the block with the directory entry into the cache, for writing. */
    method CacheDirEntry() returns (ok: bool)
      requires vol.Valid() && 0 < dirBlock < |vol.cache.disk| && !vol.g.IsFatBlock(dirBlock)
      modifies vol.cache.Repr()
      ensures vol.Valid() && vol.cache.disk == old(vol.cache.disk)
      ensures ok ==> vol.cache.blockNumber == dirBlock && vol.cache.dirty && vol.cache.mirrorBlock == 0
      ensures ok ==> vol.cache.buffer.Length == BLOCK_SIZE && vol.cache.buffer[..] == vol.cache.disk[dirBlock]
      ensures ok ==> !old(vol.cache.Stranded())
      ensures !ok ==> vol.cache.blockNumber == old(vol.cache.blockNumber) && (vol.cache.dirty ==> old(vol.cache.dirty))
      ensures !ok && old(vol.cache.Stranded()) ==> vol.cache.Stranded()
      ensures vol.cache.card.faults >= old(vol.cache.card.faults)
      ensures !ok ==> vol.cache.Excused(old(vol.cache.card.faults))
    {
      hide Fat, Layout.Fits, Mirrored;
      ok := vol.cache.RawBlock(dirBlock, true);
      if vol.cache.mirrorBlock != 0 {
        vol.MirrorIsFat();
      }
    }

    /** Replace the cached directory block. */
    method StoreInEntry(contents: Block)
      requires vol.Valid() && 0 < vol.cache.blockNumber < |vol.cache.disk| && !vol.g.IsFatBlock(vol.cache.blockNumber)
      modifies vol.cache.Repr()
      ensures vol.Valid() && vol.cache.disk == old(vol.cache.disk[vol.cache.blockNumber := contents])
      ensures vol.cache.blockNumber == old(vol.cache.blockNumber) && vol.cache.dirty
      ensures vol.cache.card.faults == old(vol.cache.card.faults)
    {
      hide Fat, Layout.Fits, Mirrored, BlockCache.Valid;
      ghost var d := vol.cache.disk;
      if vol.cache.mirrorBlock != 0 {
        vol.MirrorIsFat();
      }
      vol.cache.Replace(contents, 0);
      DataKeepsFat(vol.g, d, vol.cache.disk, vol.cache.blockNumber);
    }

    /** Everything was written out, and the card alone, without the cache, holds the file: its entry,
        its chain and its bytes. */
    ghost predicate IsSaved()
      reads Repr()
    {
      var card := vol.cache.card.blocks;
      && !dirDirty && !vol.cache.dirty && card == vol.cache.disk && vol.g.Fits(|card|)
      && InRange(vol.g, chain) && Room(vol.g, chain, fileSize) && dirBlock < |card| && dirIndex < 16
      && OnCard(vol.g, card, dirBlock, dirIndex, FileBytes(vol.g, card, chain, fileSize))
    }

    /** Write out everything: afterwards the card alone holds the file, and both FATs agree if
        they did when the volume was mounted. On a stranded cache it fails, now and for ever. */
    method Sync() returns (ok: bool)
      requires vol.Valid() && (fileType == Normal ==> Sound(vol.g, vol.cache.disk, Snap(), Extent()))
      requires IsDir() ==> DirGood(vol.g, vol.cache.disk, Snap())
      modifies this`dirDirty, vol.cache.Repr()
      ensures vol.Valid() && (fileType == Closed ==> !ok)
      ensures fileType != Normal ==> vol.cache.disk == old(vol.cache.disk) && Snap() == old(Snap())
      ensures fileType == Normal ==>
        && Sound(vol.g, vol.cache.disk, Snap(), Extent())
        && FileBytes(vol.g, vol.cache.disk, chain, Extent()) == old(FileBytes(vol.g, vol.cache.disk, chain, Extent()))
        && Confined(vol.g, old(vol.cache.State()), vol.cache.State(), chain, chain, dirBlock, dirIndex)
        && (old(TailClean(vol.g, vol.cache.State(), chain, Extent())) ==>
              TailClean(vol.g, vol.cache.State(), chain, Extent()))
      ensures Fat(vol.g, vol.cache.disk) == old(Fat(vol.g, vol.cache.disk))
      ensures ok ==> !dirDirty && !vol.cache.dirty && vol.cache.card.blocks == vol.cache.disk
      ensures ok && fileType == Normal ==> IsSaved()
      ensures ok && vol.mirrored ==> Mirrored(vol.g, vol.cache.card.blocks)
      ensures old(vol.cache.Stranded()) ==> !ok && vol.cache.Stranded()
      ensures vol.cache.card.faults >= old(vol.cache.card.faults)
      ensures !ok ==> vol.cache.Excused(old(vol.cache.card.faults)) || fileType == Closed
    {
      hide Fat, Layout.Fits, SdVolume.Valid, BlockCache.Valid, FileBytes, Sound, Confined, TailClean, OnCard, Mirrored,
        DirGood;
      assert this !in vol.Repr();
      if fileType == Closed {
        return false;
      }
      ghost var s0 := vol.cache.State();
      if fileType == Normal {
        ConfinedQuiet(vol.g, s0, s0, chain, dirBlock, dirIndex);
      }
      if dirDirty {
        ok := UpdateEntry();
        if !ok {
          return;
        }
      }
      ghost var s1 := vol.cache.State();
      ok := vol.FlushAll();
      if fileType == Normal {
        ConfinedQuiet(vol.g, s1, vol.cache.State(), chain, dirBlock, dirIndex);
        ConfinedTrans(vol.g, s0, s1, vol.cache.State(), chain, chain, chain, dirBlock, dirIndex);
        QuietTail(vol.g, s1, vol.cache.State(), chain, Extent());
        if ok {
          SyncedIsOnCard(vol.g, vol.cache.disk, Snap(), Extent());
        }
      }
    }

    /** Write at the current position, or at the end of the file in append mode. The file's
        bytes are spliced and nobody else's are touched; the cache ends up stranded exactly
        if it was, or if the write hit its dirty block. The error flag is of no use to tell
        how it went: it is set on success too, and not set when a link cannot be read. If every
        write is to be synchronized, the card alone holds the file after a success. */
    method Write(src: seq<byte>) returns (r: Progress)
      requires Valid() && |src| < TWO_16
      requires (if append then fileSize else curPosition) + |src| < TWO_32
      modifies this, vol`allocSearchStart, vol.cache.Repr()
      ensures Usable() && fileType == old(fileType) && dirBlock == old(dirBlock) && dirIndex == old(dirIndex)
      ensures fileType != Normal || !canWrite ==>
                r == Failed && vol.cache.State() == old(vol.cache.State()) && Snap() == old(Snap())
      ensures fileType == Normal ==>
                Confined(vol.g, old(vol.cache.State()), vol.cache.State(), old(chain), chain, dirBlock, dirIndex)
      ensures r == Going ==>
        && fileType == Normal && Valid()
        && Written(vol.g, old(vol.cache.State()), vol.cache.State(), old(Snap()), Snap(),
                   if append then old(fileSize) else old(curPosition), src)
      ensures r == Going && syncWrites ==> IsSaved()
      ensures writeError == (r != LinkFailed || old(writeError))
      ensures canWrite == old(canWrite) && canRead == old(canRead) && append == old(append)
              && syncWrites == old(syncWrites)
      ensures vol.cache.card.faults >= old(vol.cache.card.faults)
      ensures r != Going && fileType == Normal ==>
                OutsideKept(old(FileBytes(vol.g, vol.cache.disk, chain, fileSize)),
                            FileBytes(vol.g, vol.cache.disk, chain, Extent()),
                            if append then old(fileSize) else old(curPosition), |src|)
      ensures r != Going ==> vol.cache.Excused(old(vol.cache.card.faults)) || fileType != Normal || !canWrite
                              || AllInUse(Fat(vol.g, vol.cache.disk))
    {
      hide Fat, Layout.Fits, SdVolume.Valid, BlockCache.Valid, CursorOn, CursorLoose, FileBytes, Sound, Confined,
        TailClean, Written, OutsideKept, OnCard;
      assert this !in vol.Repr();
      if fileType != Normal || !canWrite {
        writeError := true;
        if fileType == Normal {
          ConfinedQuiet(vol.g, vol.cache.State(), vol.cache.State(), chain, dirBlock, dirIndex);
          GoodIsUsable(vol.g, vol.cache.State(), Snap());
          OutsideSame(FileBytes(vol.g, vol.cache.disk, chain, fileSize), if append then fileSize else curPosition,
                      |src|);
        }
        return Failed;
      }
      r := WriteOpen(src);
      if r != LinkFailed {
        writeError := true;
      }
    }

    /** The body of `Write` for a file that is open for writing. */
    method WriteOpen(src: seq<byte>) returns (r: Progress)
      requires Valid() && fileType == Normal
      requires (if append then fileSize else curPosition) + |src| < TWO_32
      modifies this`curCluster, this`firstCluster, this`dirDirty, this`chain, this`curPosition, this`fileSize
      modifies vol`allocSearchStart, vol.cache.Repr()
      ensures Usable()
      ensures r != Going ==>
                OutsideKept(old(FileBytes(vol.g, vol.cache.disk, chain, fileSize)),
                            FileBytes(vol.g, vol.cache.disk, chain, Extent()),
                            if append then old(fileSize) else old(curPosition), |src|)
      ensures Confined(vol.g, old(vol.cache.State()), vol.cache.State(), old(chain), chain, dirBlock, dirIndex)
      ensures r == Going ==>
        && Valid()
        && Written(vol.g, old(vol.cache.State()), vol.cache.State(), old(Snap()), Snap(),
                   if append then old(fileSize) else old(curPosition), src)
      ensures r == Going && syncWrites ==> IsSaved()
      ensures vol.cache.card.faults >= old(vol.cache.card.faults)
      ensures r != Going ==> vol.cache.Excused(old(vol.cache.card.faults)) || AllInUse(Fat(vol.g, vol.cache.disk))
    {
      hide Fat, Layout.Fits, SdVolume.Valid, BlockCache.Valid, FatOnly, CursorOn, CursorLoose, FileBytes, Sound,
        Confined, TailClean, Splice, Hits, OnCard, OutsideKept, SdFile.IsSaved;
      assert this !in vol.Repr();
      ghost var s0, c0 := vol.cache.State(), chain;
      ghost var was, at := FileBytes(vol.g, s0.disk, chain, fileSize), if append then fileSize else curPosition;
      OutsideSame(was, at, |src|);
      var ok := GoToEnd(|src|);
      if !ok {
        return Failed;
      }
      ghost var s1 := vol.cache.State();
      r := StoreAll(src);
      ConfinedTrans(vol.g, s0, s1, vol.cache.State(), c0, c0, chain, dirBlock, dirIndex);
      if r != Going {
        return;
      }
      ghost var s2 := vol.cache.State();
      SplicedKeepsRest(was, at, src);
      r := Finish();
      ConfinedTrans(vol.g, s0, s2, vol.cache.State(), c0, chain, chain, dirBlock, dirIndex);
    }

    /** In append mode every write starts at the end of the file. */
    method GoToEnd(ghost len: nat) returns (ok: bool)
      requires Valid() && fileType == Normal
      modifies this`curCluster, this`curPosition, vol.cache.Repr()
      ensures Usable() && vol.cache.disk == old(vol.cache.disk)
      ensures Confined(vol.g, old(vol.cache.State()), vol.cache.State(), chain, chain, dirBlock, dirIndex)
      ensures if ok then Valid() && curPosition == (if append then fileSize else old(curPosition))
              else curPosition == old(curPosition)
      ensures ok ==> (vol.cache.Stranded() || Hits(vol.g, vol.cache.State(), chain, curPosition, len) <==>
                        old(vol.cache.Stranded())
                        || Hits(vol.g, old(vol.cache.State()), chain, curPosition, len))
      ensures vol.cache.card.faults >= old(vol.cache.card.faults)
      ensures !ok ==> vol.cache.Excused(old(vol.cache.card.faults))
    {
      hide Fat, Layout.Fits, SdVolume.Valid, BlockCache.Valid, FatOnly, CursorOn, CursorLoose, Sound, Confined,
        TailClean, Hits;
      assert this !in vol.Repr();
      ghost var s := vol.cache.State();
      GoodIsUsable(vol.g, s, Snap());
      ConfinedQuiet(vol.g, s, s, chain, dirBlock, dirIndex);
      ok := true;
      if append && curPosition != fileSize {
        AppendNeverHits(vol.g, s, chain, fileSize, len);
        ok := SeekSet(fileSize);
        SeekIsConfined(vol.g, s, vol.cache.State(), chain, dirBlock, dirIndex);
        if ok {
          AppendNeverHits(vol.g, vol.cache.State(), chain, fileSize, len);
        }
      }
    }

    /** The end of a write: a new size, and a sync if every write is to be synchronized. */
    method Finish() returns (r: Progress)
      requires vol.Valid() && fileType == Normal && Sound(vol.g, vol.cache.disk, Snap(), Extent())
      requires CursorOn(vol.g, chain, curPosition, curCluster) && TailClean(vol.g, vol.cache.State(), chain, Extent())
      modifies this`fileSize, this`dirDirty, vol.cache.Repr()
      ensures Usable() && fileSize == old(Extent())
      ensures Confined(vol.g, old(vol.cache.State()), vol.cache.State(), chain, chain, dirBlock, dirIndex)
      ensures r != LinkFailed && (r == Going ==> Valid())
      ensures FileBytes(vol.g, vol.cache.disk, chain, fileSize) ==
                old(FileBytes(vol.g, vol.cache.disk, chain, Extent()))
      ensures r == Going ==> (vol.cache.Stranded() <==> old(vol.cache.Stranded()))
      ensures r == Going && syncWrites ==> IsSaved()
      ensures !syncWrites ==> r == Going && vol.cache.State() == old(vol.cache.State()) && unchanged(vol.cache.card)
      ensures vol.cache.card.faults >= old(vol.cache.card.faults)
      ensures r != Going ==> vol.cache.Excused(old(vol.cache.card.faults))
    {
      hide Fat, Layout.Fits, SdVolume.Valid, BlockCache.Valid, CursorOn, CursorLoose, FileBytes, Sound, Confined,
        TailClean, OnCard, SdFile.IsSaved;
      assert this !in vol.Repr();
      ghost var s0 := vol.cache.State();
      OnIsLoose(vol.g, chain, curPosition, curCluster);
      ConfinedQuiet(vol.g, s0, s0, chain, dirBlock, dirIndex);
      if curPosition > fileSize {
        SoundResizes(vol.g, s0.disk, Snap(), curPosition);
        fileSize := curPosition;
        dirDirty := true;
      }
      r := Going;
      if syncWrites {
        var ok := Sync();
        r := if ok then Going else Failed;
      }
    }

    /** Shorten a file to its first `length` bytes. Success gives back exactly the clusters
        that no kept byte needs, and everything is on the card then. Whatever happens, nobody
        else's file is touched. A file of size 0 is left alone even if it has clusters. What an
        earlier failure did to the cursor does no harm if the seek to the new end restarts at
        the first cluster. */
    method Truncate(length: nat) returns (ok: bool)
      requires Usable()
      requires fileType == Normal ==>
                 CursorOn(vol.g, chain, curPosition, curCluster) || SeekHeals(vol.g, curPosition, length)
      modifies this, vol`allocSearchStart, vol.cache.Repr()
      ensures vol.Valid() && fileType == old(fileType) && dirBlock == old(dirBlock) && dirIndex == old(dirIndex)
      ensures canWrite == old(canWrite) && canRead == old(canRead) && append == old(append)
              && syncWrites == old(syncWrites) && unbuffered == old(unbuffered)
      ensures chain <= old(chain) && (fileType == Normal ==> InRange(vol.g, chain))
      ensures fileType == Normal ==>
                Isolated(vol.g, old(vol.cache.State()), vol.cache.State(), old(chain), chain, dirBlock, dirIndex)
      ensures fileType != Normal || !canWrite || length > old(fileSize) ==> !ok
      ensures fileType != Normal || !canWrite || length > old(fileSize) || old(fileSize) == 0 ==>
                vol.cache.State() == old(vol.cache.State()) && Snap() == old(Snap())
      ensures fileType == Normal && canWrite && length == old(fileSize) == 0 ==> ok
      ensures ok ==> fileSize == length && (old(Valid()) ==> Valid()) && (old(fileSize) > 0 ==>
        && Valid()
        && curPosition == (if old(curPosition) > length then length else old(curPosition))
        && Truncated(vol.g, old(vol.cache.State()), vol.cache.State(), old(chain), old(fileSize), Snap())
        && !dirDirty && !vol.cache.dirty && vol.cache.card.blocks == vol.cache.disk)
      ensures !ok && fileType == Normal && canWrite && length <= old(fileSize) ==>
                CutFailed(vol.g, old(vol.cache.disk), vol.cache.disk, old(chain), ClustersFor(vol.g, length))
      ensures vol.cache.card.faults >= old(vol.cache.card.faults)
      ensures !ok ==>
                vol.cache.Excused(old(vol.cache.card.faults)) || fileType != Normal || !canWrite
                || length > old(fileSize)
    {
      hide Fat, Layout.Fits, SdVolume.Valid, BlockCache.Valid, CursorOn, FileBytes, Sound, Confined, Isolated,
        TailClean, Truncated;
      assert this !in vol.Repr();
      if fileType == Normal {
        ConfinedQuiet(vol.g, vol.cache.State(), vol.cache.State(), chain, dirBlock, dirIndex);
      }
      if fileType != Normal || !canWrite {
        return false;
      }
      if length > fileSize {
        return false;
      }
      if fileSize == 0 {
        return true;
      }
      ok := TruncateOpen(length);
    }

    /** `Truncate` for a file that is open for writing and not empty. */
    method TruncateOpen(length: nat) returns (ok: bool)
      requires Usable() && fileType == Normal && 0 < fileSize && length <= fileSize
      requires CursorOn(vol.g, chain, curPosition, curCluster) || SeekHeals(vol.g, curPosition, length)
      modifies this`firstCluster, this`chain, this`fileSize, this`dirDirty, this`curPosition, this`curCluster
      modifies vol`allocSearchStart, vol.cache.Repr()
      ensures vol.Valid() && chain <= old(chain)
      ensures Isolated(vol.g, old(vol.cache.State()), vol.cache.State(), old(chain), chain, dirBlock, dirIndex)
      ensures ok ==>
        && Valid() && fileSize == length
        && curPosition == (if old(curPosition) > length then length else old(curPosition))
        && Truncated(vol.g, old(vol.cache.State()), vol.cache.State(), old(chain), old(fileSize), Snap())
        && !dirDirty && !vol.cache.dirty && vol.cache.card.blocks == vol.cache.disk
      ensures !ok ==>
                CutFailed(vol.g, old(vol.cache.disk), vol.cache.disk, old(chain), ClustersFor(vol.g, length))
      ensures vol.cache.card.faults >= old(vol.cache.card.faults)
      ensures !ok ==> vol.cache.Excused(old(vol.cache.card.faults))
    {
      hide Fat, Layout.Fits, SdVolume.Valid, BlockCache.Valid, FatOnly, CursorOn, CursorLoose, FileBytes, Sound,
        Confined, Isolated, TailClean, OnCard, Truncated, CutFailed, ClustersFor;
      assert this !in vol.Repr();
      ghost var s0, f0 := vol.cache.State(), Snap();
      var newPos := if curPosition > length then length else curPosition;
      CutUntouched(vol.g, s0.disk, f0, Extent(), length);
      ok := SeekSet(length);
      ghost var s1 := vol.cache.State();
      SeekIsConfined(vol.g, s0, s1, chain, dirBlock, dirIndex);
      if !ok {
        return;
      }
      ok := Shorten(length);
      if !ok {
        CutHalted(vol.g, s0.disk, vol.cache.disk, f0.chain, ClustersFor(vol.g, length));
      }
      ghost var s2, f2 := vol.cache.State(), Snap();
      IsolatedTrans(vol.g, s0, s1, s2, f0.chain, f0.chain, chain, dirBlock, dirIndex);
      if ok {
        CutComplete(vol.g, s1, s2, f0, f2, length);
        ok := Settle(newPos);
        CutLater(vol.g, s0.disk, s2.disk, vol.cache.disk, f0.chain, ClustersFor(vol.g, length));
        IsolatedTrans(vol.g, s0, s2, vol.cache.State(), f0.chain, chain, chain, dirBlock, dirIndex);
        if ok {
          TruncatedStays(vol.g, s0, s1, s2, vol.cache.State(), f0.chain, f0.size, f2, Snap());
        }
      }
    }

    /** The end of truncating: write everything out, and put the position back. */
    method Settle(pos: nat) returns (ok: bool)
      requires Valid() && fileType == Normal && pos <= fileSize
      modifies this`dirDirty, this`curPosition, this`curCluster, vol.cache.Repr()
      ensures vol.Valid()
      ensures Confined(vol.g, old(vol.cache.State()), vol.cache.State(), chain, chain, dirBlock, dirIndex)
      ensures Fat(vol.g, vol.cache.disk) == old(Fat(vol.g, vol.cache.disk))
      ensures ok ==>
        && Valid() && curPosition == pos && !dirDirty && !vol.cache.dirty && vol.cache.card.blocks == vol.cache.disk
        && FileBytes(vol.g, vol.cache.disk, chain, fileSize) == old(FileBytes(vol.g, vol.cache.disk, chain, fileSize))
      ensures vol.cache.card.faults >= old(vol.cache.card.faults)
      ensures !ok ==> vol.cache.Excused(old(vol.cache.card.faults))
    {
      hide Fat, Layout.Fits, SdVolume.Valid, BlockCache.Valid, FatOnly, CursorOn, CursorLoose, FileBytes, Sound,
        Confined, TailClean, OnCard;
      assert this !in vol.Repr();
      ghost var s0 := vol.cache.State();
      ok := Sync();
      if !ok {
        return;
      }
      ghost var s1 := vol.cache.State();
      GoodIsUsable(vol.g, s1, Snap());
      vol.cache.CleanIsOnCard();
      ok := SeekSet(pos);
      SeekIsConfined(vol.g, s1, vol.cache.State(), chain, dirBlock, dirIndex);
      ConfinedTrans(vol.g, s0, s1, vol.cache.State(), chain, chain, chain, dirBlock, dirIndex);
      ClosedOut();
    }

    /** A clean cache has nothing that is not on the card. */
    lemma ClosedOut()
      requires vol.Valid() && !vol.cache.dirty
      ensures vol.cache.card.blocks == vol.cache.disk
    {
      hide Fat, Layout.Fits, Mirrored;
      vol.cache.CleanIsOnCard();
    }

    /** Cut the chain at the current position, and make that the size of the file. */
    method Shorten(length: nat) returns (ok: bool)
      requires vol.Valid() && fileType == Normal && Sound(vol.g, vol.cache.disk, Snap(), fileSize)
      requires CursorOn(vol.g, chain, curPosition, curCluster) && 0 < fileSize && curPosition == length <= fileSize
      modifies this`firstCluster, this`chain, this`fileSize, this`dirDirty, vol`allocSearchStart, vol.cache.Repr()
      ensures vol.Valid() && chain <= old(chain)
      ensures Isolated(vol.g, old(vol.cache.State()), vol.cache.State(), old(chain), chain, dirBlock, dirIndex)
      ensures ok ==>
        && Valid() && fileSize == length
        && Truncated(vol.g, old(vol.cache.State()), vol.cache.State(), old(chain), old(fileSize), Snap())
      ensures !ok ==>
        chain == old(chain) && CutStopped(old(Fat(vol.g, vol.cache.disk)), Fat(vol.g, vol.cache.disk), chain,
                                          ClustersFor(vol.g, length))
      ensures vol.cache.card.faults >= old(vol.cache.card.faults)
      ensures !ok ==> vol.cache.Excused(old(vol.cache.card.faults))
    {
      hide Fat, Layout.Fits, SdVolume.Valid, BlockCache.Valid, FatOnly, CursorOn, FileBytes, Sound, Confined, Isolated,
        TailClean, Cut, CutStopped, ClustersFor, FatConfined, Truncated, IsChain, Unique, HasChain, EndMark;
      assert this !in vol.Repr();
      ghost var s, f := vol.cache.State(), Snap();
      SoundFacts(vol.g, s.disk, f, fileSize);
      RoomIsClusters(vol.g, chain, length);
      ClustersForNone(vol.g);
      if length == 0 {
        ok := FreeAll();
      } else {
        ok := FreeTail();
      }
      if !ok {
        FatOnlyIsolated(vol.g, s, vol.cache.State(), chain, chain, dirBlock, dirIndex);
        return;
      }
      fileSize := length;
      dirDirty := true;
      CutTruncates(vol.g, s, vol.cache.State(), f, length, curCluster);
    }

    /** Free all clusters of the file. */
    method FreeAll() returns (ok: bool)
      requires vol.Valid() && firstCluster != 0
               && HasChain(Fat(vol.g, vol.cache.disk), vol.g.EocMin(), firstCluster, chain)
      modifies this`firstCluster, this`chain, vol`allocSearchStart, vol.cache.Repr()
      ensures vol.Valid() && FatOnly(vol.g, old(vol.cache.State()), vol.cache.State())
      ensures !ok ==> FatConfined(old(Fat(vol.g, vol.cache.disk)), Fat(vol.g, vol.cache.disk), chain, chain)
                      && chain == old(chain) && firstCluster == old(firstCluster)
                      && CutStopped(old(Fat(vol.g, vol.cache.disk)), Fat(vol.g, vol.cache.disk), chain, 0)
      ensures ok ==>
        && firstCluster == 0 && chain == [] && vol.g.IsFatBlock(vol.cache.blockNumber) && InRange(vol.g, old(chain))
        && Fat(vol.g, vol.cache.disk) == Cut(old(Fat(vol.g, vol.cache.disk)), old(chain), 0, EndMark(vol.g))
      ensures vol.cache.card.faults >= old(vol.cache.card.faults)
      ensures !ok ==> vol.cache.Excused(old(vol.cache.card.faults))
    {
      hide Fat, Layout.Fits, SdVolume.Valid, BlockCache.Valid, FatOnly, IsChain, FreedPart, FatConfined, FreeWalk,
        CutStopped;
      assert this !in vol.Repr();
      var r;
      ghost var fat, k := Fat(vol.g, vol.cache.disk), 0;
      ChainInRange(vol.g, fat, vol.g.EocMin(), chain);
      FreeWalkOnChain(fat, vol.g.EocMin(), chain);
      r, k := vol.FreeChain(firstCluster);
      ok := r == Done;
      TailFreed(fat, vol.g.EocMin(), chain, 0, Fat(vol.g, vol.cache.disk), k, ok);
      if ok {
        assert chain[0..] == chain;
        firstCluster := 0;
        chain := [];
      }
    }

    /** Free the clusters behind the current one, and make that the last. */
    method FreeTail() returns (ok: bool)
      requires vol.Valid() && 0 < curPosition && CursorOn(vol.g, chain, curPosition, curCluster)
      requires HasChain(Fat(vol.g, vol.cache.disk), vol.g.EocMin(), firstCluster, chain)
      modifies this`chain, vol`allocSearchStart, vol.cache.Repr()
      ensures vol.Valid() && FatOnly(vol.g, old(vol.cache.State()), vol.cache.State())
      ensures 0 < ClustersFor(vol.g, curPosition) <= |old(chain)|
      ensures !ok ==> FatConfined(old(Fat(vol.g, vol.cache.disk)), Fat(vol.g, vol.cache.disk), chain, chain)
                      && chain == old(chain)
                      && CutStopped(old(Fat(vol.g, vol.cache.disk)), Fat(vol.g, vol.cache.disk), chain,
                                    ClustersFor(vol.g, curPosition))
      ensures ok ==>
        && chain == old(chain)[..ClustersFor(vol.g, curPosition)] && vol.g.IsFatBlock(vol.cache.blockNumber)
        && InRange(vol.g, old(chain))
        && Fat(vol.g, vol.cache.disk) ==
           Cut(old(Fat(vol.g, vol.cache.disk)), old(chain), ClustersFor(vol.g, curPosition), EndMark(vol.g))
      ensures vol.cache.card.faults >= old(vol.cache.card.faults)
      ensures !ok ==> vol.cache.Excused(old(vol.cache.card.faults))
    {
      hide Fat, Layout.Fits, SdVolume.Valid, BlockCache.Valid, FatOnly, IsChain, FreedPart, FatConfined, FreeWalk,
        CursorOn, ClustersFor, EndMark, Cut, CutStopped;
      assert this !in vol.Repr();
      ghost var fat, eoc, keep := Fat(vol.g, vol.cache.disk), vol.g.EocMin(), ClustersFor(vol.g, curPosition);
      CursorIsLast(vol.g, chain, curPosition, curCluster);
      ChainInRange(vol.g, fat, eoc, chain);
      var toFree;
      ok, toFree := vol.FatGet(curCluster);
      ghost var s1 := vol.cache.State();
      ClearedConfined(fat, fat, chain, chain);
      NothingFreed(fat, chain, keep);
      if !ok {
        return;
      }
      CutAtEnd(fat, eoc, chain, keep, EndMark(vol.g));
      if !vol.g.IsEoc(toFree) {
        ok := EndHere(toFree, keep);
        FatOnlyTrans(vol.g, old(vol.cache.State()), s1, vol.cache.State());
        if !ok {
          return;
        }
      }
      chain := chain[..keep];
    }

    /** Free the chain behind the current cluster, then mark that cluster as the last. */
    method EndHere(toFree: nat, ghost keep: nat) returns (ok: bool)
      requires vol.Valid() && IsChain(Fat(vol.g, vol.cache.disk), vol.g.EocMin(), chain) && InRange(vol.g, chain)
      requires 0 < keep < |chain| && curCluster == chain[keep - 1] && toFree == chain[keep]
      modifies vol`allocSearchStart, vol.cache.Repr()
      ensures vol.Valid() && FatOnly(vol.g, old(vol.cache.State()), vol.cache.State())
      ensures !ok ==> FatConfined(old(Fat(vol.g, vol.cache.disk)), Fat(vol.g, vol.cache.disk), chain, chain)
                      && CutStopped(old(Fat(vol.g, vol.cache.disk)), Fat(vol.g, vol.cache.disk), chain, keep)
      ensures ok ==> Fat(vol.g, vol.cache.disk) == Cut(old(Fat(vol.g, vol.cache.disk)), chain, keep, EndMark(vol.g))
                     && vol.g.IsFatBlock(vol.cache.blockNumber)
      ensures vol.cache.card.faults >= old(vol.cache.card.faults)
      ensures !ok ==> vol.cache.Excused(old(vol.cache.card.faults))
    {
      hide Fat, Layout.Fits, SdVolume.Valid, BlockCache.Valid, FatOnly, IsChain, FreedPart, FatConfined, FreeWalk,
        Stored, Cut, CutStopped;
      assert this !in vol.Repr();
      ghost var fat, eoc := Fat(vol.g, vol.cache.disk), vol.g.EocMin();
      ghost var k;
      var r;
      ChainTail(fat, eoc, chain, keep);
      FreeWalkOnChain(fat, eoc, chain[keep..]);
      r, k := vol.FreeChain(toFree);
      TailFreed(fat, eoc, chain, keep, Fat(vol.g, vol.cache.disk), k, r == Done);
      if r != Done {
        return false;
      }
      ghost var before := vol.cache.State();
      assert EndMark(vol.g) == Stored(vol.g, EOC);
      ok := vol.FatPut(curCluster, EOC);
      FatOnlyTrans(vol.g, old(vol.cache.State()), before, vol.cache.State());
      CutIsDone(fat, eoc, chain, keep, EndMark(vol.g));
    }

    /** Remove the file: free its clusters, mark its directory entry deleted, and close it.
        Whatever happens, and whatever an earlier failure did to the handle, all other files
        are spared. */
    method Remove() returns (ok: bool)
      requires Usable()
      modifies this, vol`allocSearchStart, vol.cache.Repr()
      ensures vol.Valid()
      ensures old(fileType) != Normal || !old(canWrite) ==>
                !ok && vol.cache.State() == old(vol.cache.State()) && Snap() == old(Snap()) && fileType == old(fileType)
      ensures old(fileType) == Normal ==> Spares(vol.g, old(vol.cache.State()), vol.cache.State(), old(Snap()))
      ensures ok ==>
        && old(fileType) == Normal && fileType == Closed
        && Removed(vol.g, old(vol.cache.State()), vol.cache.State(), old(Snap()))
        && !vol.cache.dirty && vol.cache.card.blocks == vol.cache.disk
      ensures vol.cache.card.faults >= old(vol.cache.card.faults)
      ensures !ok ==> vol.cache.Excused(old(vol.cache.card.faults)) || old(fileType) != Normal || !old(canWrite)
      ensures old(vol.cache.Stranded()) ==> vol.cache.Stranded()
    {
      hide Fat, Layout.Fits, SdVolume.Valid, BlockCache.Valid, Sound, TailClean, CursorOn, Isolated, Confined,
        Truncated, Spares, Removed, SlotChanged;
      assert this !in vol.Repr();
      ghost var s0, f0, extent := vol.cache.State(), Snap(), Extent();
      ok := Truncate(0);
      ghost var s1, f1 := vol.cache.State(), Snap();
      if fileType != Normal {
        return;
      }
      IsolatedSpares(vol.g, s0, s1, f0, f1);
      if ok {
        SlotFacts(vol.g, s0.disk, f0, extent);
        ok := MarkDeleted();
        SlotSparesAll(vol.g, s1, vol.cache.State(), f0);
        SparesTrans(vol.g, s0, s1, vol.cache.State(), f0);
        if ok {
          MarkRemoves(vol.g, s0, s1, vol.cache.State(), f0, f1, extent);
        }
      }
    }

    /** Mark the directory entry deleted, and write it out. The handle is closed once the mark
        is in the cache, even if writing fails. */
    method MarkDeleted() returns (ok: bool)
      requires vol.Valid() && 0 < dirBlock < |vol.cache.disk| && dirIndex < 16 && !vol.g.IsFatBlock(dirBlock)
      modifies this`fileType, vol.cache.Repr()
      ensures vol.Valid() && SlotChanged(vol.g, old(vol.cache.State()), vol.cache.State(), dirBlock, dirIndex)
      ensures ok ==>
        && fileType == Closed && !vol.cache.dirty && vol.cache.card.blocks == vol.cache.disk
        && vol.cache.disk ==
           old(vol.cache.disk)[dirBlock := old(vol.cache.disk[dirBlock])[ENTRY_SIZE * dirIndex := NAME_DELETED]]
      ensures vol.cache.card.faults >= old(vol.cache.card.faults)
      ensures !ok ==> vol.cache.Excused(old(vol.cache.card.faults))
    {
      hide Fat, Layout.Fits, SdVolume.Valid, BlockCache.Valid;
      assert this !in vol.Repr();
      ok := CacheDirEntry();
      if !ok {
        return;
      }
      StoreInEntry(vol.cache.buffer[..][ENTRY_SIZE * dirIndex := NAME_DELETED]);
      assert (ENTRY_SIZE * dirIndex) / ENTRY_SIZE == dirIndex;
      fileType := Closed;
      ok := vol.FlushAll();
    }

    // ---- Directories ---------------------------------------------------------------------

    predicate IsDir()
      reads this
    {
      fileType == Root16 || fileType == Root32 || fileType == Subdir
    }

    /** The handle is open for a directory. Where its cursor is does not matter: every search
        starts by rewinding. */
    ghost predicate DirValid()
      reads Repr()
      ensures DirValid() ==> vol.Valid() && DirGood(vol.g, vol.cache.disk, Snap())
    {
      vol.Valid() && IsDir() && !unbuffered && DirGood(vol.g, vol.cache.disk, Snap())
    }

    /** The bytes of the directory. */
    ghost function Listing(): (b: seq<byte>)
      requires DirValid()
      reads Repr()
      ensures |b| == fileSize
    {
      DirBytes(vol.g, vol.cache.disk, Snap())
    }

    method Rewind()
      modifies this`curPosition, this`curCluster
      ensures curPosition == 0 && curCluster == 0
    {
      curPosition, curCluster := 0, 0;
    }

    /** Read one byte: a read of length 1 is one turn of the loop of `Read`. */
    method ReadByte() returns (ok: bool)
      requires vol.Valid() && fileType != Closed && Readable(vol.g, vol.cache.disk, Snap())
      modifies this`curCluster, this`curPosition, vol.cache.Repr()
      ensures vol.Valid() && vol.cache.disk == old(vol.cache.disk)
      ensures FatOnly(vol.g, old(vol.cache.State()), vol.cache.State())
      ensures ok ==>
        && canRead && curPosition == old(curPosition) + 1 <= fileSize && Readable(vol.g, vol.cache.disk, Snap())
        && old(curPosition) / BLOCK_SIZE < HomeBlocks(vol.g, fileType == Root16, chain)
        && (!unbuffered ==>
              vol.cache.blockNumber == Home(vol.g, fileType == Root16, chain,
                                            old(curPosition) / BLOCK_SIZE) < |vol.cache.disk|)
      ensures vol.cache.card.faults >= old(vol.cache.card.faults)
      ensures !ok ==> vol.cache.Excused(old(vol.cache.card.faults)) || !canRead || curPosition == fileSize
      ensures !ok ==> curPosition == old(curPosition)
    {
      hide Fat, Layout.Fits, SdVolume.Valid, BlockCache.Valid, FatOnly, CursorOn, CursorAt, Contents, Readable,
        HasBytes, Home, HomeBlocks, Patch;
      assert this !in vol.Repr();
      if !canRead || curPosition == fileSize {
        return false;
      }
      var b := new byte[1];
      var n := ReadPiece(b, 0, 1, Contents(vol.g, vol.cache.disk, fileType == Root16, chain, fileSize));
      ok := n > 0;
    }

    /** Bring the block with the next directory entry into the cache, and move on past the
        entry. */
    method ReadDirCache() returns (ok: bool, index: nat)
      requires vol.Valid() && Readable(vol.g, vol.cache.disk, Snap()) && (IsDir() ==> !unbuffered)
      requires curPosition % ENTRY_SIZE == 0 && fileSize % ENTRY_SIZE == 0
      modifies this`curCluster, this`curPosition, vol.cache.Repr()
      ensures vol.Valid() && vol.cache.disk == old(vol.cache.disk)
      ensures FatOnly(vol.g, old(vol.cache.State()), vol.cache.State())
      ensures ok ==>
        && IsDir() && curPosition == old(curPosition) + ENTRY_SIZE <= fileSize
        && Readable(vol.g, vol.cache.disk, Snap())
        && old(curPosition) / BLOCK_SIZE < HomeBlocks(vol.g, fileType == Root16, chain)
        && vol.cache.blockNumber == Home(vol.g, fileType == Root16, chain,
                                         old(curPosition) / BLOCK_SIZE) < |vol.cache.disk|
        && index == old(curPosition) / ENTRY_SIZE % ENTRIES_PER_BLOCK
      ensures vol.cache.card.faults >= old(vol.cache.card.faults)
      ensures !ok ==>
                vol.cache.Excused(old(vol.cache.card.faults)) || !IsDir() || !canRead || old(curPosition) == fileSize
    {
      hide Fat, Layout.Fits, SdVolume.Valid, BlockCache.Valid, FatOnly, Readable, HasBytes, Home, HomeBlocks;
      assert this !in vol.Repr();
      if !IsDir() {
        return false, 0;
      }
      index := curPosition / ENTRY_SIZE % ENTRIES_PER_BLOCK;
      WholeEntries(curPosition, fileSize);
      ok := ReadByte();
      if ok {
        ghost var f := Snap();
        curPosition := curPosition + ENTRY_SIZE - 1;
        EntrySkipped(vol.g, vol.cache.disk, f, Snap());
      }
    }

    /** Add a cluster of zeros to a directory; its first block ends up in the cache. The cluster
        is linked before it is cleared: when clearing fails, the directory on the volume has
        the cluster already, with the `left` blocks that were not cleared. */
    method AddDirCluster() returns (ok: bool, ghost left: nat)
      requires DirValid() && fileType != Root16 && curPosition == fileSize
      requires CursorOn(vol.g, chain, curPosition, curCluster)
      requires fileSize + BLOCK_SIZE * vol.g.blocksPerCluster < TWO_32
      modifies this`curCluster, this`firstCluster, this`dirDirty, this`chain, this`fileSize
      modifies vol`allocSearchStart, vol.cache.Repr()
      ensures vol.Valid() && Grown(vol.g, old(vol.cache.State()), vol.cache.State(), old(chain), chain)
      ensures FormKept(old(Fat(vol.g, vol.cache.disk)), Fat(vol.g, vol.cache.disk), vol.g.EocMin(), old(chain), chain)
      ensures firstCluster == old(firstCluster)
      ensures ok ==>
        && DirValid() && Listing() == old(Listing()) + Zeros(BLOCK_SIZE * vol.g.blocksPerCluster)
        && old(fileSize) / ENTRY_SIZE < fileSize / ENTRY_SIZE
        && vol.cache.blockNumber == BlockOf(vol.g, Snap(), old(fileSize) / ENTRY_SIZE) && vol.cache.dirty
        && !old(vol.cache.Stranded())
      ensures !ok ==> NotExtended(vol.g, old(vol.cache.disk), vol.cache.disk, old(Snap()), Snap(), left)
      ensures vol.cache.card.faults >= old(vol.cache.card.faults)
      ensures !ok ==> vol.cache.Excused(old(vol.cache.card.faults)) || AllInUse(Fat(vol.g, vol.cache.disk))
    {
      hide Fat, Layout.Fits, SdVolume.Valid, BlockCache.Valid, FatOnly, FatConfined, FormKept, HasChain, IsChain,
        CursorOn, Grown, ClusterStart, DirBytes, BlockOf, DirGood, Zeros, Unique, Uncleared, NotExtended;
      left := 0;
      assert this !in vol.Repr();
      ghost var s0, dir := vol.cache.State(), Snap();
      DirEnd(vol.g, s0.disk, dir);
      DirAtEnd(vol.g, s0.disk, dir);
      ok := AddCluster();
      ghost var s1 := vol.cache.State();
      if !ok {
        NotGrown(vol.g, s0, s1, firstCluster, chain);
        SameDirectory(vol.g, s0, s1, dir, Snap());
        return;
      }
      FatOnlyDirty(vol.g, s0, s1);
      LastInRange(vol.g, dir.chain, chain, curCluster);
      ClusterRange(vol.g, |s0.disk|, curCluster);
      ok, left := vol.ZeroCluster(ClusterStart(vol.g, curCluster));
      ClusterAdded(vol.g, s0, s1, vol.cache.State(), dir, Snap(), left);
      if ok {
        fileSize := fileSize + BLOCK_SIZE * vol.g.blocksPerCluster;
      }
    }

    // ---- Contiguous files ------------------------------------------------------------------

    /** The blocks of a file whose clusters are one run. On any table it ends, and it succeeds
        exactly if the chain is one run; `n` is its length. */
    method ContiguousRange() returns (r: Outcome, bgnBlock: nat, endBlock: nat, ghost n: nat)
      requires vol.Valid() && firstCluster != 1
      modifies vol.cache.Repr()
      ensures vol.Valid() && vol.cache.disk == old(vol.cache.disk)
      ensures r == Done ==>
        && 2 <= firstCluster && IsChain(Fat(vol.g, vol.cache.disk), vol.g.EocMin(), Run(firstCluster, n))
        && bgnBlock == ClusterStart(vol.g, firstCluster) && endBlock == bgnBlock + n * vol.g.blocksPerCluster - 1
      ensures r == Refused ==>
                forall m: nat :: !IsChain(Fat(vol.g, vol.cache.disk), vol.g.EocMin(), Run(firstCluster, m))
      ensures vol.cache.card.faults >= old(vol.cache.card.faults)
      ensures r == DeviceError ==> vol.cache.Excused(old(vol.cache.card.faults))
    {
      hide Fat, SdVolume.Valid, BlockCache.Valid, FatOnly, IsChain, Consecutive, ClusterStart;
      assert this !in vol.Repr();
      ghost var fat, eoc := Fat(vol.g, vol.cache.disk), vol.g.EocMin();
      r, bgnBlock, endBlock, n := Refused, 0, 0, 0;
      if firstCluster < 2 || firstCluster >= |fat| {
        NoRunOutside(fat, eoc, firstCluster);
      }
      if firstCluster == 0 {
        return;
      }
      var c := firstCluster;
      ConsecutiveNone(fat, c);
      while true
        invariant vol.Valid() && vol.cache.disk == old(vol.cache.disk) && firstCluster <= c
        invariant if firstCluster < |fat| then c <= |fat| && Consecutive(fat, firstCluster, c) else c == firstCluster
        invariant vol.cache.card.faults >= old(vol.cache.card.faults)
        decreases |fat| - c
      {
        var ok, next := vol.FatGet(c);
        if !ok {
          if firstCluster < |fat| && c == |fat| {
            NoRunAnywhere(fat, eoc, firstCluster, c);
          }
          return if c > vol.g.clusterCount + 1 then Refused else DeviceError, 0, 0, 0;
        }
        if next != c + 1 {
          if !vol.g.IsEoc(next) {
            NoRunAnywhere(fat, eoc, firstCluster, c);
            return;
          }
          n := c - firstCluster + 1;
          RunFound(fat, eoc, firstCluster, c);
          RunBlocks(vol.g, firstCluster, n);
          return Done, ClusterStart(vol.g, firstCluster), ClusterStart(vol.g, c) + vol.g.blocksPerCluster - 1, n;
        }
        ConsecutiveNext(fat, firstCluster, c);
        c := c + 1;
      }
    }

    /** Remove a new file again that could not be given its clusters. `s` is the state when that was
        tried; if it was `refused`, the disk is as it was then. */
    method GiveUp(ghost s: CacheState, ghost refused: bool)
      requires Valid() && fileType == Normal && fileSize == 0 && dirBlock < |s.disk| == |vol.cache.disk|
               && dirIndex < 16
      requires Spares(vol.g, s, vol.cache.State(), Snap()) && (refused ==> vol.cache.disk == s.disk)
      modifies this, vol`allocSearchStart, vol.cache.Repr()
      ensures vol.Valid() && Spares(vol.g, s, vol.cache.State(), old(Snap()))
      ensures vol.cache.card.faults >= old(vol.cache.card.faults)
      ensures old(vol.cache.Stranded()) ==> vol.cache.Stranded()
      ensures vol.cache.Excused(old(vol.cache.card.faults)) || !refused
              || (&& Fat(vol.g, vol.cache.disk) == Fat(vol.g, s.disk)
                  && (old(canWrite) ==> fileType == Closed && Removed(vol.g, s, vol.cache.State(), old(Snap()))))
    {
      hide Fat, Layout.Fits, SdVolume.Valid, BlockCache.Valid, Good, Spares, Sound;
      ghost var s1, f, g := vol.cache.State(), Snap(), vol.g;
      ValidIsUsable();
      var ok := Remove();
      SparesTrans(g, s, s1, vol.cache.State(), f);
      if ok && refused {
        RemovedSame(g, s, s1, vol.cache.State(), f);
      }
    }

    /** Give a new file all the clusters that `size` bytes need, in one run, and write its entry
        out. If there is no such run the file is removed. */
    method Preallocate(size: nat) returns (ok: bool)
      requires Valid() && fileType == Normal && fileSize == 0 && chain == [] && 0 < size < TWO_32
      modifies this, vol`allocSearchStart, vol.cache.Repr()
      ensures vol.Valid() && Spares(vol.g, old(vol.cache.State()), vol.cache.State(), old(Snap()))
      ensures ok ==>
        && Valid() && fileType == Normal && fileSize == size && firstCluster >= 2
        && chain == Run(firstCluster, ClustersFor(vol.g, size))
        && Confined(vol.g, old(vol.cache.State()), vol.cache.State(), [], chain, dirBlock, dirIndex)
        && dirBlock == old(dirBlock) && dirIndex == old(dirIndex)
        && !dirDirty && !vol.cache.dirty && vol.cache.card.blocks == vol.cache.disk
      ensures ok ==> curPosition == 0 && unchanged(`canRead, `canWrite, `append, `syncWrites)
      ensures vol.cache.card.faults >= old(vol.cache.card.faults)
      ensures !ok ==>
        vol.cache.Excused(old(vol.cache.card.faults))
        || (&& NoRun(old(Fat(vol.g, vol.cache.disk)), 2, vol.g.Clusters(), ClustersFor(vol.g, size))
            && Fat(vol.g, vol.cache.disk) == old(Fat(vol.g, vol.cache.disk))
            && (old(canWrite) ==>
                  fileType == Closed && Removed(vol.g, old(vol.cache.State()), vol.cache.State(), old(Snap()))))
    {
      hide Fat, Layout.Fits, SdVolume.Valid, BlockCache.Valid, FatOnly, CursorOn, Confined, Isolated, TailClean,
        OnCard, ClustersFor, OrphanRun, NoRun, Allocated, IsChain, Spares, Removed, FileBytes, EndMark, Sound, IsSaved,
        Run, SlotHolds, SlotPlaced, DirGood;
      assert this !in vol.Repr();
      ghost var s, f, g := vol.cache.State(), Snap(), vol.g;
      NoChainNoFirst(g, s, f);
      ClustersForIsLeast(g, size, 0);
      var count := (size - 1) / BLOCK_SIZE / vol.g.blocksPerCluster + 1;
      CountIsClusters(g, size);
      var r, first := vol.AllocContiguous(count, firstCluster);
      ghost var s1 := vol.cache.State();
      if r != Done {
        if r == Refused {
          OrphanNone(Fat(g, s.disk), EndMark(g));
        }
        NotAllocated(g, s, s1, f);
        IsolatedSpares(g, s, s1, f, f);
        SlotFacts(g, s.disk, f, 0);
        GiveUp(s, r == Refused);
        return false;
      }
      firstCluster, fileSize, dirDirty := first, size, true;
      chain := Run(first, count);
      RunAllocated(g, s, s1, f, Snap(), first, size);
      StartIsGood(g, s1, Snap());
      ok := Sync();
      ConfinedTrans(g, s, s1, vol.cache.State(), [], chain, chain, dirBlock, dirIndex);
      IsolatedSpares(g, s, vol.cache.State(), f, Snap());
    }
  }
}
