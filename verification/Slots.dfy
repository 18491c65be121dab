/** Directory entries as slots of a block: what changing one of them as a whole does to
    everything else, and what removing a file leaves (Modules/SD/SdFile.cpp:850-868). */
module Slots {
  import opened Bytes
  import opened Layouts
  import opened Chains
  import opened Cache
  import opened FileModel
  import opened TruncateModel

  const NAME_DELETED: byte := 0xE5
  const NAME_FREE: byte := 0x00

  /** A directory block changed in one entry at most. */
  ghost predicate SameButEntry(b: Block, b': Block, index: nat) {
    forall i :: 0 <= i < BLOCK_SIZE && i / ENTRY_SIZE != index ==> b'[i] == b[i]
  }

  /** From `s` to `s'` one directory entry changed, and nothing else. */
  ghost predicate SlotChanged(g: Layout, s: CacheState, s': CacheState, block: nat, index: nat)
    ensures SlotChanged(g, s, s', block, index) ==> |s'.disk| == |s.disk| && (s.Stranded() ==> s'.Stranded())
  {
    && |s'.disk| == |s.disk| && 0 < block < |s.disk| && !g.IsFatBlock(block)
    && (forall b :: 0 <= b < |s.disk| && b != block ==> s'.disk[b] == s.disk[b])
    && SameButEntry(s.disk[block], s'.disk[block], index)
    && (s'.dirty ==> s'.number == block || (s.dirty && s'.number == s.number))
    && (s.Stranded() ==> s'.Stranded())
  }

  lemma SlotKeepsFat(g: Layout, s: CacheState, s': CacheState, block: nat, index: nat)
    requires g.Fits(|s.disk|) && SlotChanged(g, s, s', block, index)
    ensures Fat(g, s'.disk) == Fat(g, s.disk)
  {
    DataKeepsFat(g, s.disk, s'.disk, block);
  }

  lemma OtherSlotKept(b: Block, b': Block, index: nat, other: nat)
    requires SameButEntry(b, b', index) && index != other && other < 16
    ensures EntryFirst(b', other) == EntryFirst(b, other) && EntrySize(b', other) == EntrySize(b, other)
  {
    forall i | ENTRY_SIZE * other <= i < ENTRY_SIZE * (other + 1)
      ensures b'[i] == b[i]
    {
      assert i / ENTRY_SIZE == other;
    }
  }

  /** Changing a slot leaves every file alone that is described by another slot and does not
      keep its data in the directory. */
  lemma SlotSpares(g: Layout, s: CacheState, s': CacheState, block: nat, index: nat, h: FileState)
    requires g.Fits(|s.disk|) && SlotChanged(g, s, s', block, index) && Good(g, s, h)
    requires !Owns(g, h.chain, block) && (h.block != block || h.index != index)
    ensures Spared(g, s, s', h)
  {
    hide Fat, Layout.Fits, FileBytes, Rooted, HasChain, EntryFirst, EntrySize, BlockAt, SameButEntry, Entry, Owns;
    SlotKeepsFat(g, s, s', block, index);
    SlotSparesBytes(g, s, s', block, index, h.chain, h.size);
    if h.block == block {
      OtherSlotKept(s.disk[block], s'.disk[block], index, h.index);
    }
    if g.dataStart <= h.block {
      var c := ClusterOf(g, h.block);
      assert Fat(g, s'.disk)[c] == Entry(g, s'.disk, c) && Fat(g, s.disk)[c] == Entry(g, s.disk, c);
    }
  }

  lemma SlotSparesBytes(g: Layout, s: CacheState, s': CacheState, block: nat, index: nat, ch: seq<nat>, size: nat)
    requires g.Fits(|s.disk|) && SlotChanged(g, s, s', block, index) && InRange(g, ch) && Room(g, ch, size)
    requires !Owns(g, ch, block)
    ensures FileBytes(g, s'.disk, ch, size) == FileBytes(g, s.disk, ch, size)
    ensures TailClean(g, s, ch, size) ==> TailClean(g, s', ch, size)
  {
    hide Fat, Layout.Fits, FileBytes, BlockAt, SameButEntry;
    FileBytesOther(g, s.disk, s'.disk, ch, size);
    forall k | 0 <= k < Blocks(g, ch)
      ensures BlockAt(g, ch, k) != block
    {
      BlockAtOwned(g, |s.disk|, ch, k);
    }
  }

  lemma SlotSparesAll(g: Layout, s: CacheState, s': CacheState, f: FileState)
    requires g.Fits(|s.disk|) && SlotChanged(g, s, s', f.block, f.index)
    ensures Spares(g, s, s', f)
  {
    hide Fat, Layout.Fits, FileBytes, SlotChanged, Rooted, Good, Owns;
    forall h: FileState | Good(g, s, h) && Separate(g, f, h)
      ensures Spared(g, s, s', h)
    {
      SlotSpares(g, s, s', f.block, f.index, h);
    }
  }

  // ---- Removing a file ------------------------------------------------------------------------

  /** A removed file: its entry is marked deleted and otherwise keeps its name, its clusters
      are free, and everything else is as it was. */
  ghost predicate Removed(g: Layout, s: CacheState, s': CacheState, f: FileState)
    requires g.Fits(|s.disk|) && f.block < |s.disk| && f.index < 16
    ensures Removed(g, s, s', f) ==> |s'.disk| == |s.disk|
  {
    && |s'.disk| == |s.disk|
    && SameButName(s.disk[f.block], s'.disk[f.block], f.index)
    && s'.disk[f.block][ENTRY_SIZE * f.index] == NAME_DELETED
    && (forall b :: 0 <= b < |s.disk| && !g.IsFatBlock(b) && b != f.block && !Owns(g, f.chain, b) ==>
           s'.disk[b] == s.disk[b])
    && Fat(g, s'.disk) == if f.size > 0 then ZeroAll(Fat(g, s.disk), f.chain) else Fat(g, s.disk)
  }

  /** The block changed at most in the first character of an entry's name, its first cluster
      and its size. */
  ghost predicate SameButName(b: Block, b': Block, index: nat) {
    forall i :: 0 <= i < BLOCK_SIZE && !(i / ENTRY_SIZE == index && (i % ENTRY_SIZE == 0 || IsField(i % ENTRY_SIZE)))
      ==> b'[i] == b[i]
  }

  lemma RemovedSame(g: Layout, s: CacheState, s1: CacheState, s': CacheState, f: FileState)
    requires g.Fits(|s.disk|) && f.block < |s.disk| && f.index < 16 && s1.disk == s.disk && Removed(g, s1, s', f)
    ensures Removed(g, s, s', f)
  {
  }

  /** Removing a file gives back all its clusters, unless its size was 0: then it gives back
      none, although it may have some. */
  lemma RemovedConserves(g: Layout, s: CacheState, s': CacheState, f: FileState, extent: nat)
    requires g.Fits(|s.disk|) && Sound(g, s.disk, f, extent) && Removed(g, s, s', f)
    ensures |Free(Fat(g, s'.disk))| == |Free(Fat(g, s.disk))| + |f.chain| <==> f.size > 0 || f.chain == []
  {
    hide Fat, Free, ZeroAll, Layout.Fits, FileBytes, TailClean, CursorOn, SlotPlaced, SlotHolds, SameButName, Owns;
    if f.size > 0 && f.chain != [] {
      ChainAvoidsFree(Fat(g, s.disk), g.EocMin(), f.chain);
      ZeroAllFrees(Fat(g, s.disk), f.chain);
    }
  }

  /** It keeps the table well formed. */
  lemma RemovedWellFormed(g: Layout, s: CacheState, s': CacheState, f: FileState, extent: nat)
    requires g.Fits(|s.disk|) && Sound(g, s.disk, f, extent) && Removed(g, s, s', f)
    requires WellFormed(Fat(g, s.disk), g.EocMin()) && Rooted(Fat(g, s.disk), f.chain)
    ensures WellFormed(Fat(g, s'.disk), g.EocMin())
  {
    hide Fat, Layout.Fits, FileBytes, TailClean, CursorOn, SlotPlaced, SlotHolds, SameButName, WellFormed;
    if f.size > 0 && f.chain != [] {
      ZeroWellFormed(Fat(g, s.disk), g.EocMin(), f.chain);
    }
  }

  /** The entry is marked after the file was cut to nothing, or was empty already. */
  lemma MarkRemoves(g: Layout, s: CacheState, s1: CacheState, s': CacheState, f: FileState, f1: FileState,
                    extent: nat)
    requires g.Fits(|s.disk|) && Sound(g, s.disk, f, extent) && |s1.disk| == |s.disk|
    requires if f.size > 0 then Truncated(g, s, s1, f.chain, f.size, f1) && f1.size == 0 else s1 == s
    requires f1.block == f.block && f1.index == f.index
    requires s'.disk == s1.disk[f.block := s1.disk[f.block][ENTRY_SIZE * f.index := NAME_DELETED]]
    ensures Removed(g, s, s', f)
  {
    hide Fat, Layout.Fits, FileBytes, TailClean, CursorOn, Good, HasChain, Entry, FatConfined, Sound;
    SlotFacts(g, s.disk, f, extent);
    ClustersForNone(g);
    DataKeepsFat(g, s1.disk, s'.disk, f.block);
    assert f.chain[0..] == f.chain;
    assert (ENTRY_SIZE * f.index) / ENTRY_SIZE == f.index && (ENTRY_SIZE * f.index) % ENTRY_SIZE == 0;
    if f.size > 0 {
      assert SameButFields(s.disk[f.block], s1.disk[f.block], f.index);
    }
  }

  lemma SlotFacts(g: Layout, d: Disk, f: FileState, extent: nat)
    requires g.Fits(|d|) && Sound(g, d, f, extent)
    ensures 0 < f.block < |d| && f.index < 16 && !g.IsFatBlock(f.block) && !Owns(g, f.chain, f.block)
  {
  }
}
