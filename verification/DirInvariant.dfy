/** What a directory keeps: its files and subdirectories have chains that exist, no two of them
    the same, and creating or removing a file leaves this so (Modules/SD/SdFile.cpp:51-64,
    421-507, 850-868). */
module DirInvariant {
  import opened Bytes
  import opened Layouts
  import opened Chains
  import opened Cache
  import opened Volume
  import opened FileModel
  import opened Slots
  import opened Entries
  import opened DirModel

  // ---- A directory stays truthful -----------------------------------------------------------

  /** The same blocks with nothing dirty in the cache: what entries say is about the blocks only. */
  function Settled(s: CacheState): CacheState {
    s.(dirty := false)
  }

  lemma DisjointBothWays(a: seq<nat>, b: seq<nat>)
    requires Disjoint(a, b)
    ensures Disjoint(b, a)
  {
  }

  /** A described file is good in the settled state. */
  lemma DescribedIsGood(g: Layout, s: CacheState, block: nat, index: nat, ch: seq<nat>)
    requires g.Fits(|s.disk|) && Described(g, s.disk, block, index, ch)
    requires !IsVolumeLabel(Attributes(s.disk[block], index)) && !IsDirectoryEntry(Attributes(s.disk[block], index))
    ensures Good(g, Settled(s), Opened(s.disk[block], block, index, ch))
  {
    hide Fat, Layout.Fits, HasChain, EntryFirst, EntrySize, SlotHolds, SlotPlaced, Entry, Sound, Attributes;
  }

  lemma GoodIsDescribed(g: Layout, s: CacheState, b: Block, block: nat, index: nat, ch: seq<nat>)
    requires g.Fits(|s.disk|) && 0 < block < |s.disk| && index < ENTRIES_PER_BLOCK
    requires EntryBytes(s.disk[block], index) == EntryBytes(b, index)
    requires !IsVolumeLabel(Attributes(b, index)) && !IsDirectoryEntry(Attributes(b, index))
    requires Good(g, Settled(s), Opened(b, block, index, ch))
    ensures Described(g, s.disk, block, index, ch)
  {
    hide Fat, Layout.Fits, HasChain, EntryFirst, EntrySize, SlotHolds, SlotPlaced, Entry, Sound, TailClean;
    SameEntry(b, s.disk[block], index);
  }

  /** Entries with the same bytes say the same. */
  lemma SameEntry(b: Block, b': Block, index: nat)
    requires index < ENTRIES_PER_BLOCK && EntryBytes(b', index) == EntryBytes(b, index)
    ensures Attributes(b', index) == Attributes(b, index)
    ensures EntryFirst(b', index) == EntryFirst(b, index) && EntrySize(b', index) == EntrySize(b, index)
  {
    assert forall i :: 0 <= i < ENTRY_SIZE ==>
             b[ENTRY_SIZE * index + i] == EntryBytes(b, index)[i]
             && b'[ENTRY_SIZE * index + i] == EntryBytes(b', index)[i];
    SameFields(b, b', ENTRY_SIZE * index);
  }

  lemma SameFields(b: Block, b': Block, at: nat)
    requires at % ENTRY_SIZE == 0 && at + ENTRY_SIZE <= |b|
    requires forall i :: at <= i < at + ENTRY_SIZE ==> b'[i] == b[i]
    ensures Attributes(b', at / ENTRY_SIZE) == Attributes(b, at / ENTRY_SIZE)
    ensures EntryFirst(b', at / ENTRY_SIZE) == EntryFirst(b, at / ENTRY_SIZE)
    ensures EntrySize(b', at / ENTRY_SIZE) == EntrySize(b, at / ENTRY_SIZE)
  {
    assert ENTRY_SIZE * (at / ENTRY_SIZE) == at;
  }

  /** Growing a directory changes nothing about a file that an entry describes. */
  lemma DescribedWhenGrown(g: Layout, s: CacheState, s': CacheState, ch: seq<nat>, ch': seq<nat>, block: nat,
                           index: nat,
                           file: seq<nat>)
    requires g.Fits(|s.disk|) && Grown(g, s, s', ch, ch') && Described(g, s.disk, block, index, file)
    requires Disjoint(ch, file) && s'.disk[block] == s.disk[block]
    ensures Described(g, s'.disk, block, index, file)
            && (!IsVolumeLabel(Attributes(s.disk[block], index)) ==> Disjoint(ch', file))
  {
    hide Fat, Layout.Fits, FatConfined, HasChain, EntryFirst, EntrySize, Good, Sound, FileBytes, Rooted, Grown;
    var b := s.disk[block];
    if IsVolumeLabel(Attributes(b, index)) {
    } else if IsDirectoryEntry(Attributes(b, index)) {
      DirWhenGrown(g, s, s', ch, ch', OpenedDir(g, b, block, index, file));
    } else {
      DescribedIsGood(g, s, block, index, file);
      GrownSettled(g, s, s', ch, ch');
      GrownSpares(g, Settled(s), Settled(s'), ch, ch', Opened(b, block, index, file));
      SparedIsGood(g, Settled(s), Settled(s'), Opened(b, block, index, file));
      GoodIsDescribed(g, s', b, block, index, file);
    }
  }

  lemma GrownSettled(g: Layout, s: CacheState, s': CacheState, ch: seq<nat>, ch': seq<nat>)
    requires g.Fits(|s.disk|) && Grown(g, s, s', ch, ch')
    ensures Grown(g, Settled(s), Settled(s'), ch, ch')
  {
    hide Fat, Layout.Fits, FatConfined;
  }

  lemma DirWhenGrown(g: Layout, s: CacheState, s': CacheState, ch: seq<nat>, ch': seq<nat>, sub: FileState)
    requires g.Fits(|s.disk|) && Grown(g, s, s', ch, ch') && DirGood(g, s.disk, sub) && !sub.fixed
             && Disjoint(ch, sub.chain)
    ensures DirGood(g, s'.disk, sub) && Disjoint(ch', sub.chain)
  {
    hide Fat, Layout.Fits, FatConfined, HasChain;
    OtherChainKept(Fat(g, s.disk), Fat(g, s'.disk), g.EocMin(), ch, ch', sub.first, sub.chain);
  }

  /** Writing a directory entry changes nothing about a file that another entry describes, if
      the file is not in that directory. */
  lemma DescribedWhenWritten(g: Layout, s: CacheState, s': CacheState, slot: nat, slotIndex: nat, block: nat,
                             index: nat,
                             file: seq<nat>)
    requires g.Fits(|s.disk|) && SlotChanged(g, s, s', slot, slotIndex) && Described(g, s.disk, block, index, file)
    requires !Owns(g, file, slot) && (block != slot || index != slotIndex)
    ensures Described(g, s'.disk, block, index, file)
  {
    hide Fat, Layout.Fits, HasChain, EntryFirst, EntrySize, Good, Sound, FileBytes, Rooted, SlotChanged, Owns;
    var b := s.disk[block];
    SlotFrame(g, s, s', slot, slotIndex, block, index);
    SameEntry(b, s'.disk[block], index);
    if IsVolumeLabel(Attributes(b, index)) {
    } else if IsDirectoryEntry(Attributes(b, index)) {
      SlotKeepsFat(g, s, s', slot, slotIndex);
      DirGoodSameTable(g, s.disk, s'.disk, OpenedDir(g, b, block, index, file));
    } else {
      DescribedIsGood(g, s, block, index, file);
      SlotSettled(g, s, s', slot, slotIndex);
      SlotSpares(g, Settled(s), Settled(s'), slot, slotIndex, Opened(b, block, index, file));
      SparedIsGood(g, Settled(s), Settled(s'), Opened(b, block, index, file));
      GoodIsDescribed(g, s', b, block, index, file);
    }
  }

  lemma SlotSettled(g: Layout, s: CacheState, s': CacheState, block: nat, index: nat)
    requires SlotChanged(g, s, s', block, index)
    ensures SlotChanged(g, Settled(s), Settled(s'), block, index)
  {
    hide SameButEntry;
  }

  lemma SlotFrame(g: Layout, s: CacheState, s': CacheState, slot: nat, slotIndex: nat, block: nat, index: nat)
    requires SlotChanged(g, s, s', slot, slotIndex) && block < |s.disk| && index < ENTRIES_PER_BLOCK
    requires block != slot || index != slotIndex
    ensures EntryBytes(s'.disk[block], index) == EntryBytes(s.disk[block], index)
  {
    forall i | 0 <= i < ENTRY_SIZE
      ensures EntryBytes(s'.disk[block], index)[i] == EntryBytes(s.disk[block], index)[i]
    {
      assert (ENTRY_SIZE * index + i) / ENTRY_SIZE == index;
    }
  }

  lemma DirGoodSameTable(g: Layout, d: Disk, d': Disk, dir: FileState)
    requires g.Fits(|d|) && |d'| == |d| && DirGood(g, d, dir) && Fat(g, d') == Fat(g, d)
    ensures DirGood(g, d', dir)
  {
    hide Fat, Layout.Fits;
  }

  /** The entries that a directory had before it grew are where they were. */
  lemma BlockOfGrown(g: Layout, s: CacheState, s': CacheState, dir: FileState, dir': FileState, k: nat)
    requires g.Fits(|s.disk|) && DirGood(g, s.disk, dir) && !dir.fixed && !dir'.fixed && k < dir.size / ENTRY_SIZE
    requires Grown(g, s, s', dir.chain, dir'.chain) && DirGood(g, s'.disk, dir') && dir.size <= dir'.size
    ensures k < dir'.size / ENTRY_SIZE && BlockOf(g, dir', k) == BlockOf(g, dir, k) < |s.disk|
    ensures s'.disk[BlockOf(g, dir, k)] == s.disk[BlockOf(g, dir, k)]
  {
    hide Fat, Layout.Fits, HasChain, FatConfined;
    EntryInBlock(g, s.disk, dir, k);
    BlockAtPrefix(g, dir.chain, dir'.chain, k / ENTRIES_PER_BLOCK);
  }

  lemma GrownStaysTruthful(g: Layout, s: CacheState, s': CacheState, dir: FileState, dir': FileState)
    requires g.Fits(|s.disk|) && DirGood(g, s.disk, dir) && Truthful(g, s.disk, dir) && !dir.fixed && !dir'.fixed
    requires Grown(g, s, s', dir.chain, dir'.chain) && DirGood(g, s'.disk, dir')
    requires DirBytes(g, s'.disk, dir') == DirBytes(g, s.disk, dir) + Zeros(BLOCK_SIZE * g.blocksPerCluster)
    ensures Truthful(g, s'.disk, dir')
  {
    hide Fat, Layout.Fits, DirGood, DirBytes, Grown, Described, BlockOf;
    var b, b' := DirBytes(g, s.disk, dir), DirBytes(g, s'.disk, dir');
    forall k | 0 <= k < dir'.size / ENTRY_SIZE && IsMember(b', k)
      ensures IsDescribed(g, s'.disk, dir', k)
    {
      LiveIsOld(b, Zeros(BLOCK_SIZE * g.blocksPerCluster), k);
      BlockOfGrown(g, s, s', dir, dir', k);
      EntryWhenGrown(g, s, s', dir, dir', k);
    }
  }

  lemma LiveIsOld(b: seq<byte>, zeros: seq<byte>, k: nat)
    requires IsDirectory(b) && forall i :: 0 <= i < |zeros| ==> zeros[i] == 0
    requires k < Count(b + zeros) && IsMember(b + zeros, k)
    ensures k < Count(b) && IsMember(b, k)
  {
    assert |b| == ENTRY_SIZE * Count(b);
  }

  lemma EntryWhenGrown(g: Layout, s: CacheState, s': CacheState, dir: FileState, dir': FileState, k: nat)
    requires g.Fits(|s.disk|) && DirGood(g, s.disk, dir) && k < dir.size / ENTRY_SIZE && IsDescribed(g, s.disk, dir, k)
    requires Grown(g, s, s', dir.chain, dir'.chain) && DirGood(g, s'.disk, dir')
    requires k < dir'.size / ENTRY_SIZE && BlockOf(g, dir', k) == BlockOf(g, dir, k) < |s.disk|
    requires s'.disk[BlockOf(g, dir, k)] == s.disk[BlockOf(g, dir, k)]
    ensures IsDescribed(g, s'.disk, dir', k)
  {
    hide Fat, Layout.Fits, DirGood, Grown, BlockOf, Sound, HasBytes, EntryFirst, EntrySize;
    var block, index := BlockOf(g, dir, k), k % ENTRIES_PER_BLOCK;
    var file :| Described(g, s.disk, block, index, file) && Disjoint(file, dir.chain);
    DisjointBothWays(file, dir.chain);
    DescribedWhenGrown(g, s, s', dir.chain, dir'.chain, block, index, file);
    if IsVolumeLabel(Attributes(s.disk[block], index)) {
      assert Described(g, s'.disk, block, index, []) && Disjoint([], dir'.chain);
    } else {
      DisjointBothWays(dir'.chain, file);
      assert Described(g, s'.disk, block, index, file) && Disjoint(file, dir'.chain);
    }
  }

  /** Writing a new entry keeps a directory truthful. */
  lemma WrittenStaysTruthful(g: Layout, s: CacheState, s': CacheState, dir: FileState, v: nat, name: seq<byte>)
    requires g.Fits(|s.disk|) && DirGood(g, s.disk, dir) && Truthful(g, s.disk, dir) && v < dir.size / ENTRY_SIZE
    requires SlotChanged(g, s, s', BlockOf(g, dir, v), v % ENTRIES_PER_BLOCK) && |name| == NAME_SIZE
    requires EntryBytes(s'.disk[BlockOf(g, dir, v)], v % ENTRIES_PER_BLOCK) == NewEntry(name)
    ensures DirGood(g, s'.disk, dir) && Truthful(g, s'.disk, dir)
  {
    hide Fat, Layout.Fits, DirGood, DirBytes, SlotChanged, Described, BlockOf, NewEntry, EntryBytes, WithEntry, Entry;
    SlotInBytes(g, s, s', dir, v);
    forall k | 0 <= k < dir.size / ENTRY_SIZE && IsMember(DirBytes(g, s'.disk, dir), k)
      ensures IsDescribed(g, s'.disk, dir, k)
    {
      WithEntryReads(DirBytes(g, s.disk, dir), v, NewEntry(name), k);
      SlotInUse(g, s'.disk, dir, k);
      if k == v {
        NewEntryIsDescribed(g, s'.disk, BlockOf(g, dir, v), v % ENTRIES_PER_BLOCK, name);
        assert Disjoint([], dir.chain);
      } else {
        EntryWhenWritten(g, s, s', dir, v, k);
      }
    }
  }

  lemma EntryWhenWritten(g: Layout, s: CacheState, s': CacheState, dir: FileState, v: nat, k: nat)
    requires g.Fits(|s.disk|) && DirGood(g, s.disk, dir) && v < dir.size / ENTRY_SIZE && k < dir.size / ENTRY_SIZE
             && k != v
    requires SlotChanged(g, s, s', BlockOf(g, dir, v), v % ENTRIES_PER_BLOCK) && DirGood(g, s'.disk, dir)
    requires IsDescribed(g, s.disk, dir, k)
    ensures IsDescribed(g, s'.disk, dir, k)
  {
    hide Fat, Layout.Fits, DirGood, SlotChanged, Described, BlockOf, Owns;
    var block, index := BlockOf(g, dir, k), k % ENTRIES_PER_BLOCK;
    var file :| Described(g, s.disk, block, index, file) && Disjoint(file, dir.chain);
    DisjointBothWays(file, dir.chain);
    DirNotOwned(g, s.disk, dir, v, file);
    if block == BlockOf(g, dir, v) && index == v % ENTRIES_PER_BLOCK {
      SameSlot(g, |s.disk|, dir, k, v);
    }
    DescribedWhenWritten(g, s, s', BlockOf(g, dir, v), v % ENTRIES_PER_BLOCK, block, index, file);
  }

  // ---- Chains of different entries ------------------------------------------------------------

  /** The first cluster in entry `k`, or 0 if it has none. */
  ghost function FirstAt(g: Layout, d: Disk, dir: FileState, k: nat): nat
    requires g.Fits(|d|) && DirGood(g, d, dir) && k < dir.size / ENTRY_SIZE
  {
    var block := BlockOf(g, dir, k);
    if block < |d| then EntryFirst(d[block], k % ENTRIES_PER_BLOCK) else 0
  }

  /** Nothing links to cluster `c`, which is in use, but not by the directory; or `c` is none. */
  predicate StartsFile(fat: seq<nat>, dirChain: seq<nat>, c: nat) {
    c != 0 ==> 2 <= c < |fat| && fat[c] != 0 && IsHead(fat, c) && c !in dirChain
  }

  /** The table is well formed, and every file and subdirectory of the directory has a chain to
      itself. */
  ghost predicate Orderly(g: Layout, d: Disk, dir: FileState)
    requires g.Fits(|d|) && DirGood(g, d, dir)
  {
    && WellFormed(Fat(g, d), g.EocMin()) && Rooted(Fat(g, d), dir.chain)
    && (forall k :: 0 <= k < dir.size / ENTRY_SIZE && IsMember(DirBytes(g, d, dir), k) ==>
                      StartsFile(Fat(g, d), dir.chain, FirstAt(g, d, dir, k)))
    && (forall k, l ::
          0 <= k < l < dir.size / ENTRY_SIZE && IsMember(DirBytes(g, d, dir), k) && IsMember(DirBytes(g, d, dir), l) ==>
            FirstAt(g, d, dir, k) != FirstAt(g, d, dir, l) || FirstAt(g, d, dir, k) == 0)
  }

  lemma OrderlyMoves(g: Layout, d: Disk, dir: FileState, dir': FileState)
    requires g.Fits(|d|) && DirGood(g, d, dir) && Orderly(g, d, dir) && dir' == dir.(pos := dir'.pos, cur := dir'.cur)
    ensures DirGood(g, d, dir') && Orderly(g, d, dir')
  {
    hide Fat, Layout.Fits, DirGood, DirBytes, WellFormed, StartsFile;
    DirGoodMoves(g, d, dir, dir');
    forall k | 0 <= k < dir.size / ENTRY_SIZE
      ensures FirstAt(g, d, dir', k) == FirstAt(g, d, dir, k)
    {
    }
  }

  lemma FirstWhenWritten(g: Layout, s: CacheState, s': CacheState, dir: FileState, v: nat, k: nat)
    requires g.Fits(|s.disk|) && DirGood(g, s.disk, dir) && v < dir.size / ENTRY_SIZE && k < dir.size / ENTRY_SIZE
             && k != v
    requires SlotChanged(g, s, s', BlockOf(g, dir, v), v % ENTRIES_PER_BLOCK) && DirGood(g, s'.disk, dir)
    ensures FirstAt(g, s'.disk, dir, k) == FirstAt(g, s.disk, dir, k)
  {
    hide Fat, Layout.Fits, DirGood, SlotChanged, BlockOf, EntryFirst;
    var block, index := BlockOf(g, dir, k), k % ENTRIES_PER_BLOCK;
    EntryInBlock(g, s.disk, dir, k);
    if block == BlockOf(g, dir, v) && index == v % ENTRIES_PER_BLOCK {
      SameSlot(g, |s.disk|, dir, k, v);
    }
    SlotFrame(g, s, s', BlockOf(g, dir, v), v % ENTRIES_PER_BLOCK, block, index);
    SameEntry(s.disk[block], s'.disk[block], index);
  }

  /** Writing a new entry leaves a directory orderly. */
  lemma WrittenStaysOrderly(g: Layout, s: CacheState, s': CacheState, dir: FileState, v: nat, name: seq<byte>)
    requires g.Fits(|s.disk|) && DirGood(g, s.disk, dir) && Orderly(g, s.disk, dir) && v < dir.size / ENTRY_SIZE
    requires SlotChanged(g, s, s', BlockOf(g, dir, v), v % ENTRIES_PER_BLOCK) && |name| == NAME_SIZE
    requires EntryBytes(s'.disk[BlockOf(g, dir, v)], v % ENTRIES_PER_BLOCK) == NewEntry(name)
    ensures DirGood(g, s'.disk, dir) && Orderly(g, s'.disk, dir)
  {
    hide Fat, Layout.Fits, DirGood, DirBytes, SlotChanged, BlockOf, NewEntry, EntryBytes, WithEntry, WellFormed,
      StartsFile, Described, FirstAt;
    SlotInBytes(g, s, s', dir, v);
    SlotKeepsFat(g, s, s', BlockOf(g, dir, v), v % ENTRIES_PER_BLOCK);
    NewEntryFirst(g, s'.disk, dir, v, name);
    forall k | 0 <= k < dir.size / ENTRY_SIZE && IsMember(DirBytes(g, s'.disk, dir), k) && k != v
      ensures IsMember(DirBytes(g, s.disk, dir), k) && FirstAt(g, s'.disk, dir, k) == FirstAt(g, s.disk, dir, k)
    {
      WithEntryReads(DirBytes(g, s.disk, dir), v, NewEntry(name), k);
      FirstWhenWritten(g, s, s', dir, v, k);
    }
    assert StartsFile(Fat(g, s'.disk), dir.chain, 0) by {
      NoneStartsFile(Fat(g, s'.disk), dir.chain);
    }
  }

  lemma NoneStartsFile(fat: seq<nat>, dirChain: seq<nat>)
    ensures StartsFile(fat, dirChain, 0)
  {
  }

  lemma NewEntryFirst(g: Layout, d: Disk, dir: FileState, v: nat, name: seq<byte>)
    requires g.Fits(|d|) && DirGood(g, d, dir) && v < dir.size / ENTRY_SIZE && |name| == NAME_SIZE
    requires BlockOf(g, dir, v) < |d| ==> EntryBytes(d[BlockOf(g, dir, v)], v % ENTRIES_PER_BLOCK) == NewEntry(name)
    ensures FirstAt(g, d, dir, v) == 0
  {
    hide Fat, Layout.Fits, DirGood, BlockOf, Described, NewEntry, EntryBytes, Entry, EntryFirst;
    SlotInUse(g, d, dir, v);
    NewEntryIsDescribed(g, d, BlockOf(g, dir, v), v % ENTRIES_PER_BLOCK, name);
  }

  lemma StartsWhenGrown(fat: seq<nat>, fat': seq<nat>, ch: seq<nat>, ch': seq<nat>, c: nat)
    requires FatConfined(fat, fat', ch, ch') && StartsFile(fat, ch, c)
    ensures StartsFile(fat', ch', c)
  {
    if c != 0 {
      StartsStays(fat, fat', ch, ch', ch, c);
    }
  }

  /** So does growing it. */
  lemma GrownStaysOrderly(g: Layout, s: CacheState, s': CacheState, dir: FileState, dir': FileState)
    requires g.Fits(|s.disk|) && DirGood(g, s.disk, dir) && Orderly(g, s.disk, dir) && !dir.fixed && !dir'.fixed
    requires Grown(g, s, s', dir.chain, dir'.chain) && DirGood(g, s'.disk, dir')
    requires DirBytes(g, s'.disk, dir') == DirBytes(g, s.disk, dir) + Zeros(BLOCK_SIZE * g.blocksPerCluster)
    requires FormKept(Fat(g, s.disk), Fat(g, s'.disk), g.EocMin(), dir.chain, dir'.chain)
    ensures Orderly(g, s'.disk, dir')
  {
    hide Fat, Layout.Fits, DirGood, DirBytes, FatConfined, BlockOf, WellFormed, StartsFile, EntryFirst;
    var b, b' := DirBytes(g, s.disk, dir), DirBytes(g, s'.disk, dir');
    forall k | 0 <= k < dir'.size / ENTRY_SIZE && IsMember(b', k)
      ensures k < dir.size / ENTRY_SIZE && IsMember(b, k) && FirstAt(g, s'.disk, dir', k) == FirstAt(g, s.disk, dir, k)
      ensures StartsFile(Fat(g, s'.disk), dir'.chain, FirstAt(g, s'.disk, dir', k))
    {
      LiveIsOld(b, Zeros(BLOCK_SIZE * g.blocksPerCluster), k);
      BlockOfGrown(g, s, s', dir, dir', k);
      StartsWhenGrown(Fat(g, s.disk), Fat(g, s'.disk), dir.chain, dir'.chain, FirstAt(g, s.disk, dir, k));
    }
  }

  // ---- What operations on a file leave --------------------------------------------------------

  /** `f` is a good handle on the file of entry `k`, and its chain is that of no other file or
      subdirectory: what `Orderly` gives for a handle that agrees with its entry. */
  ghost predicate SoleOwner(g: Layout, s: CacheState, f: FileState, dir: FileState, k: nat)
    requires g.Fits(|s.disk|) && DirGood(g, s.disk, dir)
  {
    && Good(g, s, f) && Disjoint(f.chain, dir.chain) && Rooted(Fat(g, s.disk), f.chain)
    && k < dir.size / ENTRY_SIZE && f.block == BlockOf(g, dir, k) && f.index == k % ENTRIES_PER_BLOCK
    && (forall l :: 0 <= l < dir.size / ENTRY_SIZE && l != k && IsMember(DirBytes(g, s.disk, dir), l) ==>
                      f.first == 0 || FirstAt(g, s.disk, dir, l) != f.first)
  }

  ghost predicate EntryKept(g: Layout, d: Disk, d': Disk, dir: FileState, j: nat)
    requires HasBytes(g, dir.fixed, dir.chain, dir.size) && j < dir.size / ENTRY_SIZE
  {
    && BlockOf(g, dir, j) < |d| && BlockOf(g, dir, j) < |d'|
    && EntryBytes(d'[BlockOf(g, dir, j)], j % ENTRIES_PER_BLOCK) ==
       EntryBytes(d[BlockOf(g, dir, j)], j % ENTRIES_PER_BLOCK)
  }

  /** Of a directory at most entry `k` changed, and of the table at most what the chains `ch` and
      `ch'` and free clusters were. */
  ghost predicate OthersKept(g: Layout, s: CacheState, s': CacheState, ch: seq<nat>, ch': seq<nat>, dir: FileState,
                             k: nat)
    requires g.Fits(|s.disk|) && DirGood(g, s.disk, dir)
  {
    && |s'.disk| == |s.disk| && DirGood(g, s'.disk, dir) && InRange(g, ch') && Disjoint(ch', dir.chain)
    && FatConfined(Fat(g, s.disk), Fat(g, s'.disk), ch, ch')
    && (forall j :: 0 <= j < dir.size / ENTRY_SIZE && j != k ==> EntryKept(g, s.disk, s'.disk, dir, j))
  }

  /** An entry that was kept is a file or subdirectory if it was, and begins the same chain. */
  lemma KeptEntry(g: Layout, s: CacheState, s': CacheState, dir: FileState, j: nat)
    requires g.Fits(|s.disk|) && |s'.disk| == |s.disk| && DirGood(g, s.disk, dir) && DirGood(g, s'.disk, dir)
    requires j < dir.size / ENTRY_SIZE && EntryKept(g, s.disk, s'.disk, dir, j)
    ensures IsMember(DirBytes(g, s'.disk, dir), j) == IsMember(DirBytes(g, s.disk, dir), j)
    ensures FirstAt(g, s'.disk, dir, j) == FirstAt(g, s.disk, dir, j)
  {
    hide Fat, Layout.Fits, DirBytes, DirGood, BlockOf, EntryFirst, EntryBytes;
    EntryInBlock(g, s.disk, dir, j);
    EntryInBlock(g, s'.disk, dir, j);
    var b, b' := DirBytes(g, s.disk, dir), DirBytes(g, s'.disk, dir);
    var o := ENTRY_SIZE * j;
    assert b[o..o + ENTRY_SIZE][0] == b[o] && b'[o..o + ENTRY_SIZE][0] == b'[o];
    assert b[o..o + ENTRY_SIZE][OFF_ATTR] == b[o + OFF_ATTR] && b'[o..o + ENTRY_SIZE][OFF_ATTR] == b'[o + OFF_ATTR];
    SameEntry(s.disk[BlockOf(g, dir, j)], s'.disk[BlockOf(g, dir, j)], j % ENTRIES_PER_BLOCK);
  }

  /** A cluster that begins another chain is not in this one. */
  lemma HeadNotInside(g: Layout, d: Disk, f: FileState, dirChain: seq<nat>, c: nat)
    requires g.Fits(|d|) && Sound(g, d, f, f.size) && StartsFile(Fat(g, d), dirChain, c)
             && (f.first == 0 || c != f.first)
    ensures c !in f.chain
  {
    hide Fat, Layout.Fits;
    SoundChain(g, d, f);
    forall i | 0 <= i < |f.chain|
      ensures f.chain[i] != c
    {
      assert i > 0 ==> Fat(g, d)[f.chain[i - 1]] == f.chain[i];
    }
  }

  lemma StartsStays(fat: seq<nat>, fat': seq<nat>, ch: seq<nat>, ch': seq<nat>, dirChain: seq<nat>, c: nat)
    requires FatConfined(fat, fat', ch, ch') && StartsFile(fat, dirChain, c) && c !in ch
    ensures StartsFile(fat', dirChain, c) && (c != 0 ==> c !in ch')
  {
    if c != 0 {
      forall d | 2 <= d < |fat|
        ensures fat'[d] != c
      {
        assert NewLink(fat, fat', ch, d);
      }
    }
  }

  lemma SoundChain(g: Layout, d: Disk, f: FileState)
    requires g.Fits(|d|) && Sound(g, d, f, f.size)
    ensures f.chain != [] ==> IsChain(Fat(g, d), g.EocMin(), f.chain) && f.chain[0] == f.first != 0
    ensures f.chain == [] ==> f.first == 0
  {
    hide Fat, Layout.Fits;
  }

  /** The other entries still begin chains of their own. */
  lemma OtherStarts(g: Layout, s: CacheState, s': CacheState, f: FileState, ch': seq<nat>, dir: FileState, k: nat,
                    j: nat)
    requires g.Fits(|s.disk|) && DirGood(g, s.disk, dir) && SoleOwner(g, s, f, dir, k) && Orderly(g, s.disk, dir)
    requires OthersKept(g, s, s', f.chain, ch', dir, k) && j < dir.size / ENTRY_SIZE && j != k
    requires IsMember(DirBytes(g, s'.disk, dir), j)
    ensures IsMember(DirBytes(g, s.disk, dir), j) && FirstAt(g, s'.disk, dir, j) == FirstAt(g, s.disk, dir, j)
    ensures var c := FirstAt(g, s'.disk, dir, j);
      StartsFile(Fat(g, s'.disk), dir.chain, c) && (c != 0 ==> c !in ch')
  {
    hide Fat, Layout.Fits, DirBytes, DirGood, BlockOf, StartsFile, WellFormed, FirstAt, Sound, TailClean, CursorOn,
      FatConfined;
    KeptEntry(g, s, s', dir, j);
    var c := FirstAt(g, s.disk, dir, j);
    HeadNotInside(g, s.disk, f, dir.chain, c);
    StartsStays(Fat(g, s.disk), Fat(g, s'.disk), f.chain, ch', dir.chain, c);
  }

  lemma ChainsApart(g: Layout, s: CacheState, f: FileState, first: nat, ch: seq<nat>)
    requires g.Fits(|s.disk|) && Good(g, s, f) && WellFormed(Fat(g, s.disk), g.EocMin())
    requires Rooted(Fat(g, s.disk), f.chain) && (f.first == 0 || first != f.first)
    requires ch != [] ==> IsChain(Fat(g, s.disk), g.EocMin(), ch) && ch[0] == first && IsHead(Fat(g, s.disk), first)
    ensures Disjoint(f.chain, ch)
  {
    hide Fat, Layout.Fits, Sound, WellFormed, TailClean, CursorOn, IsChain;
    SoundChain(g, s.disk, f);
    if f.chain != [] && ch != [] {
      HeadsDisjoint(Fat(g, s.disk), g.EocMin(), f.chain, ch);
    }
  }

  lemma DirChainIs(g: Layout, d: Disk, dir: FileState)
    requires g.Fits(|d|) && DirGood(g, d, dir) && !dir.fixed
    ensures dir.chain != [] && IsChain(Fat(g, d), g.EocMin(), dir.chain) && dir.chain[0] == dir.first
  {
    hide Fat, Layout.Fits;
  }

  /** And they describe them. */
  lemma OtherDescribed(g: Layout, s: CacheState, s': CacheState, f: FileState, ch': seq<nat>, dir: FileState, k: nat,
                       j: nat)
    requires g.Fits(|s.disk|) && DirGood(g, s.disk, dir) && SoleOwner(g, s, f, dir, k) && Orderly(g, s.disk, dir)
    requires OthersKept(g, s, s', f.chain, ch', dir, k) && j < dir.size / ENTRY_SIZE && j != k
    requires IsMember(DirBytes(g, s.disk, dir), j) && Truthful(g, s.disk, dir)
    ensures IsDescribed(g, s'.disk, dir, j)
  {
    hide Fat, Layout.Fits, DirBytes, DirGood, StartsFile, WellFormed, Described, Good, Rooted, FatConfined, BlockOf;
    assert IsDescribed(g, s.disk, dir, j);
    var ch :| Described(g, s.disk, BlockOf(g, dir, j), j % ENTRIES_PER_BLOCK, ch) && Disjoint(ch, dir.chain);
    SlotInUse(g, s'.disk, dir, j);
    DescribedStays(g, s, s', f, ch', dir, j, ch);
  }

  lemma DescribedStays(g: Layout, s: CacheState, s': CacheState, f: FileState, ch': seq<nat>, dir: FileState, j: nat,
                       ch: seq<nat>)
    requires g.Fits(|s.disk|) && DirGood(g, s.disk, dir) && j < dir.size / ENTRY_SIZE && Good(g, s, f)
    requires |s'.disk| == |s.disk| && FatConfined(Fat(g, s.disk), Fat(g, s'.disk), f.chain, ch') && InRange(g, ch')
    requires WellFormed(Fat(g, s.disk), g.EocMin()) && Rooted(Fat(g, s.disk), f.chain)
    requires StartsFile(Fat(g, s.disk), dir.chain, FirstAt(g, s.disk, dir, j))
    requires f.first == 0 || FirstAt(g, s.disk, dir, j) != f.first
    requires EntryKept(g, s.disk, s'.disk, dir, j)
    requires
      var block, index := BlockOf(g, dir, j), j % ENTRIES_PER_BLOCK;
      && Described(g, s.disk, block, index, ch)
      && (g.dataStart <= block ==>
            ClusterOf(g, block) < g.Clusters() && Entry(g, s'.disk, ClusterOf(g, block)) != 0)
    ensures Described(g, s'.disk, BlockOf(g, dir, j), j % ENTRIES_PER_BLOCK, ch)
  {
    hide Fat, Layout.Fits, DirGood, BlockOf, WellFormed, EntryFirst, EntrySize, Good, Attributes, Sound, Entry,
      FatConfined;
    var block, index := BlockOf(g, dir, j), j % ENTRIES_PER_BLOCK;
    var b := s.disk[block];
    SameEntry(b, s'.disk[block], index);
    if !IsVolumeLabel(Attributes(b, index)) {
      if IsDirectoryEntry(Attributes(b, index)) {
        var sub := OpenedDir(g, b, block, index, ch);
        DirChainIs(g, s.disk, sub);
        ChainsApart(g, s, f, sub.first, ch);
        DirChainKept(g, s, s', f, ch', sub);
      } else {
        var file := Opened(b, block, index, ch);
        SoundChain(g, s.disk, file);
        ChainsApart(g, s, f, file.first, ch);
        SoundStays(g, s, s', f.chain, ch', file);
      }
    }
  }

  lemma SoundStays(g: Layout, s: CacheState, s': CacheState, ch: seq<nat>, ch': seq<nat>, h: FileState)
    requires g.Fits(|s.disk|) && |s'.disk| == |s.disk| && InRange(g, ch')
    requires FatConfined(Fat(g, s.disk), Fat(g, s'.disk), ch, ch')
    requires Sound(g, s.disk, h, h.size) && Disjoint(ch, h.chain) && h.block < |s.disk| && !h.dirDirty
    requires h.index < ENTRIES_PER_BLOCK
             && EntryBytes(s'.disk[h.block], h.index) == EntryBytes(s.disk[h.block], h.index)
    requires g.dataStart <= h.block ==>
               ClusterOf(g, h.block) < g.Clusters() && Entry(g, s'.disk, ClusterOf(g, h.block)) != 0
    ensures Sound(g, s'.disk, h, h.size)
  {
    hide Fat, Layout.Fits, Entry, EntryFirst, EntrySize, EntryBytes, FatConfined, HasChain;
    SameEntry(s.disk[h.block], s'.disk[h.block], h.index);
    OtherChainKept(Fat(g, s.disk), Fat(g, s'.disk), g.EocMin(), ch, ch', h.first, h.chain);
  }

  // ---- Removing -------------------------------------------------------------------------------

  lemma RemovedKeepsOthers(g: Layout, s: CacheState, s': CacheState, f: FileState, dir: FileState, k: nat)
    requires g.Fits(|s.disk|) && DirGood(g, s.disk, dir) && SoleOwner(g, s, f, dir, k) && Removed(g, s, s', f)
    ensures OthersKept(g, s, s', f.chain, [], dir, k) && !IsMember(DirBytes(g, s'.disk, dir), k)
  {
    hide Fat, Layout.Fits, DirBytes, Owns, DirGood, Good, BlockOf, Rooted, FirstAt, SameButName;
    RemovedKeepsChain(g, s, s', f, dir);
    RemovedByte(g, s, s', f, dir, k, k, 0);
    assert EntryByte(DirBytes(g, s'.disk, dir), k, 0) == Mark(DirBytes(g, s'.disk, dir), k);
    forall j | 0 <= j < dir.size / ENTRY_SIZE && j != k
      ensures EntryKept(g, s.disk, s'.disk, dir, j)
    {
      EntryInBlock(g, s.disk, dir, j);
      NotOwned(g, f, f.chain, dir, BlockOf(g, dir, j));
      if BlockOf(g, dir, j) == f.block {
        if j % ENTRIES_PER_BLOCK == f.index {
          SameSlot(g, |s.disk|, dir, j, k);
        }
        SameButNameSlot(s.disk[f.block], s'.disk[f.block], f.index, j % ENTRIES_PER_BLOCK);
      }
    }
    assert FatConfined(Fat(g, s.disk), Fat(g, s'.disk), f.chain, []) by {
      FreedConfined(Fat(g, s.disk), f.chain);
    }
  }

  lemma FreedConfined(fat: seq<nat>, ch: seq<nat>)
    ensures FatConfined(fat, fat, ch, []) && FatConfined(fat, ZeroAll(fat, ch), ch, [])
  {
  }

  lemma SameButNameSlot(b: Block, b': Block, index: nat, other: nat)
    requires SameButName(b, b', index) && other < ENTRIES_PER_BLOCK && other != index
    ensures EntryBytes(b', other) == EntryBytes(b, other)
  {
    forall i | 0 <= i < ENTRY_SIZE
      ensures EntryBytes(b', other)[i] == EntryBytes(b, other)[i]
    {
      assert (ENTRY_SIZE * other + i) / ENTRY_SIZE == other;
    }
  }

  /** Removing a file leaves its directory orderly, and truthful if it was. */
  lemma RemovedStays(g: Layout, s: CacheState, s': CacheState, f: FileState, dir: FileState, k: nat)
    requires g.Fits(|s.disk|) && DirGood(g, s.disk, dir) && SoleOwner(g, s, f, dir, k) && Removed(g, s, s', f)
    requires Orderly(g, s.disk, dir)
    ensures DirGood(g, s'.disk, dir) && Orderly(g, s'.disk, dir)
    ensures Truthful(g, s.disk, dir) ==> Truthful(g, s'.disk, dir)
  {
    hide Fat, Layout.Fits, DirBytes, DirGood, BlockOf, StartsFile, WellFormed, FirstAt, Removed, IsDescribed, Rooted,
      FatConfined;
    RemovedKeepsOthers(g, s, s', f, dir, k);
    RemovedWellFormed(g, s, s', f, f.size);
    DirRootKept(g, s, s', f, [], dir);
    forall j | 0 <= j < dir.size / ENTRY_SIZE && IsMember(DirBytes(g, s'.disk, dir), j)
      ensures j != k && IsMember(DirBytes(g, s.disk, dir), j)
      ensures FirstAt(g, s'.disk, dir, j) == FirstAt(g, s.disk, dir, j)
      ensures StartsFile(Fat(g, s'.disk), dir.chain, FirstAt(g, s'.disk, dir, j))
      ensures Truthful(g, s.disk, dir) ==> IsDescribed(g, s'.disk, dir, j)
    {
      OtherStarts(g, s, s', f, [], dir, k, j);
      if Truthful(g, s.disk, dir) {
        OtherDescribed(g, s, s', f, [], dir, k, j);
      }
    }
  }

  // ---- Writing and truncating -----------------------------------------------------------------

  lemma FileOpKeepsOthers(g: Layout, s: CacheState, s': CacheState, f: FileState, ch': seq<nat>, dir: FileState,
                          k: nat)
    requires g.Fits(|s.disk|) && DirGood(g, s.disk, dir) && SoleOwner(g, s, f, dir, k) && InRange(g, ch')
    requires Isolated(g, s, s', f.chain, ch', f.block, f.index)
    ensures OthersKept(g, s, s', f.chain, ch', dir, k)
  {
    hide Fat, Layout.Fits, DirBytes, Owns, DirGood, Good, BlockOf, Rooted, FirstAt, SameButFields, FatConfined;
    DirChainKept(g, s, s', f, ch', dir);
    EntryInBlock(g, s.disk, dir, k);
    NotOwned(g, f, ch', dir, BlockOf(g, dir, k));
    forall j | 0 <= j < dir.size / ENTRY_SIZE && j != k
      ensures EntryKept(g, s.disk, s'.disk, dir, j)
    {
      EntryInBlock(g, s.disk, dir, j);
      NotOwned(g, f, ch', dir, BlockOf(g, dir, j));
      if BlockOf(g, dir, j) == f.block {
        if j % ENTRIES_PER_BLOCK == f.index {
          SameSlot(g, |s.disk|, dir, j, k);
        }
        SameButFieldsSlot(s.disk[f.block], s'.disk[f.block], f.index, j % ENTRIES_PER_BLOCK);
      }
    }
  }

  lemma SameButFieldsSlot(b: Block, b': Block, index: nat, other: nat)
    requires SameButFields(b, b', index) && other < ENTRIES_PER_BLOCK && other != index
    ensures EntryBytes(b', other) == EntryBytes(b, other)
  {
    forall i | 0 <= i < ENTRY_SIZE
      ensures EntryBytes(b', other)[i] == EntryBytes(b, other)[i]
    {
      assert (ENTRY_SIZE * other + i) / ENTRY_SIZE == other;
    }
  }

  lemma AttributesKept(b: Block, b': Block, index: nat)
    requires SameButFields(b, b', index) && index < ENTRIES_PER_BLOCK
    ensures Attributes(b', index) == Attributes(b, index)
  {
    var o := ENTRY_SIZE * index + OFF_ATTR;
    assert o / ENTRY_SIZE == index && o % ENTRY_SIZE == OFF_ATTR;
  }

  /** An operation that ends with the entry of the file up to date leaves the directory orderly,
      and truthful if it was. */
  lemma FileOpStays(g: Layout, s: CacheState, s': CacheState, f: FileState, f': FileState, dir: FileState, k: nat)
    requires g.Fits(|s.disk|) && DirGood(g, s.disk, dir) && SoleOwner(g, s, f, dir, k) && Orderly(g, s.disk, dir)
    requires Confined(g, s, s', f.chain, f'.chain, f.block, f.index)
    requires f'.block == f.block && f'.index == f.index && Good(g, s', f') && !f'.dirDirty
    requires f.block < |s.disk| && !IsDirectoryEntry(Attributes(s.disk[f.block], f.index))
    ensures DirGood(g, s'.disk, dir) && Orderly(g, s'.disk, dir)
    ensures Truthful(g, s.disk, dir) ==> Truthful(g, s'.disk, dir)
  {
    hide Fat, Layout.Fits, DirBytes, DirGood, BlockOf, StartsFile, WellFormed, FirstAt, IsDescribed, Rooted,
      FatConfined, Isolated, Sound, TailClean, CursorOn, SameButFields, Attributes;
    FileOpKeepsOthers(g, s, s', f, f'.chain, dir, k);
    DirRootKept(g, s, s', f, f'.chain, dir);
    OwnEntry(g, s, s', f, f', dir, k);
    forall j | 0 <= j < dir.size / ENTRY_SIZE && IsMember(DirBytes(g, s'.disk, dir), j) && j != k
      ensures IsMember(DirBytes(g, s.disk, dir), j) && FirstAt(g, s'.disk, dir, j) == FirstAt(g, s.disk, dir, j)
      ensures StartsFile(Fat(g, s'.disk), dir.chain, FirstAt(g, s'.disk, dir, j))
      ensures FirstAt(g, s'.disk, dir, j) == FirstAt(g, s'.disk, dir, k) ==> FirstAt(g, s'.disk, dir, j) == 0
      ensures Truthful(g, s.disk, dir) ==> IsDescribed(g, s'.disk, dir, j)
    {
      OtherStarts(g, s, s', f, f'.chain, dir, k, j);
      if Truthful(g, s.disk, dir) {
        OtherDescribed(g, s, s', f, f'.chain, dir, k, j);
      }
    }
  }

  lemma DirRootKept(g: Layout, s: CacheState, s': CacheState, f: FileState, ch': seq<nat>, dir: FileState)
    requires g.Fits(|s.disk|) && DirGood(g, s.disk, dir) && Disjoint(f.chain, dir.chain)
    requires |s'.disk| == |s.disk| && FatConfined(Fat(g, s.disk), Fat(g, s'.disk), f.chain, ch')
    requires Rooted(Fat(g, s.disk), dir.chain)
    ensures Rooted(Fat(g, s'.disk), dir.chain)
  {
    hide Fat, Layout.Fits, FatConfined, IsChain;
    if !dir.fixed {
      ChainInUse(Fat(g, s.disk), g.EocMin(), dir.first, dir.chain);
      OtherHeadKept(Fat(g, s.disk), Fat(g, s'.disk), f.chain, ch', dir.chain);
    }
  }

  /** The entry of the file itself. */
  lemma OwnEntry(g: Layout, s: CacheState, s': CacheState, f: FileState, f': FileState, dir: FileState, k: nat)
    requires g.Fits(|s.disk|) && DirGood(g, s.disk, dir) && SoleOwner(g, s, f, dir, k)
    requires Confined(g, s, s', f.chain, f'.chain, f.block, f.index) && WellFormed(Fat(g, s.disk), g.EocMin())
    requires OthersKept(g, s, s', f.chain, f'.chain, dir, k)
    requires f'.block == f.block && f'.index == f.index && Good(g, s', f') && !f'.dirDirty
    requires f.block < |s.disk| && !IsDirectoryEntry(Attributes(s.disk[f.block], f.index))
    ensures WellFormed(Fat(g, s'.disk), g.EocMin())
    ensures StartsFile(Fat(g, s'.disk), dir.chain, FirstAt(g, s'.disk, dir, k))
    ensures FirstAt(g, s'.disk, dir, k) == if f'.chain == [] then 0 else f'.chain[0]
    ensures IsDescribed(g, s'.disk, dir, k)
  {
    hide Fat, Layout.Fits, DirBytes, DirGood, BlockOf, WellFormed, FatConfined, SameButFields, Attributes, TailClean,
      CursorOn, Owns, EntryFirst, EntrySize, HasChain;
    EntryInBlock(g, s.disk, dir, k);
    NotOwned(g, f, f'.chain, dir, f.block);
    AttributesKept(s.disk[f.block], s'.disk[f.block], f.index);
    SoundChain(g, s'.disk, f');
    if f'.chain != [] {
      ChainAvoidsFree(Fat(g, s'.disk), g.EocMin(), f'.chain);
    }
    assert Sound(g, s'.disk, Opened(s'.disk[f.block], f.block, f.index, f'.chain), f'.size);
    assert Described(g, s'.disk, f.block, f.index, f'.chain);
  }

  // ---- Handles --------------------------------------------------------------------------------

  /** A handle that agrees with its entry is the only owner of its chain. */
  lemma OrderlyOwner(g: Layout, s: CacheState, f: FileState, dir: FileState, k: nat)
    requires g.Fits(|s.disk|) && DirGood(g, s.disk, dir) && Orderly(g, s.disk, dir) && Good(g, s, f) && !f.dirDirty
    requires k < dir.size / ENTRY_SIZE && f.block == BlockOf(g, dir, k) && f.index == k % ENTRIES_PER_BLOCK
    requires IsMember(DirBytes(g, s.disk, dir), k)
    ensures SoleOwner(g, s, f, dir, k)
  {
    hide Fat, Layout.Fits, DirBytes, DirGood, BlockOf, WellFormed, TailClean, CursorOn, EntryFirst, EntrySize, IsChain;
    EntryInBlock(g, s.disk, dir, k);
    assert FirstAt(g, s.disk, dir, k) == f.first;
    SoundChain(g, s.disk, f);
    assert Disjoint(f.chain, dir.chain) by {
      if f.chain != [] {
        ApartFromDir(g, s.disk, dir, f.first, f.chain);
      }
    }
  }

  lemma ApartFromDir(g: Layout, d: Disk, dir: FileState, first: nat, ch: seq<nat>)
    requires g.Fits(|d|) && DirGood(g, d, dir) && WellFormed(Fat(g, d), g.EocMin()) && Rooted(Fat(g, d), dir.chain)
    requires IsChain(Fat(g, d), g.EocMin(), ch) && ch[0] == first != 0 && StartsFile(Fat(g, d), dir.chain, first)
    ensures Disjoint(ch, dir.chain)
  {
    hide Fat, Layout.Fits, DirGood, WellFormed, IsChain;
    if dir.fixed {
      FixedHasNoChain(g, d, dir);
    } else {
      DirChainIs(g, d, dir);
      assert dir.chain[0] in dir.chain;
      HeadsDisjoint(Fat(g, d), g.EocMin(), ch, dir.chain);
    }
  }

  lemma FixedHasNoChain(g: Layout, d: Disk, dir: FileState)
    requires g.Fits(|d|) && DirGood(g, d, dir) && dir.fixed
    ensures dir.chain == []
  {
    hide Fat, Layout.Fits;
  }

  // ---- The slot of a new entry ----------------------------------------------------------------

  /** There is no live entry of the directory in that slot. */
  ghost predicate NoLiveAt(g: Layout, d: Disk, dir: FileState, block: nat, index: nat)
    requires g.Fits(|d|) && DirGood(g, d, dir)
  {
    forall k :: 0 <= k < dir.size / ENTRY_SIZE && IsLive(DirBytes(g, d, dir), k) ==>
                  BlockOf(g, dir, k) != block || k % ENTRIES_PER_BLOCK != index
  }

  /** A place for a new entry: a slot of the directory that holds no live entry, or any slot of a
      cluster that is free. Block 0 stands for no place at all. */
  ghost predicate IsPlace(g: Layout, d: Disk, dir: FileState, block: nat, index: nat)
    requires g.Fits(|d|) && DirGood(g, d, dir)
  {
    || block == 0
    || (exists k :: 0 <= k < dir.size / ENTRY_SIZE && IsVacantSlot(g, d, dir, block, index, k))
    || InFreeCluster(g, d, block)
  }

  ghost predicate IsVacantSlot(g: Layout, d: Disk, dir: FileState, block: nat, index: nat, k: nat)
    requires g.Fits(|d|) && DirGood(g, d, dir) && k < dir.size / ENTRY_SIZE
  {
    block == BlockOf(g, dir, k) && index == k % ENTRIES_PER_BLOCK && !IsLive(DirBytes(g, d, dir), k)
  }

  ghost predicate InFreeCluster(g: Layout, d: Disk, block: nat)
    requires g.Fits(|d|)
  {
    g.dataStart <= block && 2 <= ClusterOf(g, block) < g.Clusters() && Fat(g, d)[ClusterOf(g, block)] == 0
  }

  /** All files are spared, wherever their entries are. At most a slot is changed that was a place
      for a new entry. */
  ghost predicate SparesLive(g: Layout, s: CacheState, s': CacheState, dir: FileState)
    requires g.Fits(|s.disk|) && DirGood(g, s.disk, dir)
  {
    exists block, index :: SparesNew(g, s, s', dir, block, index)
  }

  ghost predicate SparesNew(g: Layout, s: CacheState, s': CacheState, dir: FileState, block: nat, index: nat)
    requires g.Fits(|s.disk|) && DirGood(g, s.disk, dir)
  {
    && IsPlace(g, s.disk, dir, block, index) && NoLiveAt(g, s.disk, dir, block, index)
    && SparesBut(g, s, s', dir.chain, block, index)
  }

  /** So every file is spared whose own entry is in no such place. */
  lemma ElsewhereSpared(g: Layout, s: CacheState, s': CacheState, dir: FileState, h: FileState)
    requires g.Fits(|s.disk|) && DirGood(g, s.disk, dir) && SparesLive(g, s, s', dir)
    requires Good(g, s, h) && Disjoint(dir.chain, h.chain) && !IsPlace(g, s.disk, dir, h.block, h.index)
    ensures |s'.disk| == |s.disk| && Spared(g, s, s', h)
  {
    hide Fat, Layout.Fits, DirGood, Good, IsPlace, NoLiveAt, Spared, Disjoint;
    var block, index :| SparesNew(g, s, s', dir, block, index);
    assert h.block != block || h.index != index;
  }

  /** The slots of a root directory of fixed size are no place for an entry of another directory. */
  lemma RootIsNoPlace(g: Layout, d: Disk, dir: FileState, block: nat, index: nat)
    requires g.Fits(|d|) && DirGood(g, d, dir) && !dir.fixed && 0 < block < g.dataStart
    ensures !IsPlace(g, d, dir, block, index)
  {
    hide Fat, Layout.Fits, DirGood, DirBytes, BlockOf;
    forall k | 0 <= k < dir.size / ENTRY_SIZE
      ensures BlockOf(g, dir, k) >= g.dataStart
    {
      EntryByteAt(g, d, dir, k, 0);
    }
  }

  lemma VacantIsNoLive(g: Layout, d: Disk, dir: FileState)
    requires g.Fits(|d|) && DirGood(g, d, dir)
    ensures
      var v := VacantAt(DirBytes(g, d, dir), 0);
      v < dir.size / ENTRY_SIZE ==>
        && NoLiveAt(g, d, dir, BlockOf(g, dir, v), v % ENTRIES_PER_BLOCK)
        && IsPlace(g, d, dir, BlockOf(g, dir, v), v % ENTRIES_PER_BLOCK)
  {
    hide Fat, Layout.Fits, DirGood, DirBytes, BlockOf;
    var v := VacantAt(DirBytes(g, d, dir), 0);
    if v < dir.size / ENTRY_SIZE {
      assert IsVacantSlot(g, d, dir, BlockOf(g, dir, v), v % ENTRIES_PER_BLOCK, v);
      forall k | 0 <= k < dir.size / ENTRY_SIZE && IsLive(DirBytes(g, d, dir), k)
        ensures BlockOf(g, dir, k) != BlockOf(g, dir, v) || k % ENTRIES_PER_BLOCK != v % ENTRIES_PER_BLOCK
      {
        if BlockOf(g, dir, k) == BlockOf(g, dir, v) && k % ENTRIES_PER_BLOCK == v % ENTRIES_PER_BLOCK {
          SameSlot(g, |d|, dir, k, v);
        }
      }
    }
  }

  lemma BlockZeroIsNoLive(g: Layout, d: Disk, dir: FileState, index: nat)
    requires g.Fits(|d|) && DirGood(g, d, dir)
    ensures NoLiveAt(g, d, dir, 0, index) && IsPlace(g, d, dir, 0, index)
  {
    hide Fat, Layout.Fits, DirGood, DirBytes, BlockOf;
    forall k | 0 <= k < dir.size / ENTRY_SIZE && IsLive(DirBytes(g, d, dir), k)
      ensures BlockOf(g, dir, k) != 0
    {
      EntryInBlock(g, d, dir, k);
    }
  }

  lemma QuietSparesLive(g: Layout, s: CacheState, s': CacheState, dir: FileState)
    requires g.Fits(|s.disk|) && DirGood(g, s.disk, dir) && s'.disk == s.disk && FatOnly(g, s, s')
    ensures SparesLive(g, s, s', dir)
  {
    hide Fat, Layout.Fits, DirGood, DirBytes, BlockOf, SparesBut, NoLiveAt, IsPlace;
    BlockZeroIsNoLive(g, s.disk, dir, 0);
    QuietSparesAll(g, s, s', dir.chain, 0, 0, dir);
    assert SparesNew(g, s, s', dir, 0, 0);
  }

  lemma PlaceMoves(g: Layout, d: Disk, dir: FileState, dir1: FileState, block: nat, index: nat)
    requires g.Fits(|d|) && DirGood(g, d, dir) && dir1 == dir.(pos := dir1.pos, cur := dir1.cur) && DirGood(g, d, dir1)
    requires IsPlace(g, d, dir1, block, index)
    ensures IsPlace(g, d, dir, block, index)
  {
    hide Fat, Layout.Fits, DirGood, DirBytes, InFreeCluster;
    DirGoodMoves(g, d, dir, dir1);
    if k :| 0 <= k < dir.size / ENTRY_SIZE && IsVacantSlot(g, d, dir1, block, index, k) {
      assert IsVacantSlot(g, d, dir, block, index, k);
    }
  }

  /** What happened after a search, seen from before it. */
  lemma SparesNewFrom(g: Layout, s: CacheState, s1: CacheState, s2: CacheState, dir: FileState, dir1: FileState,
                      block: nat, index: nat)
    requires g.Fits(|s.disk|) && DirGood(g, s.disk, dir) && dir1 == dir.(pos := dir1.pos, cur := dir1.cur)
    requires s1.disk == s.disk && FatOnly(g, s, s1) && DirGood(g, s1.disk, dir1)
    requires SparesNew(g, s1, s2, dir1, block, index)
    ensures SparesNew(g, s, s2, dir, block, index)
  {
    hide Fat, Layout.Fits, DirGood, DirBytes, SparesBut, FatOnly;
    DirGoodMoves(g, s.disk, dir, dir1);
    PlaceMoves(g, s.disk, dir, dir1, block, index);
    SparesButLater(g, s, s1, s2, dir.chain, block, index);
  }

  lemma SparesLiveFrom(g: Layout, s: CacheState, s1: CacheState, s2: CacheState, dir: FileState, dir1: FileState)
    requires g.Fits(|s.disk|) && DirGood(g, s.disk, dir) && dir1 == dir.(pos := dir1.pos, cur := dir1.cur)
    requires s1.disk == s.disk && FatOnly(g, s, s1) && DirGood(g, s1.disk, dir1) && SparesLive(g, s1, s2, dir1)
    ensures SparesLive(g, s, s2, dir)
  {
    hide Fat, Layout.Fits, DirGood, DirBytes, SparesNew, FatOnly;
    var block, index :| SparesNew(g, s1, s2, dir1, block, index);
    SparesNewFrom(g, s, s1, s2, dir, dir1, block, index);
  }

  /** The next entry of a directory that has grown is in its first new block. */
  lemma NextBlock(g: Layout, d: Disk, d': Disk, dir: FileState, dir': FileState)
    requires g.Fits(|d|) && |d'| == |d| && DirGood(g, d, dir) && !dir.fixed && DirGood(g, d', dir') && !dir'.fixed
    requires dir.size / ENTRY_SIZE < dir'.size / ENTRY_SIZE
    ensures
      var n := |dir.chain|;
      && n < |dir'.chain| && InRange(g, dir'.chain) && n * g.blocksPerCluster < Blocks(g, dir'.chain)
      && ClusterIx(g, dir'.chain, n * g.blocksPerCluster) == n
      && BlockOf(g, dir', dir.size / ENTRY_SIZE) == BlockAt(g, dir'.chain, n * g.blocksPerCluster)
  {
    hide Fat, Layout.Fits, DirGood, BlockAt, ClusterBytes;
    DirSize(g, d, dir);
    DirSize(g, d', dir');
    NextIndex(g, |dir.chain|, |dir'.chain|);
  }

  lemma NextIndex(g: Layout, n: nat, m: nat)
    requires g.blocksPerCluster > 0 && ClusterBytes(g, n) / ENTRY_SIZE < ClusterBytes(g, m) / ENTRY_SIZE
    ensures n < m && n * g.blocksPerCluster < m * g.blocksPerCluster
    ensures n * g.blocksPerCluster / g.blocksPerCluster == n
    ensures ClusterBytes(g, n) / ENTRY_SIZE / ENTRIES_PER_BLOCK == n * g.blocksPerCluster
  {
    EntriesOfBlocks(n * g.blocksPerCluster, m * g.blocksPerCluster);
    Multiples(n, m, g.blocksPerCluster);
  }

  lemma EntriesOfBlocks(x: nat, y: nat)
    ensures x * BLOCK_SIZE / ENTRY_SIZE < y * BLOCK_SIZE / ENTRY_SIZE <==> x < y
    ensures x * BLOCK_SIZE / ENTRY_SIZE / ENTRIES_PER_BLOCK == x
  {
  }

  lemma Multiples(n: nat, m: nat, b: nat)
    requires b > 0
    ensures n * b < m * b ==> n < m
    ensures n * b / b == n
  {
    DivBound(n * b, b, m);
    DivBound(n * b, b, n);
    assert (n + 1) * b == n * b + b;
    DivBound(n * b, b, n + 1);
  }

  /** That block is in a cluster that was free. */
  lemma NewBlockWasFree(g: Layout, s: CacheState, s': CacheState, dir: FileState, dir': FileState)
    requires g.Fits(|s.disk|) && DirGood(g, s.disk, dir) && !dir.fixed && !dir'.fixed
    requires Grown(g, s, s', dir.chain, dir'.chain) && DirGood(g, s'.disk, dir')
    requires dir.size / ENTRY_SIZE < dir'.size / ENTRY_SIZE
    ensures InFreeCluster(g, s.disk, BlockOf(g, dir', dir.size / ENTRY_SIZE))
  {
    hide Fat, Layout.Fits, DirGood, BlockOf, BlockAt, ClusterIx;
    var n := |dir.chain|;
    NextBlock(g, s.disk, s'.disk, dir, dir');
    BlockAtOwned(g, |s.disk|, dir'.chain, n * g.blocksPerCluster);
    var c := dir'.chain[n];
    assert c !in dir.chain;
    assert c in dir'.chain && 2 <= c < g.Clusters();
  }

  /** The first slot of a new cluster. */
  lemma NewSlotIsNoLive(g: Layout, s: CacheState, s': CacheState, dir: FileState, dir': FileState)
    requires g.Fits(|s.disk|) && DirGood(g, s.disk, dir) && !dir.fixed && !dir'.fixed
    requires Grown(g, s, s', dir.chain, dir'.chain) && DirGood(g, s'.disk, dir')
    requires dir.size / ENTRY_SIZE < dir'.size / ENTRY_SIZE && dir.size <= dir'.size
    ensures
      var v := dir.size / ENTRY_SIZE;
      && NoLiveAt(g, s.disk, dir, BlockOf(g, dir', v), v % ENTRIES_PER_BLOCK)
      && IsPlace(g, s.disk, dir, BlockOf(g, dir', v), v % ENTRIES_PER_BLOCK)
  {
    hide Fat, Layout.Fits, DirGood, DirBytes, BlockOf, Grown, InFreeCluster;
    var v := dir.size / ENTRY_SIZE;
    NewBlockWasFree(g, s, s', dir, dir');
    forall k | 0 <= k < v && IsLive(DirBytes(g, s.disk, dir), k)
      ensures BlockOf(g, dir, k) != BlockOf(g, dir', v) || k % ENTRIES_PER_BLOCK != v % ENTRIES_PER_BLOCK
    {
      BlockOfGrown(g, s, s', dir, dir', k);
      if BlockOf(g, dir', k) == BlockOf(g, dir', v) && k % ENTRIES_PER_BLOCK == v % ENTRIES_PER_BLOCK {
        SameSlot(g, |s.disk|, dir', k, v);
      }
    }
  }
}
