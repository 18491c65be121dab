/** Directories on the disk: how the bytes of a directory and their blocks go together, and
    what operations on files and entries mean for the directory and for everybody else
    (Modules/SD/SdFile.cpp:51-64, 421-507, 817-834). */
module DirModel {
  import opened Bytes
  import opened Layouts
  import opened Chains
  import opened Cache
  import opened Volume
  import opened FileModel
  import opened WriteModel
  import opened Slots
  import opened Entries

  const ENTRIES_PER_BLOCK: nat := 16

  /** An open directory: the fixed root of a FAT16 volume, or a chain that is all directory. */
  ghost predicate DirGood(g: Layout, d: Disk, f: FileState)
    requires g.Fits(|d|)
    ensures DirGood(g, d, f) ==>
              HasBytes(g, f.fixed, f.chain, f.size) && f.size % ENTRY_SIZE == 0 && f.size < TWO_32 && Unique(f.chain)
              && !f.dirDirty
  {
    && f.size < TWO_32 && g.blocksPerCluster > 0 && !f.dirDirty
    && (if f.fixed then g.fatType == Fat16 && f.chain == [] && f.first == 0 && f.size == ENTRY_SIZE * g.rootEntries
        else f.first != 0 && HasChain(Fat(g, d), g.EocMin(), f.first, f.chain) && InRange(g, f.chain) && Unique(f.chain)
             && f.size == ClusterBytes(g, |f.chain|))
    && HasBytes(g, f.fixed, f.chain, f.size) && f.size % ENTRY_SIZE == 0
  }

  ghost function DirBytes(g: Layout, d: Disk, f: FileState): (b: seq<byte>)
    requires g.Fits(|d|) && HasBytes(g, f.fixed, f.chain, f.size)
    ensures |b| == f.size
  {
    Contents(g, d, f.fixed, f.chain, f.size)
  }

  /** The block of entry `k`. */
  function BlockOf(g: Layout, f: FileState, k: nat): nat
    requires HasBytes(g, f.fixed, f.chain, f.size) && k < f.size / ENTRY_SIZE
  {
    Home(g, f.fixed, f.chain, k / ENTRIES_PER_BLOCK)
  }

  function EntryBytes(b: Block, index: nat): (e: seq<byte>)
    requires index < ENTRIES_PER_BLOCK
    ensures |e| == ENTRY_SIZE
  {
    b[ENTRY_SIZE * index..ENTRY_SIZE * index + ENTRY_SIZE]
  }

  /** The entries of a directory are the slots of its blocks, in order. */
  lemma EntryInBlock(g: Layout, d: Disk, f: FileState, k: nat)
    requires g.Fits(|d|) && DirGood(g, d, f) && k < f.size / ENTRY_SIZE
    ensures 0 < BlockOf(g, f, k) < |d| && !g.IsFatBlock(BlockOf(g, f, k))
    ensures DirBytes(g, d, f)[ENTRY_SIZE * k..ENTRY_SIZE * k + ENTRY_SIZE] ==
            EntryBytes(d[BlockOf(g, f, k)], k % ENTRIES_PER_BLOCK)
    ensures !f.fixed ==> Owns(g, f.chain, BlockOf(g, f, k))
    ensures f.fixed ==> BlockOf(g, f, k) < g.dataStart
  {
    hide Contents, Fat, Layout.Fits;
    var p := ENTRY_SIZE * k;
    assert p / BLOCK_SIZE == k / ENTRIES_PER_BLOCK && p % BLOCK_SIZE == ENTRY_SIZE * (k % ENTRIES_PER_BLOCK);
    ContentsPiece(g, d, f.fixed, f.chain, f.size, p, ENTRY_SIZE);
    if !f.fixed {
      BlockAtOwned(g, |d|, f.chain, p / BLOCK_SIZE);
    }
  }

  lemma HomeInjective(g: Layout, total: nat, fixed: bool, ch: seq<nat>, k: nat, l: nat)
    requires g.Fits(total) && InRange(g, ch) && Unique(ch)
    requires k < HomeBlocks(g, fixed, ch) && l < HomeBlocks(g, fixed, ch)
    requires Home(g, fixed, ch, k) == Home(g, fixed, ch, l)
    ensures k == l
  {
    if !fixed {
      BlockAtInjective(g, total, ch, k, l);
    }
  }

  /** Changing a slot of a directory changes that entry of it. */
  lemma SlotInBytes(g: Layout, s: CacheState, s': CacheState, f: FileState, k: nat)
    requires g.Fits(|s.disk|) && DirGood(g, s.disk, f) && k < f.size / ENTRY_SIZE
    requires SlotChanged(g, s, s', BlockOf(g, f, k), k % ENTRIES_PER_BLOCK)
    ensures DirGood(g, s'.disk, f)
    ensures DirBytes(g, s'.disk, f) ==
            WithEntry(DirBytes(g, s.disk, f), k, EntryBytes(s'.disk[BlockOf(g, f, k)], k % ENTRIES_PER_BLOCK))
  {
    hide Fat, Layout.Fits, FileBytes, HomeBlocks, Home, HasChain;
    SlotKeepsFat(g, s, s', BlockOf(g, f, k), k % ENTRIES_PER_BLOCK);
    var b, b' := DirBytes(g, s.disk, f), DirBytes(g, s'.disk, f);
    var want := WithEntry(b, k, EntryBytes(s'.disk[BlockOf(g, f, k)], k % ENTRIES_PER_BLOCK));
    forall p | 0 <= p < f.size
      ensures b'[p] == want[p]
    {
      DirByte(g, s.disk, f, p);
      DirByte(g, s'.disk, f, p);
      SlotByte(g, s, s', f, k, p);
    }
    assert b' == want;
  }

  lemma DirByte(g: Layout, d: Disk, f: FileState, p: nat)
    requires g.Fits(|d|) && DirGood(g, d, f) && p < f.size
    ensures p / BLOCK_SIZE < HomeBlocks(g, f.fixed, f.chain) && Home(g, f.fixed, f.chain, p / BLOCK_SIZE) < |d|
    ensures DirBytes(g, d, f)[p] == d[Home(g, f.fixed, f.chain, p / BLOCK_SIZE)][p % BLOCK_SIZE]
  {
    hide Contents, Fat, Layout.Fits;
    ContentsPiece(g, d, f.fixed, f.chain, f.size, p, 1);
    assert DirBytes(g, d, f)[p..p + 1][0] == DirBytes(g, d, f)[p];
  }

  lemma SlotByte(g: Layout, s: CacheState, s': CacheState, f: FileState, k: nat, p: nat)
    requires g.Fits(|s.disk|) && DirGood(g, s.disk, f) && k < f.size / ENTRY_SIZE && p < f.size
    requires SlotChanged(g, s, s', BlockOf(g, f, k), k % ENTRIES_PER_BLOCK)
    requires p / BLOCK_SIZE < HomeBlocks(g, f.fixed, f.chain) && Home(g, f.fixed, f.chain, p / BLOCK_SIZE) < |s.disk|
    ensures
      var l := Home(g, f.fixed, f.chain, p / BLOCK_SIZE);
      if p / ENTRY_SIZE == k then l == BlockOf(g, f, k)
      && p % BLOCK_SIZE == ENTRY_SIZE * (k % ENTRIES_PER_BLOCK) + p % ENTRY_SIZE
      else s'.disk[l][p % BLOCK_SIZE] == s.disk[l][p % BLOCK_SIZE]
  {
    hide Fat, Layout.Fits, HomeBlocks, Home, HasChain, DirBytes;
    assert p / BLOCK_SIZE == p / ENTRY_SIZE / ENTRIES_PER_BLOCK;
    assert p % BLOCK_SIZE / ENTRY_SIZE == p / ENTRY_SIZE % ENTRIES_PER_BLOCK;
    if Home(g, f.fixed, f.chain, p / BLOCK_SIZE) == BlockOf(g, f, k) {
      HomeInjective(g, |s.disk|, f.fixed, f.chain, p / BLOCK_SIZE, k / ENTRIES_PER_BLOCK);
    }
  }

  // ---- What operations on files do to a directory --------------------------------------------

  /** A directory with clusters of its own keeps its chain. */
  lemma DirChainKept(g: Layout, s: CacheState, s': CacheState, f: FileState, ch': seq<nat>, dir: FileState)
    requires g.Fits(|s.disk|) && |s'.disk| == |s.disk| && DirGood(g, s.disk, dir) && Disjoint(f.chain, dir.chain)
    requires FatConfined(Fat(g, s.disk), Fat(g, s'.disk), f.chain, ch') && InRange(g, ch')
    ensures DirGood(g, s'.disk, dir) && Disjoint(ch', dir.chain)
  {
    hide Fat, Layout.Fits, FatConfined, HasChain, HomeBlocks;
    if !dir.fixed {
      OtherChainKept(Fat(g, s.disk), Fat(g, s'.disk), g.EocMin(), f.chain, ch', dir.first, dir.chain);
    }
  }

  /** Reading, writing, truncating and synchronizing a file leave the names of every directory
      alone that the file does not keep its data in. */
  lemma FileOpKeepsNames(g: Layout, s: CacheState, s': CacheState, f: FileState, ch': seq<nat>, dir: FileState)
    requires g.Fits(|s.disk|) && |s'.disk| == |s.disk| && DirGood(g, s.disk, dir) && Disjoint(f.chain, dir.chain)
    requires Isolated(g, s, s', f.chain, ch', f.block, f.index) && InRange(g, ch')
    ensures DirGood(g, s'.disk, dir)
    ensures SameNames(DirBytes(g, s.disk, dir), DirBytes(g, s'.disk, dir))
  {
    hide Fat, Layout.Fits, FatConfined, SameButFields, Contents, HomeBlocks, Home, Owns, DirGood, DirBytes;
    DirChainKept(g, s, s', f, ch', dir);
    forall k | 0 <= k < dir.size / ENTRY_SIZE
      ensures SameNameAt(DirBytes(g, s.disk, dir), DirBytes(g, s'.disk, dir), k)
    {
      forall i | 0 <= i <= OFF_ATTR
        ensures EntryByte(DirBytes(g, s'.disk, dir), k, i) == EntryByte(DirBytes(g, s.disk, dir), k, i)
      {
        NameByteKept(g, s, s', f, ch', dir, k, i);
      }
      SameName(DirBytes(g, s.disk, dir), DirBytes(g, s'.disk, dir), k);
    }
  }

  /** Byte `i` of entry `k`, and where it is. */
  lemma EntryByteAt(g: Layout, d: Disk, dir: FileState, k: nat, i: nat)
    requires g.Fits(|d|) && DirGood(g, d, dir) && k < dir.size / ENTRY_SIZE && i < ENTRY_SIZE
    ensures 0 < BlockOf(g, dir, k) < |d| && !g.IsFatBlock(BlockOf(g, dir, k))
    ensures EntryByte(DirBytes(g, d, dir), k, i) ==
            d[BlockOf(g, dir, k)][ENTRY_SIZE * (k % ENTRIES_PER_BLOCK) + i]
    ensures !dir.fixed ==> Owns(g, dir.chain, BlockOf(g, dir, k))
    ensures dir.fixed ==> BlockOf(g, dir, k) < g.dataStart
  {
    hide Fat, Layout.Fits, DirGood, DirBytes, BlockOf;
    EntryInBlock(g, d, dir, k);
    assert DirBytes(g, d, dir)[ENTRY_SIZE * k..ENTRY_SIZE * k + ENTRY_SIZE][i]
             == DirBytes(g, d, dir)[ENTRY_SIZE * k + i];
  }

  /** The file does not own the directory's blocks, before or after. */
  lemma NotOwned(g: Layout, f: FileState, ch': seq<nat>, dir: FileState, block: nat)
    requires g.blocksPerCluster > 0 && Disjoint(f.chain, dir.chain) && Disjoint(ch', dir.chain)
    requires if dir.fixed then block < g.dataStart else Owns(g, dir.chain, block)
    ensures !Owns(g, f.chain, block) && !Owns(g, ch', block)
  {
  }

  lemma NameByteKept(g: Layout, s: CacheState, s': CacheState, f: FileState, ch': seq<nat>, dir: FileState, k: nat,
                     i: nat)
    requires g.Fits(|s.disk|) && |s'.disk| == |s.disk| && DirGood(g, s.disk, dir) && DirGood(g, s'.disk, dir)
    requires Disjoint(f.chain, dir.chain) && Disjoint(ch', dir.chain)
    requires Isolated(g, s, s', f.chain, ch', f.block, f.index)
    requires k < dir.size / ENTRY_SIZE && i <= OFF_ATTR
    ensures EntryByte(DirBytes(g, s'.disk, dir), k, i) == EntryByte(DirBytes(g, s.disk, dir), k, i)
  {
    hide Fat, Layout.Fits, FatConfined, DirBytes, Owns, DirGood, BlockOf;
    EntryByteAt(g, s.disk, dir, k, i);
    EntryByteAt(g, s'.disk, dir, k, i);
    NotOwned(g, f, ch', dir, BlockOf(g, dir, k));
    if BlockOf(g, dir, k) == f.block {
      assert (ENTRY_SIZE * (k % ENTRIES_PER_BLOCK) + i) % ENTRY_SIZE == i;
    }
  }

  /** Removing a file takes its name out of its directory, if it was there once; no name gets a
      twin, and nothing gets behind a free entry. */
  lemma RemovedFromDirectory(g: Layout, s: CacheState, s': CacheState, f: FileState, dir: FileState, k: nat)
    requires g.Fits(|s.disk|) && Good(g, s, f) && Removed(g, s, s', f) && DirGood(g, s.disk, dir)
    requires Disjoint(f.chain, dir.chain) && k < dir.size / ENTRY_SIZE
    requires f.block == BlockOf(g, dir, k) && f.index == k % ENTRIES_PER_BLOCK
    requires
      var b := DirBytes(g, s.disk, dir);
      FreeTail(b) && IsLive(b, k)
    ensures DirGood(g, s'.disk, dir)
    ensures
      var b, b' := DirBytes(g, s.disk, dir), DirBytes(g, s'.disk, dir);
      FreeTail(b') && NoNewTwins(b, b') && (Has(b', NameAt(b, k)) <==> !Only(b, NameAt(b, k), k))
  {
    hide Fat, Layout.Fits, DirBytes, DirGood, Good, Removed, FreeTail, NoNewTwins, Only;
    RemovedKeepsChain(g, s, s', f, dir);
    var b, b' := DirBytes(g, s.disk, dir), DirBytes(g, s'.disk, dir);
    RemovedByte(g, s, s', f, dir, k, k, 0);
    forall j | 0 <= j < dir.size / ENTRY_SIZE && j != k
      ensures Mark(b', j) == Mark(b, j) && NameAt(b', j) == NameAt(b, j)
    {
      forall i | 0 <= i <= OFF_ATTR
        ensures EntryByte(b', j, i) == EntryByte(b, j, i)
      {
        RemovedByte(g, s, s', f, dir, k, j, i);
      }
      SameName(b, b', j);
    }
    assert EntryByte(b', k, 0) == Mark(b', k);
    DeletedOne(b, b', k);
  }

  lemma RemovedKeepsChain(g: Layout, s: CacheState, s': CacheState, f: FileState, dir: FileState)
    requires g.Fits(|s.disk|) && Good(g, s, f) && Removed(g, s, s', f) && DirGood(g, s.disk, dir)
    requires Disjoint(f.chain, dir.chain)
    ensures DirGood(g, s'.disk, dir)
  {
    hide Fat, Layout.Fits, HomeBlocks, TailClean, CursorOn, SlotPlaced, SlotHolds, SameButName;
    if !dir.fixed {
      forall i | 0 <= i < |dir.chain|
        ensures Fat(g, s'.disk)[dir.chain[i]] == Fat(g, s.disk)[dir.chain[i]]
      {
        assert dir.chain[i] !in f.chain;
      }
      ChainKept(Fat(g, s.disk), Fat(g, s'.disk), g.EocMin(), dir.chain);
    }
  }

  lemma RemovedByte(g: Layout, s: CacheState, s': CacheState, f: FileState, dir: FileState, k: nat, j: nat, i: nat)
    requires g.Fits(|s.disk|) && Good(g, s, f) && Removed(g, s, s', f) && DirGood(g, s.disk, dir)
             && DirGood(g, s'.disk, dir)
    requires Disjoint(f.chain, dir.chain) && k < dir.size / ENTRY_SIZE && j < dir.size / ENTRY_SIZE && i <= OFF_ATTR
    requires f.block == BlockOf(g, dir, k) && f.index == k % ENTRIES_PER_BLOCK
    ensures
      var b, b' := DirBytes(g, s.disk, dir), DirBytes(g, s'.disk, dir);
      EntryByte(b', j, i) == if j == k && i == 0 then NAME_DELETED else EntryByte(b, j, i)
  {
    hide Fat, Layout.Fits, DirBytes, Owns, DirGood, Good, BlockOf;
    EntryByteAt(g, s.disk, dir, j, i);
    EntryByteAt(g, s'.disk, dir, j, i);
    NotOwned(g, f, f.chain, dir, BlockOf(g, dir, j));
    var o := ENTRY_SIZE * (j % ENTRIES_PER_BLOCK) + i;
    assert o / ENTRY_SIZE == j % ENTRIES_PER_BLOCK && o % ENTRY_SIZE == i;
    if BlockOf(g, dir, j) == f.block && j % ENTRIES_PER_BLOCK == f.index {
      SameSlot(g, |s.disk|, dir, j, k);
    }
  }

  lemma SameSlot(g: Layout, total: nat, dir: FileState, j: nat, k: nat)
    requires g.Fits(total) && HasBytes(g, dir.fixed, dir.chain, dir.size) && Unique(dir.chain)
    requires j < dir.size / ENTRY_SIZE && k < dir.size / ENTRY_SIZE
    requires BlockOf(g, dir, j) == BlockOf(g, dir, k) && j % ENTRIES_PER_BLOCK == k % ENTRIES_PER_BLOCK
    ensures j == k
  {
    hide Layout.Fits, Home, HomeBlocks;
    HomeInjective(g, total, dir.fixed, dir.chain, j / ENTRIES_PER_BLOCK, k / ENTRIES_PER_BLOCK);
  }

  // ---- A directory that grows -----------------------------------------------------------------

  /** From `s` to `s'` a chain grew from `ch` to `ch'`: apart from the FAT, only blocks of the
      clusters it took changed. */
  ghost predicate Grown(g: Layout, s: CacheState, s': CacheState, ch: seq<nat>, ch': seq<nat>)
    requires g.Fits(|s.disk|)
    ensures Grown(g, s, s', ch, ch') ==> |s'.disk| == |s.disk| && InRange(g, ch')
  {
    && |s'.disk| == |s.disk| && ch <= ch' && InRange(g, ch')
    && (forall b :: 0 <= b < |s.disk| && !g.IsFatBlock(b) && (Owns(g, ch, b) || !Owns(g, ch', b)) ==>
           s'.disk[b] == s.disk[b])
    && FatConfined(Fat(g, s.disk), Fat(g, s'.disk), ch, ch')
    && (forall i :: 0 <= i < |ch'| ==> Fat(g, s'.disk)[ch'[i]] != 0)
    && (s'.dirty && s'.number != NO_BLOCK ==>
          g.IsFatBlock(s'.number) || Owns(g, ch', s'.number) || (s.dirty && s'.number == s.number))
    && (s.Stranded() ==> s'.Stranded())
  }

  /** Growth spares every file outside the directory, even if its entry is in it. */
  lemma GrownSpares(g: Layout, s: CacheState, s': CacheState, ch: seq<nat>, ch': seq<nat>, h: FileState)
    requires g.Fits(|s.disk|) && Grown(g, s, s', ch, ch') && Good(g, s, h) && Disjoint(ch, h.chain)
    ensures Spared(g, s, s', h) && Disjoint(ch', h.chain)
  {
    hide Fat, Layout.Fits, FatConfined, FileBytes, TailClean, HasChain, Rooted, Entry, BlockAt, EntryFirst, EntrySize;
    OtherChainKept(Fat(g, s.disk), Fat(g, s'.disk), g.EocMin(), ch, ch', h.first, h.chain);
    if Rooted(Fat(g, s.disk), h.chain) {
      ChainInUse(Fat(g, s.disk), g.EocMin(), h.first, h.chain);
      OtherHeadKept(Fat(g, s.disk), Fat(g, s'.disk), ch, ch', h.chain);
    }
    GrownSlot(g, s, s', ch, ch', h);
    GrownTail(g, s, s', ch, ch', h);
    forall b | 0 <= b < |s.disk| && Owns(g, h.chain, b)
      ensures s'.disk[b] == s.disk[b]
    {
      assert !Owns(g, ch', b);
    }
    FileBytesOther(g, s.disk, s'.disk, h.chain, h.size);
  }

  /** The directory entry of a file is in a cluster in use, so it is in none that was taken. */
  lemma GrownSlot(g: Layout, s: CacheState, s': CacheState, ch: seq<nat>, ch': seq<nat>, h: FileState)
    requires g.Fits(|s.disk|) && Grown(g, s, s', ch, ch') && SlotPlaced(g, s.disk, h.chain, h.block, h.index)
    ensures s'.disk[h.block] == s.disk[h.block]
    ensures SlotPlaced(g, s'.disk, h.chain, h.block, h.index)
  {
    hide Fat, Layout.Fits;
    if g.dataStart <= h.block {
      var c := ClusterOf(g, h.block);
      assert Fat(g, s.disk)[c] == Entry(g, s.disk, c) && Fat(g, s'.disk)[c] == Entry(g, s'.disk, c);
      if c !in ch {
        assert !(c in ch');
      } else {
        GrownInUse(g, s, s', ch, ch', c);
      }
    }
  }

  lemma GrownInUse(g: Layout, s: CacheState, s': CacheState, ch: seq<nat>, ch': seq<nat>, c: nat)
    requires g.Fits(|s.disk|) && Grown(g, s, s', ch, ch') && c in ch
    ensures 2 <= c < g.Clusters() && Fat(g, s'.disk)[c] != 0
  {
    hide Fat, Layout.Fits, FatConfined;
    assert c in ch';
  }

  lemma GrownTail(g: Layout, s: CacheState, s': CacheState, ch: seq<nat>, ch': seq<nat>, h: FileState)
    requires g.Fits(|s.disk|) && Grown(g, s, s', ch, ch') && Good(g, s, h) && Disjoint(ch', h.chain)
    ensures TailClean(g, s', h.chain, h.size)
  {
    hide Fat, Layout.Fits, FatConfined, BlockAt;
    forall k | s'.dirty && 0 <= k < Blocks(g, h.chain) && BlockAt(g, h.chain, k) == s'.number
      ensures BLOCK_SIZE * k < h.size
    {
      BlockAtOwned(g, |s.disk|, h.chain, k);
      assert !Owns(g, ch', s'.number);
    }
  }

  /** At the end of a directory the current cluster is its last one. */
  lemma DirEnd(g: Layout, d: Disk, dir: FileState)
    requires g.Fits(|d|) && DirGood(g, d, dir) && !dir.fixed && dir.pos == dir.size
             && CursorOn(g, dir.chain, dir.pos, dir.cur)
    ensures dir.chain != [] && dir.cur == dir.chain[|dir.chain| - 1]
  {
    hide Fat, Layout.Fits;
    var n, b := |dir.chain|, g.blocksPerCluster;
    assert n > 0;
    assert n * b > 0;
    assert dir.size == n * b * BLOCK_SIZE;
    assert (dir.size - 1) / BLOCK_SIZE == n * b - 1;
    DivUnique(n * b, b, n, 0);
    DivPred(n * b, b);
    assert ClusterIx(g, dir.chain, n * b - 1) == n - 1;
  }

  /** The blocks of one cluster. */
  lemma ClusterRange(g: Layout, total: nat, c: nat)
    requires g.Fits(total) && 2 <= c < g.Clusters()
    ensures 0 < g.dataStart <= ClusterStart(g, c) && ClusterStart(g, c) + g.blocksPerCluster <= total
    ensures forall b :: ClusterStart(g, c) <= b < ClusterStart(g, c) + g.blocksPerCluster ==>
              !g.IsFatBlock(b) && g.dataStart <= b && ClusterOf(g, b) == c
  {
    hide ClusterStart, Layout.Fits;
    ClusterBlocks(g, total, c, g.blocksPerCluster - 1);
    forall b | ClusterStart(g, c) <= b < ClusterStart(g, c) + g.blocksPerCluster
      ensures ClusterOf(g, b) == c
    {
      ClusterBlocks(g, total, c, b - ClusterStart(g, c));
    }
  }

  /** Blocks of cluster `c` changed, and no others. */
  ghost predicate InCluster(g: Layout, d: Disk, d': Disk, start: nat) {
    |d'| == |d| && forall b :: 0 <= b < |d| && !(start <= b < start + g.blocksPerCluster) ==> d'[b] == d[b]
  }

  /** A cluster was added to a chain and partly cleared. */
  lemma ClearedIsGrown(g: Layout, s0: CacheState, s1: CacheState, s2: CacheState, first: nat, ch: seq<nat>, c: nat)
    requires g.Fits(|s0.disk|) && FatOnly(g, s0, s1) && InRange(g, ch) && 2 <= c < g.Clusters() && Unique(ch + [c])
    requires FatConfined(Fat(g, s0.disk), Fat(g, s1.disk), ch, ch + [c])
    requires HasChain(Fat(g, s1.disk), g.EocMin(), first, ch + [c])
    requires InCluster(g, s1.disk, s2.disk, ClusterStart(g, c))
    requires s2.dirty ==> ClusterStart(g, c) <= s2.number < ClusterStart(g, c) + g.blocksPerCluster
                          || (s1.dirty && s2.number == s1.number)
    requires s1.Stranded() ==> s2.Stranded()
    ensures Fat(g, s2.disk) == Fat(g, s1.disk) && Grown(g, s0, s2, ch, ch + [c])
  {
    hide Fat, Layout.Fits, FatConfined, ClusterStart, ClusterOf, HasChain, FatOnly;
    FatOnlyDirty(g, s0, s1);
    ClusterRange(g, |s0.disk|, c);
    FatOfOther(g, s1.disk, s2.disk);
    LastInUse(Fat(g, s1.disk), g.EocMin(), first, ch, c);
    forall b | 0 <= b < |s0.disk| && !g.IsFatBlock(b) && (Owns(g, ch, b) || !Owns(g, ch + [c], b))
      ensures s2.disk[b] == s0.disk[b]
    {
      FatOnlyFrame(g, s0, s1, b);
      assert c in ch + [c];
    }
  }

  lemma FatOnlyFrame(g: Layout, s: CacheState, s': CacheState, b: nat)
    requires FatOnly(g, s, s') && b < |s.disk| && !g.IsFatBlock(b)
    ensures |s'.disk| == |s.disk| && s'.disk[b] == s.disk[b]
  {
  }

  lemma FatOnlyDirty(g: Layout, s: CacheState, s': CacheState)
    requires FatOnly(g, s, s')
    ensures |s'.disk| == |s.disk| && (s'.dirty ==> g.IsFatBlock(s'.number) || (s.dirty && s'.number == s.number))
    ensures s.Stranded() ==> s'.Stranded()
  {
  }

  lemma LastInUse(fat: seq<nat>, eoc: nat, first: nat, ch: seq<nat>, c: nat)
    requires |fat| <= eoc && HasChain(fat, eoc, first, ch + [c]) && Unique(ch + [c])
    ensures c !in ch && forall i :: 0 <= i < |ch + [c]| ==> (ch + [c])[i] < |fat| && fat[(ch + [c])[i]] != 0
  {
    ChainAvoidsFree(fat, eoc, ch + [c]);
    assert (ch + [c])[|ch|] == c;
    forall i | 0 <= i < |ch|
      ensures ch[i] != c
    {
      assert (ch + [c])[i] == ch[i];
    }
  }

  /** An allocation that failed leaves a directory as it was. */
  lemma NotGrown(g: Layout, s: CacheState, s': CacheState, first: nat, ch: seq<nat>)
    requires g.Fits(|s.disk|) && FatOnly(g, s, s') && InRange(g, ch)
             && FatConfined(Fat(g, s.disk), Fat(g, s'.disk), ch, ch)
    requires HasChain(Fat(g, s'.disk), g.EocMin(), first, ch)
    ensures Grown(g, s, s', ch, ch)
  {
    hide Fat, Layout.Fits, FatConfined;
    if first != 0 {
      ChainAvoidsFree(Fat(g, s'.disk), g.EocMin(), ch);
    }
  }

  /** The bytes of a cluster of which only the first `left` blocks were not cleared. */
  function Uncleared(g: Layout, d: Disk, c: nat, left: nat): (z: seq<byte>)
    requires 2 <= c && ClusterStart(g, c) + left <= |d| && left <= g.blocksPerCluster
    ensures |z| == BLOCK_SIZE * g.blocksPerCluster
  {
    seq(BLOCK_SIZE * g.blocksPerCluster, p requires 0 <= p < BLOCK_SIZE * g.blocksPerCluster =>
      if p / BLOCK_SIZE < left then d[ClusterStart(g, c) + p / BLOCK_SIZE][p % BLOCK_SIZE] else 0)
  }

  /** All of a cluster is cleared but for its first `left` blocks, which are as they were. */
  predicate Cleared(g: Layout, d: Disk, d': Disk, c: nat, left: nat)
    requires 2 <= c && |d'| == |d| && ClusterStart(g, c) + g.blocksPerCluster <= |d| && left <= g.blocksPerCluster
  {
    var start := ClusterStart(g, c);
    forall b :: start <= b < start + g.blocksPerCluster ==> d'[b] == if b < start + left then d[b] else ZeroBlock()
  }

  /** The size of a directory with clusters is that of its clusters. */
  lemma DirSize(g: Layout, d: Disk, dir: FileState)
    requires g.Fits(|d|) && DirGood(g, d, dir) && !dir.fixed
    ensures dir.size == ClusterBytes(g, |dir.chain|) && dir.first != 0 && InRange(g, dir.chain)
  {
    hide Fat, Layout.Fits, ClusterBytes;
  }

  lemma ChainIsDir(g: Layout, d: Disk, dir: FileState)
    requires g.Fits(|d|) && !dir.fixed && dir.first != 0 && HasChain(Fat(g, d), g.EocMin(), dir.first, dir.chain)
    requires !dir.dirDirty && InRange(g, dir.chain)
    requires Unique(dir.chain) && dir.size == ClusterBytes(g, |dir.chain|) < TWO_32
    ensures DirGood(g, d, dir)
  {
    hide Fat, Layout.Fits, HasChain;
    var n := |dir.chain| * g.blocksPerCluster;
    assert dir.size == n * BLOCK_SIZE == ENTRY_SIZE * (ENTRIES_PER_BLOCK * n);
  }

  /** A directory has one more cluster: its new entries are what is in the cluster. */
  lemma ClearedBytes(g: Layout, s: CacheState, s': CacheState, dir: FileState, dir': FileState, c: nat, left: nat)
    requires g.Fits(|s.disk|) && DirGood(g, s.disk, dir) && !dir.fixed && Grown(g, s, s', dir.chain, dir.chain + [c])
    requires HasChain(Fat(g, s'.disk), g.EocMin(), dir.first, dir.chain + [c]) && Unique(dir.chain + [c])
    requires dir'.first == dir.first && dir'.chain == dir.chain + [c] && !dir'.fixed && !dir'.dirDirty
    requires dir'.size == dir.size + BLOCK_SIZE * g.blocksPerCluster < TWO_32
    requires c >= 2 && ClusterStart(g, c) + g.blocksPerCluster <= |s.disk| && left <= g.blocksPerCluster
    requires Cleared(g, s.disk, s'.disk, c, left)
    ensures DirGood(g, s'.disk, dir')
    ensures DirBytes(g, s'.disk, dir') == DirBytes(g, s.disk, dir) + Uncleared(g, s.disk, c, left)
    ensures dir.size / ENTRY_SIZE < dir'.size / ENTRY_SIZE
    ensures BlockOf(g, dir', dir.size / ENTRY_SIZE) == ClusterStart(g, c)
  {
    hide Fat, Layout.Fits, HasChain, ClusterStart, FatConfined, FileBytes, Cleared, DirBytes, Grown, Uncleared,
      ClusterBytes, DirGood;
    var n := |dir.chain|;
    DirSize(g, s.disk, dir);
    ClusterBytesNext(g, n);
    assert dir'.chain[n] == c;
    ChainIsDir(g, s'.disk, dir');
    GrownPrefix(g, s, s', dir, dir');
    var was, now, more := DirBytes(g, s.disk, dir), DirBytes(g, s'.disk, dir'), Uncleared(g, s.disk, c, left);
    forall q | 0 <= q < BLOCK_SIZE * g.blocksPerCluster
      ensures now[dir.size + q] == more[q]
    {
      NewByte(g, s.disk, s'.disk, dir', n, q, left);
    }
    NewByte(g, s.disk, s'.disk, dir', n, 0, left);
    assert dir.size / ENTRY_SIZE / ENTRIES_PER_BLOCK == dir.size / BLOCK_SIZE;
    assert now == was + more;
  }

  /** The blocks of a cluster that was taken from the free ones are what they were. */
  lemma ClearedFrom(g: Layout, s: CacheState, s1: CacheState, s2: CacheState, c: nat, left: nat)
    requires g.Fits(|s.disk|) && FatOnly(g, s, s1) && |s2.disk| == |s.disk| && 2 <= c < g.Clusters()
    requires ClusterStart(g, c) + g.blocksPerCluster <= |s.disk| && left <= g.blocksPerCluster
    requires Cleared(g, s1.disk, s2.disk, c, left)
    ensures Cleared(g, s.disk, s2.disk, c, left)
  {
    hide Layout.Fits, ClusterStart;
    ClusterRange(g, |s.disk|, c);
  }

  /** A directory that kept its chain has the same entries. */
  lemma SameDirectory(g: Layout, s: CacheState, s': CacheState, dir: FileState, dir': FileState)
    requires g.Fits(|s.disk|) && DirGood(g, s.disk, dir) && !dir.fixed && Grown(g, s, s', dir.chain, dir.chain)
    requires HasChain(Fat(g, s'.disk), g.EocMin(), dir.first, dir.chain)
    requires dir' == dir.(pos := dir'.pos, cur := dir'.cur)
    ensures NotExtended(g, s.disk, s'.disk, dir, dir', 0)
  {
    hide Fat, Layout.Fits, HasChain, Grown, DirBytes;
    GrownPrefix(g, s, s', dir, dir');
  }

  /** A cluster that was cleared to the end is zeros. */
  lemma AllCleared(g: Layout, d: Disk, c: nat)
    requires 2 <= c && ClusterStart(g, c) <= |d|
    ensures Uncleared(g, d, c, 0) == Zeros(BLOCK_SIZE * g.blocksPerCluster)
  {
    hide ClusterStart;
  }

  /** What is on the volume after a directory got a cluster that could not be cleared: a
      directory with the entries it had, followed by what is in the cluster. */
  ghost predicate LeftUncleared(g: Layout, d: Disk, d': Disk, dir: FileState, dir': FileState, left: nat)
    requires g.Fits(|d|) && |d'| == |d| && DirGood(g, d, dir)
  {
    && 2 <= dir'.cur < g.Clusters() && 0 < left <= g.blocksPerCluster && ClusterStart(g, dir'.cur) + left <= |d|
    && dir'.chain == dir.chain + [dir'.cur]
    && (var grown := dir'.(size := dir.size + BLOCK_SIZE * g.blocksPerCluster);
        && DirGood(g, d', grown)
        && DirBytes(g, d', grown) == DirBytes(g, d, dir) + Uncleared(g, d, dir'.cur, left))
  }

  /** What a directory is after an attempt to extend it failed: the same, or one that was left
      uncleared. */
  ghost predicate NotExtended(g: Layout, d: Disk, d': Disk, dir: FileState, dir': FileState, left: nat)
    requires g.Fits(|d|) && DirGood(g, d, dir)
  {
    && |d'| == |d|
    && if dir'.chain == dir.chain then DirGood(g, d', dir') && DirBytes(g, d', dir') == DirBytes(g, d, dir)
       else LeftUncleared(g, d, d', dir, dir', left)
  }

  lemma IsUncleared(g: Layout, d: Disk, d': Disk, dir: FileState, dir': FileState, left: nat)
    requires g.Fits(|d|) && |d'| == |d| && DirGood(g, d, dir)
    requires 2 <= dir'.cur < g.Clusters() && 0 < left <= g.blocksPerCluster
             && ClusterStart(g, dir'.cur) + g.blocksPerCluster <= |d| && dir'.chain == dir.chain + [dir'.cur]
    requires
      var grown := dir'.(size := dir.size + BLOCK_SIZE * g.blocksPerCluster);
      DirGood(g, d', grown) && DirBytes(g, d', grown) == DirBytes(g, d, dir) + Uncleared(g, d, dir'.cur, left)
    ensures NotExtended(g, d, d', dir, dir', left)
  {
    hide Fat, Layout.Fits, DirGood, DirBytes, ClusterStart, Uncleared;
  }

  /** The entries of a directory are followed by zeros, in the blocks from `start` on. */
  ghost predicate Extended(g: Layout, d: Disk, d': Disk, dir: FileState, dir': FileState, start: nat)
    requires g.Fits(|d|) && DirGood(g, d, dir)
  {
    && |d'| == |d| && DirGood(g, d', dir')
    && DirBytes(g, d', dir') == DirBytes(g, d, dir) + Zeros(BLOCK_SIZE * g.blocksPerCluster)
    && dir.size / ENTRY_SIZE < dir'.size / ENTRY_SIZE && BlockOf(g, dir', dir.size / ENTRY_SIZE) == start
  }

  /** A cluster was taken and cleared as far as its first `left` blocks. */
  lemma ClusterAdded(g: Layout, s: CacheState, s1: CacheState, s2: CacheState, dir: FileState, dir': FileState,
                     left: nat)
    requires g.Fits(|s.disk|) && DirGood(g, s.disk, dir) && !dir.fixed && FatOnly(g, s, s1) && |s2.disk| == |s.disk|
    requires dir' == dir.(chain := dir.chain + [dir'.cur], cur := dir'.cur)
    requires 2 <= dir'.cur < g.Clusters() && InRange(g, dir.chain) && Unique(dir'.chain)
    requires FatConfined(Fat(g, s.disk), Fat(g, s1.disk), dir.chain, dir'.chain)
    requires HasChain(Fat(g, s1.disk), g.EocMin(), dir'.first, dir'.chain)
    requires dir.size + BLOCK_SIZE * g.blocksPerCluster < TWO_32 && left <= g.blocksPerCluster
    requires InCluster(g, s1.disk, s2.disk, ClusterStart(g, dir'.cur))
    requires ClusterStart(g, dir'.cur) + g.blocksPerCluster <= |s.disk| && Cleared(g, s1.disk, s2.disk, dir'.cur, left)
    requires s2.dirty ==> ClusterStart(g, dir'.cur) <= s2.number < ClusterStart(g, dir'.cur) + g.blocksPerCluster
                          || (s1.dirty && s2.number == s1.number)
    requires s1.Stranded() ==> s2.Stranded()
    ensures Fat(g, s2.disk) == Fat(g, s1.disk) && Grown(g, s, s2, dir.chain, dir'.chain)
    ensures left == 0 ==>
              Extended(g, s.disk, s2.disk, dir, dir'.(size := dir.size + BLOCK_SIZE * g.blocksPerCluster),
                       ClusterStart(g, dir'.cur))
    ensures left > 0 ==> NotExtended(g, s.disk, s2.disk, dir, dir', left)
  {
    hide Fat, Layout.Fits, DirGood, DirBytes, ClusterStart, Uncleared, BlockOf, FatOnly, FatConfined, HasChain, Cleared,
      Grown, NotExtended, Unique, Zeros, InCluster;
    var c, grown := dir'.cur, dir'.(size := dir.size + BLOCK_SIZE * g.blocksPerCluster);
    ClusterRange(g, |s.disk|, c);
    ClearedIsGrown(g, s, s1, s2, dir'.first, dir.chain, c);
    ClearedFrom(g, s, s1, s2, c, left);
    ClearedBytes(g, s, s2, dir, grown, c, left);
    if left > 0 {
      IsUncleared(g, s.disk, s2.disk, dir, dir', left);
    } else {
      AllCleared(g, s.disk, c);
    }
  }

  /** Such a directory, which was full before it grew, is in order exactly if what is in the
      cluster is: nothing behind a free entry, no name twice, and none that was there. */
  lemma UnclearedOrder(g: Layout, d: Disk, d': Disk, dir: FileState, dir': FileState, left: nat)
    requires g.Fits(|d|) && |d'| == |d| && DirGood(g, d, dir) && LeftUncleared(g, d, d', dir, dir', left)
    requires VacantAt(DirBytes(g, d, dir), 0) == Count(DirBytes(g, d, dir))
    ensures
      var b, more := DirBytes(g, d, dir), Uncleared(g, d, dir'.cur, left);
      var b' := DirBytes(g, d', dir'.(size := dir.size + BLOCK_SIZE * g.blocksPerCluster));
      && (FreeTail(b') <==> FreeTail(more))
      && (NoNewTwins(b, b') <==>
            NamesDiffer(more) && forall k :: 0 <= k < Count(more) && IsLive(more, k) ==> !Has(b, NameAt(more, k)))
  {
    hide Fat, Layout.Fits, DirGood, DirBytes, Uncleared, ClusterStart, VacantAt, FreeTail, NoNewTwins, NamesDiffer, Has;
    ExtendedOrder(DirBytes(g, d, dir), Uncleared(g, d, dir'.cur, left));
  }

  function Zeros(n: nat): (z: seq<byte>)
    ensures |z| == n && forall i :: 0 <= i < n ==> z[i] == 0
  {
    seq(n, _ => 0)
  }

  lemma GrownPrefix(g: Layout, s: CacheState, s': CacheState, dir: FileState, dir': FileState)
    requires g.Fits(|s.disk|) && DirGood(g, s.disk, dir) && !dir.fixed && Grown(g, s, s', dir.chain, dir'.chain)
    requires !dir'.fixed && dir.size <= dir'.size && HasBytes(g, false, dir'.chain, dir'.size)
    ensures DirBytes(g, s'.disk, dir')[..dir.size] == DirBytes(g, s.disk, dir)
  {
    hide Fat, Layout.Fits, HasChain, FatConfined, FileBytes;
    FileBytesPrefix(g, s'.disk, dir'.chain, dir.chain, dir'.size, dir.size);
    forall b | 0 <= b < |s.disk| && Owns(g, dir.chain, b)
      ensures s'.disk[b] == s.disk[b]
    {
      assert !g.IsFatBlock(b);
    }
    FileBytesOther(g, s.disk, s'.disk, dir.chain, dir.size);
  }

  /** Byte `q` behind the first `n` clusters of a directory is in the next one. */
  lemma NewByte(g: Layout, d0: Disk, d: Disk, dir: FileState, n: nat, q: nat, left: nat)
    requires g.Fits(|d|) && !dir.fixed && |dir.chain| == n + 1 && HasBytes(g, false, dir.chain, dir.size)
    requires dir.size == ClusterBytes(g, n) + BLOCK_SIZE * g.blocksPerCluster
    requires q < BLOCK_SIZE * g.blocksPerCluster && left <= g.blocksPerCluster
    requires |d0| == |d| && ClusterStart(g, dir.chain[n]) + g.blocksPerCluster <= |d|
    requires Cleared(g, d0, d, dir.chain[n], left)
    ensures DirBytes(g, d, dir)[ClusterBytes(g, n) + q] == Uncleared(g, d0, dir.chain[n], left)[q]
    ensures (ClusterBytes(g, n) + q) / BLOCK_SIZE < HomeBlocks(g, false, dir.chain)
    ensures q == 0 ==>
              Home(g, false, dir.chain, (ClusterBytes(g, n) + q) / BLOCK_SIZE) == ClusterStart(g, dir.chain[n])
  {
    hide Fat, Layout.Fits, ClusterStart, ClusterBytes;
    var b, r := g.blocksPerCluster, q / BLOCK_SIZE;
    var k := (ClusterBytes(g, n) + q) / BLOCK_SIZE;
    SameRest(g, n, q);
    DivUnique(k, b, n, r);
    var i, at := BlockIndex(g, dir.chain, k);
    BlockAtOwned(g, |d|, dir.chain, k);
  }

  lemma SameRest(g: Layout, n: nat, q: nat)
    requires q < BLOCK_SIZE * g.blocksPerCluster
    ensures (ClusterBytes(g, n) + q) / BLOCK_SIZE == n * g.blocksPerCluster + q / BLOCK_SIZE
    ensures (ClusterBytes(g, n) + q) % BLOCK_SIZE == q % BLOCK_SIZE && q / BLOCK_SIZE < g.blocksPerCluster
  {
    var m := n * g.blocksPerCluster;
    assert ClusterBytes(g, n) == m * BLOCK_SIZE;
  }

  lemma WholeEntries(pos: nat, size: nat)
    requires pos % ENTRY_SIZE == 0 && size % ENTRY_SIZE == 0
    ensures pos < size ==> pos + ENTRY_SIZE <= size
  {
  }

  /** After the first byte of an entry was read, the rest of the entry is skipped. */
  lemma EntrySkipped(g: Layout, d: Disk, f: FileState, f': FileState)
    requires g.Fits(|d|) && Readable(g, d, f) && 0 < f.pos && (f.pos - 1) % ENTRY_SIZE == 0
             && f.pos + ENTRY_SIZE - 1 <= f.size
    requires f' == f.(pos := f.pos + ENTRY_SIZE - 1)
    ensures Readable(g, d, f')
  {
    hide Fat, Layout.Fits, HomeBlocks, ClusterIx, Stores, Blocks;
    SameBlockOfEntry(f.pos - 1);
  }

  lemma SameBlockOfEntry(p: nat)
    requires p % ENTRY_SIZE == 0
    ensures (p + ENTRY_SIZE - 1) / BLOCK_SIZE == p / BLOCK_SIZE
  {
  }

  /** A rewound directory can be read. */
  lemma RewoundIsReadable(g: Layout, d: Disk, f: FileState)
    requires g.Fits(|d|) && DirGood(g, d, f) && f.pos == 0 && f.cur == 0
    ensures Readable(g, d, f)
  {
    hide Fat, Layout.Fits, IsChain;
  }

  lemma DirGoodMoves(g: Layout, d: Disk, f: FileState, f': FileState)
    requires g.Fits(|d|) && DirGood(g, d, f)
    requires f'.fixed == f.fixed && f'.first == f.first && f'.chain == f.chain && f'.size == f.size
    requires f'.dirDirty == f.dirDirty
    ensures DirGood(g, d, f') && DirBytes(g, d, f') == DirBytes(g, d, f)
  {
    hide Fat, Layout.Fits, HasChain, HasBytes, Contents;
  }

  lemma DirAtEnd(g: Layout, d: Disk, dir: FileState)
    requires g.Fits(|d|) && DirGood(g, d, dir) && !dir.fixed && dir.chain != [] && dir.cur == dir.chain[|dir.chain| - 1]
    ensures AtEnd(Fat(g, d), g.EocMin(), dir.first, dir.chain, dir.cur) && InRange(g, dir.chain) && dir.first != 0
  {
    hide Fat, Layout.Fits, IsChain;
  }

  /** A directory with clusters has a chain with room for it. */
  lemma DirIsChained(g: Layout, d: Disk, dir: FileState)
    requires g.Fits(|d|) && DirGood(g, d, dir) && !dir.fixed
    ensures Chained(g, d, dir, dir.size)
  {
    hide Fat, Layout.Fits, HasChain;
  }

  lemma LastInRange(g: Layout, ch: seq<nat>, ch': seq<nat>, c: nat)
    requires InRange(g, ch') && ch' == ch + [c]
    ensures 2 <= c < g.Clusters()
  {
    assert ch'[|ch|] == c;
  }

  // ---- Opening and creating -------------------------------------------------------------------

  function Attributes(b: Block, index: nat): byte
    requires index < ENTRIES_PER_BLOCK
  {
    b[ENTRY_SIZE * index + OFF_ATTR]
  }

  /** A handle on the file of an entry, just opened. */
  function Opened(b: Block, block: nat, index: nat, ch: seq<nat>): FileState
    requires index < ENTRIES_PER_BLOCK
  {
    FileState(false, EntryFirst(b, index), ch, EntrySize(b, index), 0, 0, block, index, false)
  }

  /** A handle on the directory of an entry. Its size is not in the entry. */
  function OpenedDir(g: Layout, b: Block, block: nat, index: nat, ch: seq<nat>): FileState
    requires index < ENTRIES_PER_BLOCK
  {
    Opened(b, block, index, ch).(size := ClusterBytes(g, |ch|))
  }

  /** The entry of a file or directory tells the truth: the chain is there, has room for the
      size, and does not hold the entry itself. */
  ghost predicate Described(g: Layout, d: Disk, block: nat, index: nat, ch: seq<nat>)
    requires g.Fits(|d|)
  {
    && 0 < block < |d| && index < ENTRIES_PER_BLOCK
    && (var attr := Attributes(d[block], index);
        if IsVolumeLabel(attr) then true
        else if IsDirectoryEntry(attr) then DirGood(g, d, OpenedDir(g, d[block], block, index, ch))
        else Sound(g, d, Opened(d[block], block, index, ch), EntrySize(d[block], index)))
  }

  /** Entry `k` of a directory tells the truth, and its file is not in the directory itself. */
  ghost predicate IsDescribed(g: Layout, d: Disk, dir: FileState, k: nat)
    requires g.Fits(|d|) && DirGood(g, d, dir) && k < dir.size / ENTRY_SIZE
  {
    exists ch :: Described(g, d, BlockOf(g, dir, k), k % ENTRIES_PER_BLOCK, ch) && Disjoint(ch, dir.chain)
  }

  /** Every entry of a file or subdirectory of a directory tells the truth. */
  ghost predicate Truthful(g: Layout, d: Disk, dir: FileState)
    requires g.Fits(|d|) && DirGood(g, d, dir)
  {
    forall k :: 0 <= k < dir.size / ENTRY_SIZE && IsMember(DirBytes(g, d, dir), k) ==> IsDescribed(g, d, dir, k)
  }

  /** A file just opened is good: the dirty block, if any, is the directory's. */
  lemma OpenedIsGood(g: Layout, s: CacheState, block: nat, index: nat, ch: seq<nat>)
    requires g.Fits(|s.disk|) && Described(g, s.disk, block, index, ch) && s.number == block
    requires !IsVolumeLabel(Attributes(s.disk[block], index)) && !IsDirectoryEntry(Attributes(s.disk[block], index))
    ensures Good(g, s, Opened(s.disk[block], block, index, ch))
  {
    hide Fat, Layout.Fits, HasChain, BlockAt, EntryFirst, EntrySize, SlotHolds, Entry;
    forall k | 0 <= k < Blocks(g, ch)
      ensures BlockAt(g, ch, k) != s.number
    {
      BlockAtOwned(g, |s.disk|, ch, k);
    }
  }

  const DEFAULT_DATE: nat := 0x2821
  const DEFAULT_TIME: nat := 0x0800

  function Bytes16(v: nat): (b: seq<byte>)
    ensures |b| == 2
  {
    [v % 0x100, v / 0x100 % 0x100]
  }

  /** A new entry: name, default time stamps, no clusters and no bytes. */
  function NewEntry(name: seq<byte>): (e: seq<byte>)
    requires |name| == NAME_SIZE
    ensures |e| == ENTRY_SIZE && e[..NAME_SIZE] == name && e[OFF_ATTR] == 0
  {
    var stamp := Bytes16(DEFAULT_TIME) + Bytes16(DEFAULT_DATE);
    name + [0, 0, 0] + stamp + Bytes16(DEFAULT_DATE) + [0, 0] + stamp + [0, 0] + [0, 0, 0, 0]
  }

  /** The entry just written describes an empty file. */
  lemma NewEntryIsDescribed(g: Layout, d: Disk, block: nat, index: nat, name: seq<byte>)
    requires g.Fits(|d|) && 0 < block < |d| && index < ENTRIES_PER_BLOCK && |name| == NAME_SIZE && !g.IsFatBlock(block)
    requires EntryBytes(d[block], index) == NewEntry(name)
    requires g.dataStart <= block ==> ClusterOf(g, block) < g.Clusters() && Entry(g, d, ClusterOf(g, block)) != 0
    ensures Described(g, d, block, index, []) && Attributes(d[block], index) == 0
    ensures EntryFirst(d[block], index) == 0 && EntrySize(d[block], index) == 0
  {
    hide Fat, Layout.Fits, Entry;
    var e := NewEntry(name);
    var b := d[block];
    assert forall i :: 0 <= i < ENTRY_SIZE ==> b[ENTRY_SIZE * index + i] == EntryBytes(b, index)[i];
    assert e[OFF_CLUSTER_HIGH] == 0 && e[OFF_CLUSTER_HIGH + 1] == 0;
    assert e[OFF_CLUSTER_LOW] == 0 && e[OFF_CLUSTER_LOW + 1] == 0;
    assert e[OFF_SIZE] == 0 && e[OFF_SIZE + 1] == 0 && e[OFF_SIZE + 2] == 0 && e[OFF_SIZE + 3] == 0;
    NoEntry(b, ENTRY_SIZE * index);
  }

  lemma NoEntry(b: Block, at: nat)
    requires at % ENTRY_SIZE == 0 && at + ENTRY_SIZE <= |b|
    requires b[at + OFF_CLUSTER_HIGH] == 0 && b[at + OFF_CLUSTER_HIGH + 1] == 0
    requires b[at + OFF_CLUSTER_LOW] == 0 && b[at + OFF_CLUSTER_LOW + 1] == 0
    requires b[at + OFF_SIZE] == 0 && b[at + OFF_SIZE + 1] == 0 && b[at + OFF_SIZE + 2] == 0
             && b[at + OFF_SIZE + 3] == 0
    ensures EntryFirst(b, at / ENTRY_SIZE) == 0 && EntrySize(b, at / ENTRY_SIZE) == 0
  {
    assert ENTRY_SIZE * (at / ENTRY_SIZE) == at;
  }

  /** The block of an entry of a directory with clusters is in a cluster in use. */
  lemma SlotInUse(g: Layout, d: Disk, dir: FileState, k: nat)
    requires g.Fits(|d|) && DirGood(g, d, dir) && k < dir.size / ENTRY_SIZE
    ensures 0 < BlockOf(g, dir, k) < |d| && !g.IsFatBlock(BlockOf(g, dir, k))
    ensures g.dataStart <= BlockOf(g, dir, k) ==>
              ClusterOf(g, BlockOf(g, dir, k)) < g.Clusters() && Entry(g, d, ClusterOf(g, BlockOf(g, dir, k))) != 0
  {
    hide Fat, Layout.Fits, BlockOf, HomeBlocks, Entry, DirBytes;
    EntryInBlock(g, d, dir, k);
    if !dir.fixed {
      ChainAvoidsFree(Fat(g, d), g.EocMin(), dir.chain);
      var i :| 0 <= i < |dir.chain| && dir.chain[i] == ClusterOf(g, BlockOf(g, dir, k));
      assert Fat(g, d)[dir.chain[i]] == Entry(g, d, dir.chain[i]);
    }
  }

  /** Files outside the directory do not own its blocks. */
  lemma DirNotOwned(g: Layout, d: Disk, dir: FileState, k: nat, ch: seq<nat>)
    requires g.Fits(|d|) && DirGood(g, d, dir) && k < dir.size / ENTRY_SIZE && Disjoint(dir.chain, ch)
    ensures !Owns(g, ch, BlockOf(g, dir, k))
  {
    hide Fat, Layout.Fits, BlockOf, DirBytes, DirGood;
    EntryInBlock(g, d, dir, k);
  }

  /** From `s` to `s'` all files outside the directory `ch` were spared, but for the one that
      an entry describes. */
  ghost predicate SparesBut(g: Layout, s: CacheState, s': CacheState, ch: seq<nat>, block: nat, index: nat)
    requires g.Fits(|s.disk|)
  {
    && |s'.disk| == |s.disk|
    && forall h: FileState {:trigger Spared(g, s, s', h)} ::
         Good(g, s, h) && Disjoint(ch, h.chain) && (h.block != block || h.index != index) ==> Spared(g, s, s', h)
  }

  /** Nothing but the FAT blocks in the cache changed. */
  lemma QuietSpares(g: Layout, s: CacheState, s': CacheState, h: FileState)
    requires g.Fits(|s.disk|) && s'.disk == s.disk && Good(g, s, h)
    requires s'.dirty ==> g.IsFatBlock(s'.number) || (s.dirty && s'.number == s.number)
    ensures Spared(g, s, s', h)
  {
    hide Fat, Layout.Fits, FileBytes, TailClean, CursorOn, Rooted;
    FatOnlyTail(g, |s.disk|, s, s', h.chain, h.size);
  }

  lemma QuietSparesAll(g: Layout, s: CacheState, s': CacheState, ch: seq<nat>, block: nat, index: nat, f: FileState)
    requires g.Fits(|s.disk|) && s'.disk == s.disk
    requires s'.dirty ==> g.IsFatBlock(s'.number) || (s.dirty && s'.number == s.number)
    ensures SparesBut(g, s, s', ch, block, index) && Spares(g, s, s', f)
  {
    hide Fat, Layout.Fits, Good, Spared, Separate;
    forall h: FileState | Good(g, s, h)
      ensures Spared(g, s, s', h)
    {
      QuietSpares(g, s, s', h);
    }
  }

  lemma GrownSparesAll(g: Layout, s: CacheState, s': CacheState, ch: seq<nat>, ch': seq<nat>, block: nat, index: nat)
    requires g.Fits(|s.disk|) && Grown(g, s, s', ch, ch')
    ensures SparesBut(g, s, s', ch, block, index)
  {
    hide Fat, Layout.Fits, Good, Spared, Grown;
    forall h: FileState | Good(g, s, h) && Disjoint(ch, h.chain)
      ensures Spared(g, s, s', h)
    {
      GrownSpares(g, s, s', ch, ch', h);
    }
  }

  /** Writing an entry of a directory, possibly one that has just grown, spares the rest. */
  lemma EntrySparesAll(g: Layout, s: CacheState, s1: CacheState, s': CacheState, ch: seq<nat>, dir: FileState, k: nat)
    requires g.Fits(|s.disk|) && |s1.disk| == |s.disk| && DirGood(g, s1.disk, dir) && k < dir.size / ENTRY_SIZE
    requires (s1 == s && dir.chain == ch) || Grown(g, s, s1, ch, dir.chain)
    requires SlotChanged(g, s1, s', BlockOf(g, dir, k), k % ENTRIES_PER_BLOCK)
    ensures SparesBut(g, s, s', ch, BlockOf(g, dir, k), k % ENTRIES_PER_BLOCK)
  {
    hide Fat, Layout.Fits, Good, FileBytes, Rooted, Grown, SlotChanged, BlockOf, DirGood, Owns;
    forall h: FileState | Good(g, s, h) && Disjoint(ch, h.chain)
    && (h.block != BlockOf(g, dir, k) || h.index != k % ENTRIES_PER_BLOCK)
      ensures Spared(g, s, s', h)
    {
      if Grown(g, s, s1, ch, dir.chain) {
        GrownSpares(g, s, s1, ch, dir.chain, h);
      }
      DirNotOwned(g, s1.disk, dir, k, h.chain);
      SlotSpares(g, s1, s', BlockOf(g, dir, k), k % ENTRIES_PER_BLOCK, h);
    }
  }

  /** A new entry was created in the first slot that was not live, behind the old ones if the
      directory had to grow. */
  ghost predicate Created(g: Layout, s: CacheState, s': CacheState, dir: FileState, dir': FileState, name: seq<byte>)
    requires g.Fits(|s.disk|) && DirGood(g, s.disk, dir) && |name| == NAME_SIZE
    ensures Created(g, s, s', dir, dir', name) ==> |s'.disk| == |s.disk| && DirGood(g, s'.disk, dir')
  {
    && |s'.disk| == |s.disk| && DirGood(g, s'.disk, dir')
    && dir'.fixed == dir.fixed && dir.chain <= dir'.chain && dir.size <= dir'.size
    && FatConfined(Fat(g, s.disk), Fat(g, s'.disk), dir.chain, dir'.chain)
    && (var b, b' := DirBytes(g, s.disk, dir), DirBytes(g, s'.disk, dir');
        var v := VacantAt(b, 0);
        var all := if v < Count(b) then b else b + Zeros(BLOCK_SIZE * g.blocksPerCluster);
        v < Count(all) && b' == WithEntry(all, v, NewEntry(name)))
  }

  /** A name that was not there is there once after it was created; no other name gets a twin,
      and nothing gets behind the first free entry. */
  lemma CreatedKeeps(g: Layout, s: CacheState, s': CacheState, dir: FileState, dir': FileState, name: seq<byte>)
    requires g.Fits(|s.disk|) && DirGood(g, s.disk, dir) && IsName(name) && Created(g, s, s', dir, dir', name)
    requires FreeTail(DirBytes(g, s.disk, dir)) && !Has(DirBytes(g, s.disk, dir), name)
    ensures
      var b, b' := DirBytes(g, s.disk, dir), DirBytes(g, s'.disk, dir');
      FreeTail(b') && NoNewTwins(b, b') && HasOnce(b', name)
  {
    hide Fat, Layout.Fits, DirGood, DirBytes, FreeTail, NoNewTwins, Has, HasOnce, WithEntry, NewEntry, FatConfined;
    var b := DirBytes(g, s.disk, dir);
    var zeros := Zeros(BLOCK_SIZE * g.blocksPerCluster);
    if VacantAt(b, 0) < Count(b) {
      CreateKeeps(b, NewEntry(name));
    } else {
      ZerosAreEntries(g);
      ExtendKeeps(b, zeros);
      CreateKeeps(b + zeros, NewEntry(name));
      NoNewTwinsTrans(b, b + zeros, DirBytes(g, s'.disk, dir'));
    }
  }

  lemma ZerosAreEntries(g: Layout)
    ensures IsDirectory(Zeros(BLOCK_SIZE * g.blocksPerCluster))
  {
    assert BLOCK_SIZE * g.blocksPerCluster == ENTRY_SIZE * (ENTRIES_PER_BLOCK * g.blocksPerCluster);
  }

  /** The fixed root directory of a FAT16 volume. */
  function Root16Dir(g: Layout): FileState {
    FileState(true, 0, [], ENTRY_SIZE * g.rootEntries, 0, 0, 0, 0, false)
  }

  /** The root directory of a FAT32 volume, in the clusters of a chain. */
  function Root32Dir(g: Layout, ch: seq<nat>): FileState {
    FileState(false, g.rootStart, ch, ClusterBytes(g, |ch|), 0, 0, 0, 0, false)
  }

  /** The region between root start and data start has room for the root entries. */
  lemma Root16Fits(g: Layout, d: Disk)
    requires g.Fits(|d|) && g.fatType == Fat16 && ENTRY_SIZE * g.rootEntries < TWO_32
    ensures DirGood(g, d, Root16Dir(g))
  {
    assert ENTRY_SIZE * g.rootEntries <= (32 * g.rootEntries + 511) / 512 * 512;
  }

  lemma SparedTrans(g: Layout, s0: CacheState, s1: CacheState, s2: CacheState, h: FileState)
    requires g.Fits(|s0.disk|) && |s1.disk| == |s0.disk| && |s2.disk| == |s0.disk| && Good(g, s0, h)
    requires Spared(g, s0, s1, h) && Spared(g, s1, s2, h)
    ensures Spared(g, s0, s2, h)
  {
    hide Fat, Layout.Fits, FileBytes, Rooted, Good;
  }

  lemma SparesButLater(g: Layout, s0: CacheState, s1: CacheState, s2: CacheState, ch: seq<nat>, block: nat, index: nat)
    requires g.Fits(|s0.disk|) && s1.disk == s0.disk && FatOnly(g, s0, s1) && SparesBut(g, s1, s2, ch, block, index)
    ensures SparesBut(g, s0, s2, ch, block, index)
  {
    hide Fat, Layout.Fits, Good, Spared;
    forall h: FileState | Good(g, s0, h) && Disjoint(ch, h.chain) && (h.block != block || h.index != index)
      ensures Spared(g, s0, s2, h)
    {
      QuietSpares(g, s0, s1, h);
      SparedIsGood(g, s0, s1, h);
      assert Spared(g, s1, s2, h);
      SparedTrans(g, s0, s1, s2, h);
    }
  }

  lemma SparesButThen(g: Layout, s0: CacheState, s1: CacheState, s2: CacheState, ch: seq<nat>, block: nat, index: nat)
    requires g.Fits(|s0.disk|) && |s1.disk| == |s0.disk| && SparesBut(g, s0, s1, ch, block, index)
    requires s2.disk == s1.disk && FatOnly(g, s1, s2)
    ensures SparesBut(g, s0, s2, ch, block, index)
  {
    hide Fat, Layout.Fits, Good, Spared;
    forall h: FileState | Good(g, s0, h) && Disjoint(ch, h.chain) && (h.block != block || h.index != index)
      ensures Spared(g, s0, s2, h)
    {
      assert Spared(g, s0, s1, h);
      SparedIsGood(g, s0, s1, h);
      QuietSpares(g, s1, s2, h);
      SparedTrans(g, s0, s1, s2, h);
    }
  }

  lemma SparedIsGood(g: Layout, s: CacheState, s': CacheState, h: FileState)
    requires g.Fits(|s.disk|) && |s'.disk| == |s.disk| && Good(g, s, h) && Spared(g, s, s', h)
    ensures Good(g, s', h)
  {
  }
}
