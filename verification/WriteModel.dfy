/** What writing does, on values: growing the chain, patching a block, and the one way in
    which a write can strand the cache (Modules/SD/SdFile.cpp:36-47, 1242-1306). */
module WriteModel {
  import opened Bytes
  import opened Layouts
  import opened Chains
  import opened Cache
  import opened Volume
  import opened FileModel

  /** A chain that can be lengthened: `cur` is its last cluster, or 0 if it is empty. */
  ghost predicate AtEnd(fat: seq<nat>, eoc: nat, first: nat, ch: seq<nat>, cur: nat) {
    HasChain(fat, eoc, first, ch) && Unique(ch) && cur == if ch == [] then 0 else ch[|ch| - 1]
  }

  lemma AtEndInRange(fat: seq<nat>, eoc: nat, first: nat, ch: seq<nat>, cur: nat)
    requires |fat| <= eoc && AtEnd(fat, eoc, first, ch, cur)
    ensures cur == 0 || (2 <= cur < |fat| && fat[cur] >= eoc)
    ensures first == 0 <==> ch == []
  {
  }

  lemma AtEndEmpty(fat: seq<nat>, eoc: nat)
    ensures AtEnd(fat, eoc, 0, [], 0)
  {
  }

  lemma AtEndLast(fat: seq<nat>, eoc: nat, first: nat, ch: seq<nat>, cur: nat)
    requires HasChain(fat, eoc, first, ch) && Unique(ch) && ch != [] && cur == ch[|ch| - 1]
    ensures AtEnd(fat, eoc, first, ch, cur)
  {
  }

  lemma FirstOf(fat: seq<nat>, eoc: nat, first: nat, ch: seq<nat>)
    requires HasChain(fat, eoc, first, ch) && first != 0
    ensures ch != [] && ch[0] == first
  {
  }

  /** A cluster was allocated at the end of a chain. */
  lemma GrowChain(fat: seq<nat>, eoc: nat, first: nat, ch: seq<nat>, cur: nat, b: nat, mark: nat)
    requires |fat| <= eoc <= mark && AtEnd(fat, eoc, first, ch, cur) && AllFree(fat, b, 1) && cur < |fat|
    ensures
      var fat' := Allocated(fat, cur, b, 1, mark);
      && HasChain(fat', eoc, if first == 0 then b else first, ch + [b])
      && Unique(ch + [b]) && FatConfined(fat, fat', ch, ch + [b]) && FormKept(fat, fat', eoc, ch, ch + [b])
  {
    AllocatedExtends(fat, eoc, ch, b, 1, mark);
    assert Run(b, 1) == [b];
    if ch != [] {
      ChainAvoidsFree(fat, eoc, ch);
    }
    GrowKeepsForm(fat, eoc, ch, cur, b, mark);
  }

  lemma GrowKeepsForm(fat: seq<nat>, eoc: nat, ch: seq<nat>, cur: nat, b: nat, mark: nat)
    requires |fat| <= eoc <= mark && AllFree(fat, b, 1) && cur < |fat|
    requires ch == [] || IsChain(fat, eoc, ch)
    requires cur == if ch == [] then 0 else ch[|ch| - 1]
    ensures FormKept(fat, Allocated(fat, cur, b, 1, mark), eoc, ch, ch + [b])
  {
    if WellFormed(fat, eoc) && Rooted(fat, ch) {
      AllocatedWellFormed(fat, eoc, cur, b, 1, mark);
      FreeIsHead(fat, eoc, b);
      if ch != [] {
        ChainAvoidsFree(fat, eoc, ch);
      }
    }
  }

  /** An allocation that failed left the chain alone. */
  lemma GrowFails(fat: seq<nat>, fat': seq<nat>, eoc: nat, mark: nat, first: nat, ch: seq<nat>)
    requires |fat| <= eoc <= mark && HasChain(fat, eoc, first, ch) && OrphanRun(fat, fat', mark)
    ensures HasChain(fat', eoc, first, ch) && FatConfined(fat, fat', ch, ch) && FormKept(fat, fat', eoc, ch, ch)
  {
    if fat' != fat {
      var b: nat, n: nat :| n > 0 && AllFree(fat, b, n) && fat' == LinkRun(fat, b, n, mark);
      if first != 0 {
        LinkRunKeeps(fat, eoc, b, n, mark, ch);
        ChainAvoidsFree(fat, eoc, ch);
      }
      RunLinksAreNew(fat, b, n, mark, ch);
      if WellFormed(fat, eoc) {
        LinkRunWellFormed(fat, eoc, b, n, mark);
      }
    }
  }

  lemma RunLinksAreNew(fat: seq<nat>, b: nat, n: nat, mark: nat, ch: seq<nat>)
    requires |fat| <= mark && AllFree(fat, b, n)
    ensures forall d :: 2 <= d < |fat| ==> NewLink(fat, LinkRun(fat, b, n, mark), ch, d)
  {
  }

  /** FAT accesses that lengthen the chain, or leave it alone, keep a file sound and its
      bytes in place, and touch nobody else's. */
  lemma SoundGrows(g: Layout, s: CacheState, s': CacheState, f: FileState, f': FileState, extent: nat)
    requires g.Fits(|s.disk|) && Sound(g, s.disk, f, extent) && FatOnly(g, s, s')
    requires FatConfined(Fat(g, s.disk), Fat(g, s'.disk), f.chain, f'.chain)
    requires FormKept(Fat(g, s.disk), Fat(g, s'.disk), g.EocMin(), f.chain, f'.chain)
    requires HasChain(Fat(g, s'.disk), g.EocMin(), f'.first, f'.chain) && InRange(g, f'.chain) && Unique(f'.chain)
    requires f.chain <= f'.chain && f'.size == f.size && !f'.fixed && f'.block == f.block && f'.index == f.index
    requires f'.dirDirty || (!f.dirDirty && f'.first == f.first)
    ensures Sound(g, s'.disk, f', extent)
    ensures FileBytes(g, s'.disk, f'.chain, extent) == FileBytes(g, s.disk, f.chain, extent)
    ensures Confined(g, s, s', f.chain, f'.chain, f.block, f.index)
  {
    hide Fat, Layout.Fits, FatConfined, HasChain, FileBytes, Entry;
    if g.dataStart <= f.block {
      OtherClusterKept(g, s.disk, s'.disk, f.chain, f'.chain, f.block);
    }
    assert Blocks(g, f.chain) <= Blocks(g, f'.chain) by {
      assert |f.chain| <= |f'.chain|;
    }
    FileBytesPrefix(g, s.disk, f.chain, f'.chain, extent, extent);
    forall b | 0 <= b < |s.disk| && Owns(g, f'.chain, b)
      ensures s'.disk[b] == s.disk[b]
    {
    }
    FileBytesOther(g, s.disk, s'.disk, f'.chain, extent);
  }

  /** The new cluster is where the cursor goes when the position is just past the chain. */
  lemma CursorGrown(g: Layout, ch: seq<nat>, ch': seq<nat>, pos: nat, cur: nat)
    requires g.blocksPerCluster > 0 && pos / BLOCK_SIZE == Blocks(g, ch) && ch' == ch + [cur]
    ensures CursorAt(g, ch', pos, cur)
  {
    var b := g.blocksPerCluster;
    DivUnique(Blocks(g, ch), b, |ch|, 0);
    DivBound(Blocks(g, ch), b, |ch'|);
  }

  lemma CursorZero(g: Layout, ch: seq<nat>, pos: nat, cur: nat)
    requires g.blocksPerCluster > 0 && InRange(g, ch) && CursorOn(g, ch, pos, cur)
    ensures cur == 0 <==> pos == 0
  {
  }

  // ---- Storing a piece in one block ------------------------------------------------------

  function Longer(extent: nat, pos: nat): nat {
    if pos > extent then pos else extent
  }

  /** The block that receives a piece at the current position. */
  function PieceBlock(g: Layout, total: nat, f: FileState): nat
    requires g.Fits(total) && InRange(g, f.chain) && f.pos / BLOCK_SIZE < Blocks(g, f.chain)
  {
    BlockBounded(g, total, f.chain, f.pos / BLOCK_SIZE)
  }

  /** What the cache has for unwritten data after a piece was stored in block `b`. */
  ghost predicate DirtyHere(s: CacheState, s': CacheState, b: nat) {
    s'.dirty ==> s'.number == b || s'.number == NO_BLOCK || (s.dirty && s'.number == s.number)
  }

  /** Only block `b` of a file changed: the file stays sound, and nobody else is touched. */
  lemma BlockChanged(g: Layout, s: CacheState, s': CacheState, f: FileState, extent: nat)
    requires g.Fits(|s.disk|) && |s'.disk| == |s.disk| && Sound(g, s.disk, f, extent)
    requires f.pos / BLOCK_SIZE < Blocks(g, f.chain)
    requires forall b :: 0 <= b < |s.disk| && b != PieceBlock(g, |s.disk|, f) ==> s'.disk[b] == s.disk[b]
    requires DirtyHere(s, s', PieceBlock(g, |s.disk|, f))
    requires s.Stranded() ==> s'.Stranded()
    ensures Sound(g, s'.disk, f, extent)
    ensures Confined(g, s, s', f.chain, f.chain, f.block, f.index)
    ensures Fat(g, s'.disk) == Fat(g, s.disk)
  {
    hide Fat, Layout.Fits, FileBytes, BlockAt, HasChain, Entry;
    var b := PieceBlock(g, |s.disk|, f);
    BlockAtOwned(g, |s.disk|, f.chain, f.pos / BLOCK_SIZE);
    FatOfOther(g, s.disk, s'.disk);
    if g.dataStart <= f.block {
      OtherClusterKept(g, s.disk, s'.disk, f.chain, f.chain, f.block);
    }
  }

  /** A piece was stored: a splice of the bytes that count. */
  lemma PieceStored(g: Layout, s: CacheState, s': CacheState, f: FileState, piece: seq<byte>, blk: Block)
    requires g.Fits(|s.disk|) && Sound(g, s.disk, f, Longer(f.size, f.pos))
    requires f.pos / BLOCK_SIZE < Blocks(g, f.chain) && f.pos % BLOCK_SIZE + |piece| <= BLOCK_SIZE
    requires f.pos + |piece| < TWO_32 && |piece| > 0
    requires s'.disk == s.disk[PieceBlock(g, |s.disk|, f) := blk]
    requires blk == Patch(s.disk[PieceBlock(g, |s.disk|, f)], f.pos % BLOCK_SIZE, piece)
             || (f.pos >= f.size && f.pos % BLOCK_SIZE == 0 && blk[..|piece|] == piece)
    requires DirtyHere(s, s', PieceBlock(g, |s.disk|, f)) && TailClean(g, s, f.chain, Longer(f.size, f.pos))
    requires s.Stranded() ==> s'.Stranded()
    ensures
      var extent, extent' := Longer(f.size, f.pos), Longer(f.size, f.pos + |piece|);
      && Sound(g, s'.disk, f.(pos := f.pos + |piece|), extent') && TailClean(g, s', f.chain, extent')
      && FileBytes(g, s'.disk, f.chain, extent') == Splice(FileBytes(g, s.disk, f.chain, extent), f.pos, piece)
    ensures Confined(g, s, s', f.chain, f.chain, f.block, f.index)
  {
    hide Fat, Layout.Fits, FileBytes, BlockAt, HasChain, SlotPlaced, EntryFirst, EntrySize, Confined, Splice, Patch;
    var extent := Longer(f.size, f.pos);
    FileBytesPatch(g, s.disk, f.chain, extent, f.pos, piece, blk);
    BlockChanged(g, s, s', f, extent);
    var k := f.pos / BLOCK_SIZE;
    forall l | s'.dirty && 0 <= l < Blocks(g, f.chain) && BlockAt(g, f.chain, l) == s'.number
      ensures BLOCK_SIZE * l < Longer(f.size, f.pos + |piece|)
    {
      BlockAtOwned(g, |s.disk|, f.chain, l);
      if s'.number == BlockAt(g, f.chain, k) {
        BlockAtInjective(g, |s.disk|, f.chain, l, k);
      }
    }
  }

  // ---- How a write can strand the cache ---------------------------------------------------

  /** A write of `len` bytes at `pos` will overwrite, with a whole block, the very block that
      is dirty in the cache, before anything else makes the cache write it out: the position
      starts a block, entering the cluster does not look at the FAT, and the dirty block is
      one of those that lie ahead in the current cluster and are written whole. */
  ghost predicate Hits(g: Layout, s: CacheState, ch: seq<nat>, pos: nat, len: nat)
    requires g.blocksPerCluster > 0 && InRange(g, ch)
  {
    && s.dirty && pos % BLOCK_SIZE == 0 && (pos == 0 || !AtBoundary(g, pos)) && pos / BLOCK_SIZE < Blocks(g, ch)
    && (var here := BlockAt(g, ch, pos / BLOCK_SIZE);
        && here <= s.number < here + g.blocksPerCluster - pos / BLOCK_SIZE % g.blocksPerCluster
        && (s.number - here + 1) * BLOCK_SIZE <= len)
  }

  /** The next block of the same cluster is the next block of the card. */
  lemma NextBlock(g: Layout, ch: seq<nat>, k: nat)
    requires g.blocksPerCluster > 0 && InRange(g, ch) && k < Blocks(g, ch)
    requires (k + 1) % g.blocksPerCluster != 0
    ensures k + 1 < Blocks(g, ch) && BlockAt(g, ch, k + 1) == BlockAt(g, ch, k) + 1
    ensures (k + 1) % g.blocksPerCluster == k % g.blocksPerCluster + 1
  {
    var b := g.blocksPerCluster;
    DivPred(k + 1, b);
    DivBound(k, b, |ch|);
    DivBound(k + 1, b, |ch|);
    assert k == (k / b) * b + k % b && k + 1 == ((k + 1) / b) * b + (k + 1) % b;
  }

  lemma LastBlock(g: Layout, k: nat)
    requires g.blocksPerCluster > 0 && (k + 1) % g.blocksPerCluster == 0
    ensures k % g.blocksPerCluster == g.blocksPerCluster - 1
  {
    var b := g.blocksPerCluster;
    DivPred(k + 1, b);
    assert k == (k / b) * b + k % b && k + 1 == ((k + 1) / b) * b + (k + 1) % b;
    assert ((k + 1) / b) * b == (k / b) * b + b;
  }

  /** The blocks of the current cluster from block `k` on are blocks of the card. */
  lemma ClusterEnds(g: Layout, total: nat, ch: seq<nat>, k: nat)
    requires g.Fits(total) && InRange(g, ch) && k < Blocks(g, ch)
    ensures g.dataStart <= BlockAt(g, ch, k)
    ensures BlockAt(g, ch, k) + g.blocksPerCluster - k % g.blocksPerCluster <= total
  {
    ClusterBlocks(g, total, ch[ClusterIx(g, ch, k)], g.blocksPerCluster - 1);
  }

  /** A whole block was written past the cache: the cache is stranded if it was dirty with
      that block. */
  lemma HitsWhole(g: Layout, total: nat, s: CacheState, s': CacheState, ch: seq<nat>, pos: nat, len: nat)
    requires g.Fits(total) && InRange(g, ch) && pos / BLOCK_SIZE < Blocks(g, ch)
    requires pos % BLOCK_SIZE == 0 && BLOCK_SIZE <= len && (pos == 0 || !AtBoundary(g, pos))
    requires s'.dirty == s.dirty
    requires s'.number == if s.number == BlockAt(g, ch, pos / BLOCK_SIZE) then NO_BLOCK else s.number
    ensures s.Stranded() || Hits(g, s, ch, pos, len) <==>
            s'.Stranded() || Hits(g, s', ch, pos + BLOCK_SIZE, len - BLOCK_SIZE)
  {
    hide BlockAt, Layout.Fits;
    var k := pos / BLOCK_SIZE;
    assert (pos + BLOCK_SIZE) / BLOCK_SIZE == k + 1 && (pos + BLOCK_SIZE) % BLOCK_SIZE == 0;
    ClusterEnds(g, total, ch, k);
    if (k + 1) % g.blocksPerCluster == 0 {
      LastBlock(g, k);
    } else {
      NextBlock(g, ch, k);
    }
  }

  /** No hit while the dirty block is a FAT block, or none. */
  lemma HitsNot(g: Layout, total: nat, s: CacheState, ch: seq<nat>, pos: nat, len: nat)
    requires g.Fits(total) && InRange(g, ch)
    requires !s.dirty || g.IsFatBlock(s.number) || s.number == NO_BLOCK || len < BLOCK_SIZE || pos % BLOCK_SIZE != 0
    ensures !Hits(g, s, ch, pos, len)
  {
    hide BlockAt, Layout.Fits;
    if pos / BLOCK_SIZE < Blocks(g, ch) {
      ClusterEnds(g, total, ch, pos / BLOCK_SIZE);
    }
  }

  /** Nor when the dirty block is the one just left behind. */
  lemma HitsNotBehind(g: Layout, total: nat, s: CacheState, ch: seq<nat>, pos: nat, n: nat, len: nat)
    requires g.Fits(total) && InRange(g, ch) && pos / BLOCK_SIZE < Blocks(g, ch)
    requires 0 < n && pos % BLOCK_SIZE + n <= BLOCK_SIZE && s.number == BlockAt(g, ch, pos / BLOCK_SIZE)
    ensures !Hits(g, s, ch, pos + n, len)
  {
    hide BlockAt, Layout.Fits;
    var k := pos / BLOCK_SIZE;
    if (pos + n) % BLOCK_SIZE == 0 {
      assert (pos + n) / BLOCK_SIZE == k + 1;
      if (k + 1) % g.blocksPerCluster != 0 {
        NextBlock(g, ch, k);
      }
    }
  }

  /** Writing a whole block over the block that is dirty in the cache is a hit, unless the
      block starts a cluster other than the first. */
  lemma OverwriteHits(g: Layout, s: CacheState, ch: seq<nat>, pos: nat, len: nat)
    requires g.blocksPerCluster > 0 && InRange(g, ch) && pos / BLOCK_SIZE < Blocks(g, ch)
    requires s.dirty && s.number == BlockAt(g, ch, pos / BLOCK_SIZE) && pos % BLOCK_SIZE == 0 && BLOCK_SIZE <= len
    ensures Hits(g, s, ch, pos, len) <==> pos == 0 || !AtBoundary(g, pos)
  {
    hide BlockAt;
  }

  /** Writing at the end of a file never strands the cache: a dirty block of the file holds
      bytes of the file, so it lies behind. */
  lemma AppendNeverHits(g: Layout, s: CacheState, ch: seq<nat>, size: nat, len: nat)
    requires g.Fits(|s.disk|) && InRange(g, ch) && TailClean(g, s, ch, size)
    ensures !Hits(g, s, ch, size, len)
  {
    hide BlockAt, Layout.Fits;
    var k := size / BLOCK_SIZE;
    if Hits(g, s, ch, size, len) {
      var here := BlockAt(g, ch, k);
      HitsAhead(g, ch, k, s.number - here);
    }
  }

  lemma {:induction false} HitsAhead(g: Layout, ch: seq<nat>, k: nat, d: nat)
    requires g.blocksPerCluster > 0 && InRange(g, ch) && k < Blocks(g, ch)
             && d < g.blocksPerCluster - k % g.blocksPerCluster
    ensures k + d < Blocks(g, ch) && BlockAt(g, ch, k + d) == BlockAt(g, ch, k) + d
    decreases d
  {
    if d > 0 {
      if (k + 1) % g.blocksPerCluster == 0 {
        LastBlock(g, k);
      } else {
        NextBlock(g, ch, k);
        HitsAhead(g, ch, k + 1, d - 1);
      }
    }
  }

  /** What storing a piece did to the cache: a whole block went past it, and a cached copy was
      forgotten; part of a block is in it now. */
  ghost predicate StoredHere(s: CacheState, s': CacheState, b: nat, n: nat) {
    if n == BLOCK_SIZE then s'.dirty == s.dirty && s'.number == if s.number == b then NO_BLOCK else s.number
    else s'.number == b && !s.Stranded()
  }

  /** Entering the current block either looks at the FAT, and then the dirty block is a FAT
      block, or leaves cache and chain alone. */
  ghost predicate EnterQuiet(g: Layout, s: CacheState, s': CacheState, ch: seq<nat>, ch': seq<nat>, pos: nat)
    requires g.blocksPerCluster > 0
  {
    if AtBoundary(g, pos) && (pos > 0 || ch == []) then g.IsFatBlock(s'.number) && (s.Stranded() ==> s' == s)
    else s' == s && ch' == ch
  }

  lemma HitsEnter(g: Layout, total: nat, s: CacheState, s': CacheState, ch: seq<nat>, ch': seq<nat>, pos: nat, len: nat)
    requires g.Fits(total) && InRange(g, ch) && InRange(g, ch') && EnterQuiet(g, s, s', ch, ch', pos)
    ensures s.Stranded() || Hits(g, s, ch, pos, len) <==> s'.Stranded() || Hits(g, s', ch', pos, len)
  {
    hide BlockAt, Layout.Fits;
    if AtBoundary(g, pos) && (pos > 0 || ch == []) {
      HitsNot(g, total, s', ch', pos, len);
    }
  }

  /** A dirty block stays one that holds bytes of the file when the chain grows. */
  lemma TailGrows(g: Layout, total: nat, s: CacheState, s': CacheState, ch: seq<nat>, ch': seq<nat>, extent: nat)
    requires g.Fits(total) && InRange(g, ch) && InRange(g, ch') && ch <= ch' && TailClean(g, s, ch, extent)
    requires g.IsFatBlock(s'.number) || (ch' == ch && (s'.dirty ==> s.dirty && s'.number == s.number))
    ensures TailClean(g, s', ch', extent)
  {
    hide BlockAt, Layout.Fits;
    forall k | s'.dirty && 0 <= k < Blocks(g, ch') && BlockAt(g, ch', k) == s'.number
      ensures BLOCK_SIZE * k < extent
    {
      BlockAtOwned(g, total, ch', k);
    }
  }

  lemma TailEnter(g: Layout, total: nat, s: CacheState, s': CacheState, ch: seq<nat>, ch': seq<nat>, pos: nat,
                  extent: nat)
    requires g.Fits(total) && InRange(g, ch) && InRange(g, ch') && ch <= ch' && TailClean(g, s, ch, extent)
    requires EnterQuiet(g, s, s', ch, ch', pos)
    ensures TailClean(g, s', ch', extent)
  {
    hide TailClean, Layout.Fits;
    TailGrows(g, total, s, s', ch, ch', extent);
  }

  /** One turn of the write loop neither strands the cache without a hit, nor loses one that
      lies ahead. */
  lemma HitsTurn(g: Layout, total: nat, s0: CacheState, s1: CacheState, s2: CacheState,
                 c0: seq<nat>, ch: seq<nat>, pos: nat, cur: nat, len: nat, n: nat)
    requires g.Fits(total) && InRange(g, c0) && InRange(g, ch) && CursorAt(g, ch, pos, cur)
    requires EnterQuiet(g, s0, s1, c0, ch, pos)
    requires 0 < n <= len && pos % BLOCK_SIZE + n <= BLOCK_SIZE
    requires n == len || pos % BLOCK_SIZE + n == BLOCK_SIZE
    requires StoredHere(s1, s2, BlockAt(g, ch, pos / BLOCK_SIZE), n)
    ensures s0.Stranded() || Hits(g, s0, c0, pos, len) <==> s2.Stranded() || Hits(g, s2, ch, pos + n, len - n)
  {
    hide Layout.Fits, Hits, BlockAt;
    var b := BlockAt(g, ch, pos / BLOCK_SIZE);
    BlockAtOwned(g, total, ch, pos / BLOCK_SIZE);
    HitsEnter(g, total, s0, s1, c0, ch, pos, len);
    if n < BLOCK_SIZE {
      HitsNot(g, total, s1, ch, pos, len);
      HitsNotBehind(g, total, s2, ch, pos, n, len - n);
    } else if AtBoundary(g, pos) && (pos > 0 || c0 == []) {
      HitsNot(g, total, s1, ch, pos, len);
      HitsNot(g, total, s2, ch, pos + n, len - n);
    } else {
      HitsWhole(g, total, s1, s2, ch, pos, len);
    }
  }

  lemma SeekIsConfined(g: Layout, s: CacheState, s': CacheState, ch: seq<nat>, block: nat, index: nat)
    requires g.Fits(|s.disk|) && s'.disk == s.disk && FatOnly(g, s, s')
    ensures Confined(g, s, s', ch, ch, block, index)
    ensures s'.Stranded() <==> s.Stranded()
  {
    hide Layout.Fits, Fat;
    ConfinedQuiet(g, s, s', ch, block, index);
  }

  /** After a successful seek a handle that was good is good again. */
  lemma GoodAfterSeek(g: Layout, s: CacheState, s': CacheState, f: FileState, f': FileState)
    requires g.Fits(|s.disk|) && Good(g, s, f) && s'.disk == s.disk && FatOnly(g, s, s')
    requires f' == f.(pos := f'.pos, cur := f'.cur) && f'.pos <= f.size && CursorOn(g, f.chain, f'.pos, f'.cur)
    ensures Good(g, s', f')
  {
    hide Layout.Fits, TailClean, CursorOn;
    SoundMoves(g, s.disk, f, f.size, f', f.size);
    FatOnlyTail(g, |s.disk|, s, s', f.chain, f.size);
  }

  /** Storing a piece failed: only a whole block may have been spoilt. */
  lemma PieceFailed(g: Layout, s: CacheState, s': CacheState, f: FileState, n: nat)
    requires g.Fits(|s.disk|) && |s'.disk| == |s.disk| && Sound(g, s.disk, f, Longer(f.size, f.pos))
    requires f.pos / BLOCK_SIZE < Blocks(g, f.chain) && 0 < n && f.pos % BLOCK_SIZE + n <= BLOCK_SIZE
    requires forall b :: 0 <= b < |s.disk| && b != PieceBlock(g, |s.disk|, f) ==> s'.disk[b] == s.disk[b]
    requires n < BLOCK_SIZE ==> s'.disk == s.disk
    ensures
      var extent := Longer(f.size, f.pos);
      OutsideKept(FileBytes(g, s.disk, f.chain, extent), FileBytes(g, s'.disk, f.chain, extent), f.pos, n)
  {
    hide Fat, Layout.Fits, FileBytes, BlockAt, HasChain, SlotPlaced, SlotHolds, Patch, Splice, BlockBounded;
    var extent, was := Longer(f.size, f.pos), FileBytes(g, s.disk, f.chain, Longer(f.size, f.pos));
    OutsideSame(was, f.pos, n);
    if n == BLOCK_SIZE {
      var b := PieceBlock(g, |s.disk|, f);
      var blk := s'.disk[b];
      assert s'.disk == s.disk[b := blk];
      WholePatch(s.disk[b], blk);
      FileBytesPatch(g, s.disk, f.chain, extent, f.pos, blk, blk);
      FileBytesPrefix(g, s'.disk, f.chain, f.chain, Longer(extent, f.pos + n), extent);
      SpliceOutside(was, f.pos, blk);
    }
  }

  lemma WholePatch(b: Block, blk: Block)
    ensures Patch(b, 0, blk) == blk
  {
  }

  lemma SpliceOutside(was: seq<byte>, p: nat, src: seq<byte>)
    requires p <= |was|
    ensures OutsideKept(was, Splice(was, p, src)[..|was|], p, |src|)
  {
  }

  // ---- The outcome of writing --------------------------------------------------------------

  /** `src` was written to file `f` at position `at`: its bytes are spliced, the position is
      behind them, and the cache is stranded exactly if it was, or if the write hit its dirty
      block. */
  ghost predicate Written(g: Layout, s: CacheState, s': CacheState, f: FileState, f': FileState, at: nat,
                          src: seq<byte>)
    requires g.Fits(|s.disk|)
    ensures Written(g, s, s', f, f', at, src) ==> |s'.disk| == |s.disk| && Good(g, s, f) && Good(g, s', f')
  {
    && |s'.disk| == |s.disk| && Good(g, s, f) && Good(g, s', f') && at <= f.size
    && f'.pos == at + |src| && f'.size == Longer(f.size, f'.pos)
    && FileBytes(g, s'.disk, f'.chain, f'.size) == Splice(FileBytes(g, s.disk, f.chain, f.size), at, src)
    && (s'.Stranded() <==> s.Stranded() || Hits(g, s, f.chain, at, |src|))
  }
}
