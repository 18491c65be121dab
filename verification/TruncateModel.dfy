/** What truncating does, on values: how many clusters a length needs, and what cutting a
    chain there means for the file (Modules/SD/SdFile.cpp:1157-1207). */
module TruncateModel {
  import opened Bytes
  import opened Layouts
  import opened Chains
  import opened Cache
  import opened Volume
  import opened FileModel
  import opened WriteModel

  /** The clusters that `size` bytes need. */
  function ClustersFor(g: Layout, size: nat): nat
    requires g.blocksPerCluster > 0
  {
    if size == 0 then 0 else ClusterBefore(g, size) + 1
  }

  lemma CountIsClusters(g: Layout, size: nat)
    requires g.blocksPerCluster > 0 && size > 0
    ensures ClustersFor(g, size) == (size - 1) / BLOCK_SIZE / g.blocksPerCluster + 1
  {
  }

  /** It is the least number of clusters with room for that many bytes. */
  lemma ClustersForIsLeast(g: Layout, size: nat, n: nat)
    requires g.blocksPerCluster > 0
    ensures size <= ClusterBytes(g, n) <==> ClustersFor(g, size) <= n
  {
    if size > 0 {
      DivBound((size - 1) / BLOCK_SIZE, g.blocksPerCluster, n);
    }
  }

  lemma ClustersForNone(g: Layout)
    requires g.blocksPerCluster > 0
    ensures ClustersFor(g, 0) == 0
  {
  }

  lemma RoomIsClusters(g: Layout, ch: seq<nat>, size: nat)
    requires g.blocksPerCluster > 0
    ensures Room(g, ch, size) <==> ClustersFor(g, size) <= |ch|
  {
    ClustersForIsLeast(g, size, |ch|);
  }

  /** With the cursor at the end of the part that is kept, the current cluster is the last
      one kept. */
  lemma CursorIsLast(g: Layout, ch: seq<nat>, length: nat, cur: nat)
    requires g.blocksPerCluster > 0 && CursorOn(g, ch, length, cur) && length > 0
    ensures 0 < ClustersFor(g, length) <= |ch| && cur == ch[ClustersFor(g, length) - 1]
  {
    assert ClusterIx(g, ch, (length - 1) / BLOCK_SIZE) == ClusterBefore(g, length);
  }

  /** Clearing clusters of a chain, and ending it somewhere, is nobody else's business. */
  lemma ClearedConfined(fat: seq<nat>, fat': seq<nat>, ch: seq<nat>, ch': seq<nat>)
    requires |fat'| == |fat| && ch' <= ch
    requires forall c :: 2 <= c < |fat| ==> fat'[c] == fat[c] || (c in ch && (fat'[c] == 0 || fat'[c] >= |fat|))
    ensures FatConfined(fat, fat', ch, ch')
  {
  }

  lemma FreedPartOf(fat: seq<nat>, eoc: nat, ch: seq<nat>, now: seq<nat>, k: nat, done: bool)
    requires IsChain(fat, eoc, ch) && FreedPart(fat, eoc, ch[0], now, k, done)
    ensures k <= |ch| && now == ZeroAll(fat, ch[..k]) && (done <==> k == |ch|)
  {
  }

  /** Freeing the clusters of a file from number `from` on got `k` clusters far. */
  lemma TailFreed(fat: seq<nat>, eoc: nat, ch: seq<nat>, from: nat, now: seq<nat>, k: nat, done: bool)
    requires |fat| <= eoc && IsChain(fat, eoc, ch) && from < |ch|
    requires FreedPart(fat, eoc, ch[from], now, k, done)
    ensures FatConfined(fat, now, ch, ch)
    ensures done ==> now == ZeroAll(fat, ch[from..])
    ensures CutStopped(fat, now, ch, from)
  {
    ChainTail(fat, eoc, ch, from);
    FreedPartOf(fat, eoc, ch[from..], now, k, done);
    assert ch[from..][..k] == ch[from..from + k];
    assert PartFreed(fat, now, ch, from, k);
    assert done ==> ch[from..][..k] == ch[from..];
    ClearedConfined(fat, now, ch, ch);
  }

  lemma CutConfined(fat: seq<nat>, eoc: nat, ch: seq<nat>, keep: nat, mark: nat)
    requires |fat| <= eoc <= mark && IsChain(fat, eoc, ch) && keep <= |ch|
    ensures FatConfined(fat, Cut(fat, ch, keep, mark), ch, ch[..keep])
    ensures FormKept(fat, Cut(fat, ch, keep, mark), eoc, ch, ch[..keep])
  {
    ClearedConfined(fat, Cut(fat, ch, keep, mark), ch, ch[..keep]);
    if WellFormed(fat, eoc) && Rooted(fat, ch) {
      CutWellFormed(fat, eoc, ch, keep, mark);
    }
  }

  /** Nothing to cut off: the chain ends where it should. */
  lemma CutAtEnd(fat: seq<nat>, eoc: nat, ch: seq<nat>, keep: nat, mark: nat)
    requires |fat| <= eoc && IsChain(fat, eoc, ch) && 0 < keep <= |ch|
    ensures fat[ch[keep - 1]] >= eoc <==> keep == |ch|
    ensures keep < |ch| ==> fat[ch[keep - 1]] == ch[keep]
    ensures keep == |ch| ==> Cut(fat, ch, keep, mark) == fat
  {
    assert keep < |ch| ==> fat[ch[keep - 1]] == ch[keep];
  }

  lemma CutIsDone(fat: seq<nat>, eoc: nat, ch: seq<nat>, keep: nat, mark: nat)
    requires IsChain(fat, eoc, ch) && 0 < keep < |ch|
    ensures ZeroAll(fat, ch[keep..])[ch[keep - 1] := mark] == Cut(fat, ch, keep, mark)
  {
  }

  lemma ChainInRange(g: Layout, fat: seq<nat>, eoc: nat, ch: seq<nat>)
    requires IsChain(fat, eoc, ch) && |fat| == g.Clusters()
    ensures InRange(g, ch) && ch != []
  {
  }

  /** FAT accesses within a file's own chain are isolated. */
  lemma FatOnlyIsolated(g: Layout, s: CacheState, s': CacheState, ch: seq<nat>, ch': seq<nat>, block: nat, index: nat)
    requires g.Fits(|s.disk|) && FatOnly(g, s, s') && FatConfined(Fat(g, s.disk), Fat(g, s'.disk), ch, ch')
    ensures Isolated(g, s, s', ch, ch', block, index)
  {
    hide Fat, Layout.Fits, FatConfined;
  }

  /** The file after its chain was cut. */
  function Shortened(f: FileState, keep: nat, length: nat, cur: nat): FileState
    requires keep <= |f.chain|
  {
    f.(first := if keep == 0 then 0 else f.first, chain := f.chain[..keep], size := length, pos := length,
       cur := cur, dirDirty := true)
  }

  /** Cutting a chain shortens the file to its first bytes. */
  lemma CutIsSound(g: Layout, s: CacheState, s': CacheState, f: FileState, length: nat, cur: nat, extent: nat)
    requires g.Fits(|s.disk|) && Sound(g, s.disk, f, extent) && FatOnly(g, s, s') && f.first != 0
    requires length <= f.size && ClustersFor(g, length) <= |f.chain|
    requires Fat(g, s'.disk) == Cut(Fat(g, s.disk), f.chain, ClustersFor(g, length), EndMark(g))
    ensures Sound(g, s'.disk, Shortened(f, ClustersFor(g, length), length, cur), length)
    ensures FileBytes(g, s'.disk, f.chain[..ClustersFor(g, length)], length) ==
              FileBytes(g, s.disk, f.chain, f.size)[..length]
    ensures Confined(g, s, s', f.chain, f.chain[..ClustersFor(g, length)], f.block, f.index)
  {
    hide Fat, Layout.Fits, FatConfined, FormKept, FileBytes, Entry, ClustersFor, Cut, IsChain, FatOnly;
    var keep := ClustersFor(g, length);
    var ch' := f.chain[..keep];
    SoundFacts(g, s.disk, f, extent);
    CutConfined(Fat(g, s.disk), g.EocMin(), f.chain, keep, EndMark(g));
    CutChain(Fat(g, s.disk), g.EocMin(), f.chain, keep, EndMark(g));
    FatOnlyIsolated(g, s, s', f.chain, ch', f.block, f.index);
    RoomIsClusters(g, ch', length);
    if g.dataStart <= f.block {
      OtherClusterKept(g, s.disk, s'.disk, f.chain, ch', f.block);
    }
    CutBytes(g, s, s', f.chain, ch', f.size, length);
    if keep > 0 {
      IsChainStart(Fat(g, s.disk), g.EocMin(), f.chain);
    }
  }

  lemma IsChainStart(fat: seq<nat>, eoc: nat, ch: seq<nat>)
    requires IsChain(fat, eoc, ch)
    ensures ch != []
  {
  }

  lemma CutBytes(g: Layout, s: CacheState, s': CacheState, ch: seq<nat>, ch': seq<nat>, size: nat, length: nat)
    requires g.Fits(|s.disk|) && FatOnly(g, s, s') && InRange(g, ch) && ch' <= ch && Room(g, ch, size)
    requires length <= size && Room(g, ch', length)
    ensures InRange(g, ch') && FileBytes(g, s'.disk, ch', length) == FileBytes(g, s.disk, ch, size)[..length]
  {
    hide Fat, FileBytes;
    FileBytesPrefix(g, s.disk, ch, ch', size, length);
    FileBytesOther(g, s.disk, s'.disk, ch', length);
  }

  /** A file that was cut is good: the cursor is at its end, and the dirty block, if any, is
      a FAT block. */
  lemma ShortenedIsGood(g: Layout, s: CacheState, f: FileState)
    requires g.Fits(|s.disk|) && Sound(g, s.disk, f, f.size) && f.pos <= f.size
    requires g.IsFatBlock(s.number) && CursorOn(g, f.chain, f.pos, f.cur)
    ensures Good(g, s, f)
  {
    hide Layout.Fits, CursorOn, BlockAt;
    forall k | 0 <= k < Blocks(g, f.chain)
      ensures BlockAt(g, f.chain, k) != s.number
    {
      BlockAtOwned(g, |s.disk|, f.chain, k);
    }
  }

  /** The cursor stays where it is when clusters behind it are cut off. */
  lemma CursorCut(g: Layout, ch: seq<nat>, length: nat, cur: nat)
    requires g.blocksPerCluster > 0 && CursorOn(g, ch, length, cur) && ClustersFor(g, length) <= |ch|
    ensures CursorOn(g, ch[..ClustersFor(g, length)], length, cur)
  {
    if length > 0 {
      RoomIsClusters(g, ch[..ClustersFor(g, length)], length);
      var k := (length - 1) / BLOCK_SIZE;
      assert k < Blocks(g, ch[..ClustersFor(g, length)]);
      assert ClusterIx(g, ch[..ClustersFor(g, length)], k) == ClusterIx(g, ch, k);
    }
  }

  // ---- The outcome of truncating -----------------------------------------------------------

  /** A file with chain `ch` and `size` bytes was cut to what `f` is now: the leading clusters
      that its bytes need are left of the chain, all others are free, and the leading bytes
      are what they were. */
  ghost predicate Truncated(g: Layout, s: CacheState, s': CacheState, ch: seq<nat>, size: nat, f: FileState)
    requires g.Fits(|s.disk|)
    ensures Truncated(g, s, s', ch, size, f) ==>
              |s'.disk| == |s.disk| && InRange(g, ch) && Room(g, ch, size) && InRange(g, f.chain)
    ensures Truncated(g, s, s', ch, size, f) ==>
              Confined(g, s, s', ch, f.chain, f.block, f.index) && Good(g, s', f)
  {
    && InRange(g, ch) && Room(g, ch, size) && |s'.disk| == |s.disk| && Good(g, s', f)
    && f.size <= size && ClustersFor(g, f.size) <= |ch| && f.chain == ch[..ClustersFor(g, f.size)]
    && FileBytes(g, s'.disk, f.chain, f.size) == FileBytes(g, s.disk, ch, size)[..f.size]
    && Fat(g, s'.disk) == Cut(Fat(g, s.disk), ch, ClustersFor(g, f.size), EndMark(g))
    && Confined(g, s, s', ch, f.chain, f.block, f.index)
  }

  /** What the table is after a truncation that failed: the cut stopped somewhere, or it was made and
      could not be written out. */
  ghost predicate CutFailed(g: Layout, d: Disk, d': Disk, ch: seq<nat>, keep: nat) {
    && g.Fits(|d|) && |d'| == |d| && InRange(g, ch) && keep <= |ch|
    && (CutStopped(Fat(g, d), Fat(g, d'), ch, keep) || Fat(g, d') == Cut(Fat(g, d), ch, keep, EndMark(g)))
  }

  lemma CutHalted(g: Layout, d: Disk, d': Disk, ch: seq<nat>, keep: nat)
    requires g.Fits(|d|) && |d'| == |d| && InRange(g, ch) && keep <= |ch|
    requires CutStopped(Fat(g, d), Fat(g, d'), ch, keep)
    ensures CutFailed(g, d, d', ch, keep)
  {
    hide Fat, Layout.Fits, CutStopped;
  }

  lemma CutUntouched(g: Layout, d: Disk, f: FileState, extent: nat, length: nat)
    requires g.Fits(|d|) && Sound(g, d, f, extent) && length <= f.size
    ensures InRange(g, f.chain) && ClustersFor(g, length) <= |f.chain|
    ensures CutFailed(g, d, d, f.chain, ClustersFor(g, length))
  {
    hide Fat, Layout.Fits, CutStopped, ClustersFor, SlotPlaced, SlotHolds;
    RoomIsClusters(g, f.chain, length);
    NothingFreed(Fat(g, d), f.chain, ClustersFor(g, length));
  }

  lemma CutComplete(g: Layout, s: CacheState, s': CacheState, f: FileState, f': FileState, length: nat)
    requires g.Fits(|s.disk|) && Truncated(g, s, s', f.chain, f.size, f') && f'.size == length
    ensures CutFailed(g, s.disk, s'.disk, f.chain, ClustersFor(g, length))
  {
    hide Fat, Layout.Fits, CutStopped, ClustersFor, FileBytes, Good, Confined;
  }

  lemma CutLater(g: Layout, d: Disk, d1: Disk, d2: Disk, ch: seq<nat>, keep: nat)
    requires g.Fits(|d|) && |d1| == |d| && |d2| == |d| && Fat(g, d2) == Fat(g, d1) && CutFailed(g, d, d1, ch, keep)
    ensures CutFailed(g, d, d2, ch, keep)
  {
    hide Fat, Layout.Fits, CutStopped;
  }

  /** When the table is well formed after that. */
  lemma CutFailedForm(g: Layout, d: Disk, d': Disk, ch: seq<nat>, keep: nat)
    requires CutFailed(g, d, d', ch, keep) && WellFormed(Fat(g, d), g.EocMin()) && Rooted(Fat(g, d), ch)
    requires IsChain(Fat(g, d), g.EocMin(), ch)
    ensures WellFormed(Fat(g, d'), g.EocMin()) <==>
            keep == 0 || Fat(g, d') == Fat(g, d) || Fat(g, d') == Cut(Fat(g, d), ch, keep, EndMark(g))
  {
    hide Fat, Layout.Fits, WellFormed, Cut, EndMark;
    var fat, fat', eoc := Fat(g, d), Fat(g, d'), g.EocMin();
    if fat' == Cut(fat, ch, keep, EndMark(g)) {
      CutWellFormed(fat, eoc, ch, keep, EndMark(g));
    } else if fat' != fat {
      var k: nat :| PartFreed(fat, fat', ch, keep, k);
      PartFreedForm(fat, fat', eoc, ch, keep, k);
      assert k != 0;
    }
  }

  /** Truncating gives back exactly the clusters that are no longer needed. */
  lemma TruncatedConserves(g: Layout, s: CacheState, s': CacheState, ch: seq<nat>, size: nat, f: FileState)
    requires g.Fits(|s.disk|) && Truncated(g, s, s', ch, size, f) && IsChain(Fat(g, s.disk), g.EocMin(), ch)
    ensures |Free(Fat(g, s'.disk))| == |Free(Fat(g, s.disk))| + |ch| - |f.chain|
    ensures |f.chain| == ClustersFor(g, f.size)
  {
    hide Fat, Layout.Fits, Good, FileBytes, Confined, ClustersFor;
    CutChain(Fat(g, s.disk), g.EocMin(), ch, ClustersFor(g, f.size), EndMark(g));
  }

  /** Steps before and after the cut that change neither table nor bytes. */
  lemma TruncatedStays(g: Layout, s: CacheState, s1: CacheState, s2: CacheState, s3: CacheState,
                       ch: seq<nat>, size: nat, f2: FileState, f3: FileState)
    requires g.Fits(|s.disk|) && s1.disk == s.disk && Truncated(g, s1, s2, ch, size, f2) && |s3.disk| == |s.disk|
    requires f3 == f2.(pos := f3.pos, cur := f3.cur, dirDirty := f3.dirDirty) && Good(g, s3, f3)
    requires Fat(g, s3.disk) == Fat(g, s2.disk)
    requires FileBytes(g, s3.disk, f2.chain, f2.size) == FileBytes(g, s2.disk, f2.chain, f2.size)
    requires InRange(g, ch) && Confined(g, s, s1, ch, ch, f2.block, f2.index)
    requires Confined(g, s2, s3, f2.chain, f2.chain, f2.block, f2.index)
    ensures Truncated(g, s, s3, ch, size, f3)
  {
    hide Fat, Layout.Fits, Good, FileBytes, Confined, ClustersFor, Cut;
    ConfinedTrans(g, s, s1, s2, ch, ch, f2.chain, f2.block, f2.index);
    ConfinedTrans(g, s, s2, s3, ch, f2.chain, f2.chain, f2.block, f2.index);
  }

  /** The cut itself. */
  lemma CutTruncates(g: Layout, s: CacheState, s': CacheState, f: FileState, length: nat, cur: nat)
    requires g.Fits(|s.disk|) && Sound(g, s.disk, f, f.size) && FatOnly(g, s, s') && f.first != 0 && length <= f.size
    requires ClustersFor(g, length) <= |f.chain| && CursorOn(g, f.chain, length, cur) && g.IsFatBlock(s'.number)
    requires Fat(g, s'.disk) == Cut(Fat(g, s.disk), f.chain, ClustersFor(g, length), EndMark(g))
    ensures Truncated(g, s, s', f.chain, f.size, Shortened(f, ClustersFor(g, length), length, cur))
  {
    hide Fat, Layout.Fits, FileBytes, Confined, ClustersFor, Cut, CursorOn, FatOnly, TailClean, Sound;
    CutIsSound(g, s, s', f, length, cur, f.size);
    CursorCut(g, f.chain, length, cur);
    ShortenedIsGood(g, s', Shortened(f, ClustersFor(g, length), length, cur));
  }

  // ---- Giving a file all its clusters at once ------------------------------------------------

  /** A run of free clusters was allocated for a file that had none. */
  lemma RunAllocated(g: Layout, s: CacheState, s': CacheState, f: FileState, f': FileState, b: nat, size: nat)
    requires g.Fits(|s.disk|) && Sound(g, s.disk, f, 0) && f.chain == [] && FatOnly(g, s, s') && 0 < size < TWO_32
    requires AllFree(Fat(g, s.disk), b, ClustersFor(g, size))
    requires Fat(g, s'.disk) == Allocated(Fat(g, s.disk), 0, b, ClustersFor(g, size), EndMark(g))
    requires f' == f.(first := b, chain := Run(b, ClustersFor(g, size)), size := size, dirDirty := true)
    ensures Sound(g, s'.disk, f', size) && Confined(g, s, s', [], f'.chain, f.block, f.index)
  {
    hide Fat, Layout.Fits, FileBytes, Entry, FatConfined, FormKept, FatOnly, ClustersFor, EndMark, LinkRun;
    var n := ClustersFor(g, size);
    var grown := f'.(size := 0);
    ClustersForIsLeast(g, size, 0);
    RunFacts(Fat(g, s.disk), g.EocMin(), b, n, EndMark(g));
    SoundGrows(g, s, s', f, grown, 0);
    RoomIsClusters(g, f'.chain, size);
  }

  /** A file without bytes and clusters stays one when an allocation fails. */
  lemma NotAllocated(g: Layout, s: CacheState, s': CacheState, f: FileState)
    requires g.Fits(|s.disk|) && Good(g, s, f) && f.chain == [] && FatOnly(g, s, s')
    requires OrphanRun(Fat(g, s.disk), Fat(g, s'.disk), EndMark(g))
    ensures Good(g, s', f) && Confined(g, s, s', [], [], f.block, f.index)
  {
    hide Fat, Layout.Fits, FileBytes, Entry, FatConfined, FormKept, EndMark, OrphanRun;
    GrowFails(Fat(g, s.disk), Fat(g, s'.disk), g.EocMin(), EndMark(g), f.first, []);
    SoundGrows(g, s, s', f, f, f.size);
  }

  lemma NoChainNoFirst(g: Layout, s: CacheState, f: FileState)
    requires g.Fits(|s.disk|) && Good(g, s, f) && f.chain == []
    ensures f.first == 0 && f.size == 0 && f.pos == 0 && f.cur == 0 && Sound(g, s.disk, f, 0)
  {
    hide Fat, Layout.Fits;
  }

  /** At its start a file is good as soon as it is sound and the dirty block is a FAT block. */
  lemma StartIsGood(g: Layout, s: CacheState, f: FileState)
    requires g.Fits(|s.disk|) && Sound(g, s.disk, f, f.size) && f.pos == 0 && f.cur == 0 && g.IsFatBlock(s.number)
    ensures Good(g, s, f)
  {
    hide Fat, Layout.Fits, Sound;
    ShortenedIsGood(g, s, f);
  }

  lemma RunFacts(fat: seq<nat>, eoc: nat, b: nat, n: nat, mark: nat)
    requires |fat| <= eoc <= mark && AllFree(fat, b, n) && n > 0
    ensures
      var fat' := Allocated(fat, 0, b, n, mark);
      && HasChain(fat', eoc, b, Run(b, n)) && Unique(Run(b, n)) && FatConfined(fat, fat', [], Run(b, n))
      && FormKept(fat, fat', eoc, [], Run(b, n)) && forall i :: 0 <= i < n ==> 2 <= Run(b, n)[i] < |fat|
  {
    AllocatedExtends(fat, eoc, [], b, n, mark);
    assert [] + Run(b, n) == Run(b, n);
    RunLinksAreNew(fat, b, n, mark, []);
    if WellFormed(fat, eoc) {
      LinkRunWellFormed(fat, eoc, b, n, mark);
      LinkRunIsChain(fat, eoc, b, n, mark);
    }
  }

  /** A file whose chain is a run of the clusters it needs is contiguous, and the only run that
      can be found from its first cluster is all of it: `ContiguousRange` does not refuse it,
      and returns exactly the blocks that its size needs. */
  lemma ContiguousIsWhole(g: Layout, d: Disk, f: FileState)
    requires g.Fits(|d|) && Sound(g, d, f, f.size) && f.size > 0 && f.chain == Run(f.first, ClustersFor(g, f.size))
    ensures IsChain(Fat(g, d), g.EocMin(), Run(f.first, ClustersFor(g, f.size)))
    ensures forall n: nat :: IsChain(Fat(g, d), g.EocMin(), Run(f.first, n)) ==> n == ClustersFor(g, f.size)
  {
    hide Fat, Layout.Fits, SlotPlaced, SlotHolds, IsChain, ClustersFor;
    forall n: nat | IsChain(Fat(g, d), g.EocMin(), Run(f.first, n))
      ensures n == ClustersFor(g, f.size)
    {
      RangeIsWhole(g, Fat(g, d), f.first, ClustersFor(g, f.size), n);
    }
  }

  /** A cluster starts one chain only. */
  lemma RangeIsWhole(g: Layout, fat: seq<nat>, b: nat, n: nat, m: nat)
    requires |fat| <= g.EocMin() && IsChain(fat, g.EocMin(), Run(b, n)) && IsChain(fat, g.EocMin(), Run(b, m))
    ensures m == n
  {
    ChainUnique(fat, g.EocMin(), Run(b, n), Run(b, m));
  }
}
