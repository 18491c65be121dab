/** A small volume, to show that the invariants of this project can be met together: a FAT16
    volume with two FATs and two open files, one of them with a cluster and some bytes that
    are not on the card yet. And inputs for which the source does not do what one would expect. */
module Example {
  import opened Bytes
  import opened Layouts
  import opened Chains
  import opened SdCard
  import opened Cache
  import opened Volume
  import opened FileModel
  import opened WriteModel
  import opened Slots
  import opened Entries
  import opened DirModel
  import opened DirInvariant
  import opened Geometry
  import opened File
  import opened Scripts

  /** 4085 clusters of one block: the smallest volume that is FAT16. */
  function SmallLayout(): Layout {
    Layout(Fat16, 2, 1, 16, 33, 512, 65, 1, 0, 4085)
  }

  function SmallTotal(): nat {
    65 + 4085
  }

  function Blank(): (d: Disk)
    ensures |d| == SmallTotal() && forall b :: 0 <= b < |d| ==> d[b] == ZeroBlock()
  {
    seq(SmallTotal(), _ => ZeroBlock())
  }

  /** The blank volume with cluster 2 in use, as a chain of its own. */
  function OneCluster(): (d: Disk)
    ensures SmallLayout().Fits(|d|) && forall b :: 33 <= b < 65 ==> d[b] == ZeroBlock()
  {
    PutEntry(SmallLayout(), Blank(), 2, EOC)
  }

  function Empty(): FileState {
    FileState(false, 0, [], 0, 0, 0, 33, 0, false)
  }

  function Short(): FileState {
    FileState(false, 2, [2], 100, 100, 2, 33, 1, true)
  }

  /** The table of that volume: all free, but for cluster 2. */
  lemma SmallTable()
    ensures
      var fat := Fat(SmallLayout(), OneCluster());
      |fat| == 4087 && fat[2] >= SmallLayout().EocMin() && forall c :: 0 <= c < 4087 && c != 2 ==> fat[c] == 0
  {
    var g := SmallLayout();
    FatOfPut(g, Blank(), 2, EOC);
    assert Stored(g, EOC) == 0xFFFF;
    forall c | 0 <= c < 4087
      ensures Fat(g, Blank())[c] == 0
    {
      EntryFits(g, SmallTotal(), c);
    }
  }

  /** It is well formed, and cluster 2 is a chain that nothing links to. */
  lemma SmallChain(fat: seq<nat>, eoc: nat)
    requires |fat| == 4087 < eoc <= fat[2] && forall c :: 0 <= c < 4087 && c != 2 ==> fat[c] == 0
    ensures WellFormed(fat, eoc) && IsChain(fat, eoc, [2]) && Rooted(fat, [2])
  {
    assert IsChain(fat, eoc, [2]) && [2][0] == 2;
  }

  /** Both files are good, they share nothing, and the table is well formed: the invariant of a
      program with these files open. */
  lemma TwoFiles()
    ensures
      var g, d := SmallLayout(), OneCluster();
      g.Fits(|d|) && Mirrored(g, d) && Together(g, CacheState(d, false, NO_BLOCK), [Empty(), Short()])
  {
    hide Fat, FileBytes, WellFormed, IsChain, Rooted, Mirrored, Entry;
    var g, d := SmallLayout(), OneCluster();
    SmallTable();
    SmallChain(Fat(g, d), g.EocMin());
    PutKeepsMirror(g, Blank(), 2, EOC);
    assert Mirrored(g, Blank()) by {
      BlankIsMirrored();
    }
    assert Rooted(Fat(g, d), []) by {
      NoChainIsRooted(Fat(g, d));
    }
  }

  lemma NoChainIsRooted(fat: seq<nat>)
    ensures Rooted(fat, [])
  {
  }

  lemma BlankIsMirrored()
    ensures Mirrored(SmallLayout(), Blank())
  {
  }

  /** The root directory of that volume has no live entry. */
  lemma RootIsFree(k: nat)
    requires k < 512
    ensures
      var g, d := SmallLayout(), OneCluster();
      DirGood(g, d, Root16Dir(g)) && Mark(DirBytes(g, d, Root16Dir(g)), k) == NAME_FREE
  {
    hide OneCluster, DirBytes;
    var g, d := SmallLayout(), OneCluster();
    Root16Fits(g, d);
    DirByte(g, d, Root16Dir(g), ENTRY_SIZE * k);
  }

  /** It is in order, truthful and orderly: what opening by name asks for. */
  lemma EmptyRoot()
    ensures
      var g, d := SmallLayout(), OneCluster();
      && DirGood(g, d, Root16Dir(g)) && FreeTail(DirBytes(g, d, Root16Dir(g)))
      && Truthful(g, d, Root16Dir(g)) && Orderly(g, d, Root16Dir(g))
  {
    hide Fat, OneCluster, DirBytes, WellFormed, IsChain, BlockOf;
    var g, d := SmallLayout(), OneCluster();
    Root16Fits(g, d);
    SmallTable();
    SmallChain(Fat(g, d), g.EocMin());
    forall k | 0 <= k < 512
      ensures Mark(DirBytes(g, d, Root16Dir(g)), k) == NAME_FREE
    {
      RootIsFree(k);
    }
  }

  // ---- A subdirectory -------------------------------------------------------------------------

  function EntryOf(name: seq<byte>, attr: byte, first: byte, size: byte): (e: seq<byte>)
    requires |name| == NAME_SIZE
    ensures |e| == ENTRY_SIZE
  {
    name + [attr, 0, 0, 0, 0, 0, 0, 0, 0, 0, 0, 0, 0, 0, 0, first, 0, size, 0, 0, 0]
  }

  /** Part of a long name: its number, and eleven characters of two bytes with other things
      between them, so that what would be its first cluster is 0xFFFF0000. */
  function LongName(): (e: seq<byte>)
    ensures |e| == ENTRY_SIZE
  {
    [0x41, 0x61, 0, 0x2E, 0, 0x74, 0, 0x78, 0, 0x74, 0, 0x0F, 0, 0x7A, 0, 0,
     0xFF, 0xFF, 0xFF, 0xFF, 0xFF, 0xFF, 0xFF, 0xFF, 0xFF, 0xFF, 0, 0, 0xFF, 0xFF, 0xFF, 0xFF]
  }

  function Padded(s: seq<byte>): (name: seq<byte>)
    requires |s| <= NAME_SIZE
    ensures |name| == NAME_SIZE && s <= name
  {
    s + seq(NAME_SIZE - |s|, _ => 0x20)
  }

  /** The block of a subdirectory as `makeDir` leaves it, with a file: ".", which is the
      subdirectory itself in cluster 2, "..", which is the root, and in cluster 3 a file of 100
      bytes that has a long name. */
  function SubBlock(): (b: Block) {
    EntryOf(Padded([0x2E]), 0x10, 2, 0) + EntryOf(Padded([0x2E, 0x2E]), 0x10, 0, 0) + LongName()
    + EntryOf(Padded([0x41]), 0x20, 3, 100) + Zeros(BLOCK_SIZE - 4 * ENTRY_SIZE)
  }

  lemma SubMarks()
    ensures
      var b := SubBlock();
      && Mark(b, 0) == NAME_DOT && Mark(b, 1) == NAME_DOT && Mark(b, 2) == 0x41 && Mark(b, 3) == 0x41
      && EntryByte(b, 2, OFF_ATTR) == 0x0F && EntryByte(b, 3, OFF_ATTR) == 0x20
  {
  }

  lemma SubFirsts()
    ensures EntryFirst(SubBlock(), 3) == 3 && EntrySize(SubBlock(), 3) == 100
    ensures EntryFirst(SubBlock(), 0) == 2 && EntryFirst(SubBlock(), 2) == 0xFFFF_0000
  {
    var b := SubBlock();
    assert b[116] == 0 && b[117] == 0 && b[122] == 3 && b[123] == 0;
    assert b[124] == 100 && b[125] == 0 && b[126] == 0 && b[127] == 0;
    assert b[20] == 0 && b[21] == 0 && b[26] == 2 && b[27] == 0;
    assert b[84] == 0xFF && b[85] == 0xFF && b[90] == 0 && b[91] == 0;
  }

  lemma SubFree(k: nat)
    requires 4 <= k < 16
    ensures IsFree(SubBlock(), k)
  {
    hide EntryOf, LongName, Padded;
    assert SubBlock()[32 * k] == Zeros(384)[32 * k - 128];
  }

  lemma SubEntries()
    ensures
      var b := SubBlock();
      && Mark(b, 0) == NAME_DOT && Mark(b, 1) == NAME_DOT && EntryByte(b, 2, OFF_ATTR) == 0x0F
      && Mark(b, 3) == 0x41 && EntryByte(b, 3, OFF_ATTR) == 0x20
      && (forall k :: 0 <= k < 4 ==> IsLive(b, k)) && forall k :: 4 <= k < 16 ==> IsFree(b, k)
    ensures EntryFirst(SubBlock(), 3) == 3 && EntrySize(SubBlock(), 3) == 100
    ensures EntryFirst(SubBlock(), 0) == 2 && EntryFirst(SubBlock(), 2) == 0xFFFF_0000
  {
    hide SubBlock, EntryFirst, EntrySize, Mark, EntryByte;
    SubMarks();
    SubFirsts();
    forall k | 4 <= k < 16
      ensures IsFree(SubBlock(), k)
    {
      SubFree(k);
    }
  }

  function SubDisk(): (d: Disk)
    ensures SmallLayout().Fits(|d|) && d[65] == SubBlock()
  {
    PutEntry(SmallLayout(), PutEntry(SmallLayout(), Blank(), 2, EOC), 3, EOC)[65 := SubBlock()]
  }

  function SubDir(): FileState {
    FileState(false, 2, [2], BLOCK_SIZE, 0, 0, 33, 0, false)
  }

  lemma SubTable()
    ensures
      var fat := Fat(SmallLayout(), SubDisk());
      && |fat| == 4087 && fat[2] >= SmallLayout().EocMin() && fat[3] >= SmallLayout().EocMin()
      && forall c :: 0 <= c < 4087 && c != 2 && c != 3 ==> fat[c] == 0
  {
    hide Fat, PutEntry;
    var g := SmallLayout();
    var d1 := PutEntry(g, Blank(), 2, EOC);
    var d2 := PutEntry(g, d1, 3, EOC);
    FatOfPut(g, Blank(), 2, EOC);
    FatOfPut(g, d1, 3, EOC);
    DataKeepsFat(g, d2, SubDisk(), 65);
    assert Stored(g, EOC) == 0xFFFF;
    BlankTable();
  }

  lemma BlankTable()
    ensures |Fat(SmallLayout(), Blank())| == 4087 && forall c :: 0 <= c < 4087 ==> Fat(SmallLayout(), Blank())[c] == 0
  {
    forall c | 0 <= c < 4087
      ensures Fat(SmallLayout(), Blank())[c] == 0
    {
      EntryFits(SmallLayout(), SmallTotal(), c);
    }
  }

  lemma TwoChains(fat: seq<nat>, eoc: nat)
    requires |fat| == 4087 < eoc <= fat[2] && eoc <= fat[3]
    requires forall c :: 0 <= c < 4087 && c != 2 && c != 3 ==> fat[c] == 0
    ensures WellFormed(fat, eoc) && IsChain(fat, eoc, [2]) && IsChain(fat, eoc, [3])
    ensures Rooted(fat, [2]) && StartsFile(fat, [2], 3)
  {
    assert IsChain(fat, eoc, [2]) && [2][0] == 2;
    assert IsChain(fat, eoc, [3]) && [3][0] == 3;
  }

  lemma SubBytes()
    ensures
      var g, d := SmallLayout(), SubDisk();
      DirGood(g, d, SubDir()) && DirBytes(g, d, SubDir()) == SubBlock()
      && BlockOf(g, SubDir(), 3) == 65
  {
    hide Fat, SubBlock, SubDisk, WellFormed, Rooted, DirBytes;
    var g, d := SmallLayout(), SubDisk();
    SubTable();
    TwoChains(Fat(g, d), g.EocMin());
    CursorFirst(g, [2]);
    forall p | 0 <= p < BLOCK_SIZE
      ensures DirBytes(g, d, SubDir())[p] == SubBlock()[p]
    {
      DirByte(g, d, SubDir(), p);
    }
    assert DirBytes(g, d, SubDir()) == SubBlock();
  }

  /** Although "." is in the directory's own cluster, ".." in none, and the long name in nothing
      at all, the subdirectory is what opening by name asks for, and orderly. */
  lemma Subdirectory()
    ensures
      var g, d, dir := SmallLayout(), SubDisk(), SubDir();
      && DirGood(g, d, dir) && FreeTail(DirBytes(g, d, dir)) && Truthful(g, d, dir) && Orderly(g, d, dir)
      && (forall k :: 0 <= k < 4 ==> IsLive(DirBytes(g, d, dir), k)) && IsMember(DirBytes(g, d, dir), 3)
  {
    hide Fat, SubBlock, SubDisk, WellFormed, DirBytes, IsChain, Rooted, EntryFirst, EntrySize, DirGood, BlockOf,
      StartsFile;
    var g, d, dir := SmallLayout(), SubDisk(), SubDir();
    SubBytes();
    SubEntries();
    SubTable();
    TwoChains(Fat(g, d), g.EocMin());
    SubFile();
    FourThenFree(SubBlock());
    forall k | 0 <= k < 16
      ensures IsMember(SubBlock(), k) <==> k == 3
    {
      assert k == 0 || k == 1 || k == 2 || k == 3 || IsFree(SubBlock(), k);
    }
  }

  lemma FourThenFree(b: Block)
    requires (forall k :: 0 <= k < 4 ==> IsLive(b, k)) && forall k :: 4 <= k < 16 ==> IsFree(b, k)
    ensures FreeTail(b)
  {
    forall j, k | 0 <= j < k < Count(b) && IsFree(b, j)
      ensures IsFree(b, k)
    {
      assert j < 4 ==> IsLive(b, j);
    }
  }

  lemma SubFile()
    ensures DirGood(SmallLayout(), SubDisk(), SubDir()) && IsDescribed(SmallLayout(), SubDisk(), SubDir(), 3)
  {
    hide Fat, SubBlock, SubDisk, WellFormed, DirBytes, Rooted, EntryFirst, EntrySize, DirGood, BlockOf, Entry;
    var g, d := SmallLayout(), SubDisk();
    SubBytes();
    SubEntries();
    SubTable();
    TwoChains(Fat(g, d), g.EocMin());
    SlotInUse(g, d, SubDir(), 3);
    EntryByteAt(g, d, SubDir(), 3, OFF_ATTR);
    assert Attributes(d[65], 3) == 0x20;
    assert Described(g, d, 65, 3, [3]) && Disjoint([3], [2]);
  }

  // ---- Inputs that go wrong --------------------------------------------------------------------

  /** With the first block of the short file dirty in the cache, writing 512 bytes at its start
      strands the cache. */
  lemma OverwriteStrands()
    ensures
      var g, s, f := SmallLayout(), CacheState(OneCluster(), true, 65), Short().(pos := 0, cur := 0);
      Good(g, s, f) && !s.Stranded() && Hits(g, s, f.chain, f.pos, 512)
  {
    hide OneCluster, Hits, Fat;
    FirstBlock();
    SmallTable();
    SmallChain(Fat(SmallLayout(), OneCluster()), SmallLayout().EocMin());
    OverwriteHits(SmallLayout(), CacheState(OneCluster(), true, 65), [2], 0, 512);
  }

  /** That write, made on a handle: if it succeeds, nothing can be written out any more. */
  method StrandByWriting(f: SdFile, src: Block) returns (r: Progress)
    requires f.Valid() && f.fileType == Normal && f.canWrite && !f.append && f.vol.g == SmallLayout()
    requires f.vol.cache.State() == CacheState(OneCluster(), true, 65) && f.Snap() == Short().(pos := 0, cur := 0)
    modifies f, f.vol`allocSearchStart, f.vol.cache.Repr()
    ensures r == Going ==> f.vol.cache.Stranded()
  {
    hide Fat, Layout.Fits, SdVolume.Valid, BlockCache.Valid, FatOnly, Sound, OneCluster, Hits, FileBytes, Confined;
    assert f !in f.vol.Repr();
    OverwriteStrands();
    r := f.Write(src);
  }

  /** A truncation to one cluster that frees the next one and stops there leaves a link to a free
      cluster. */
  lemma CutLeavesDangling()
    ensures
      var g := SmallLayout();
      var fat := Fat(g, ThreeClusters());
      IsChain(fat, g.EocMin(), [2, 3, 4]) && PartFreed(fat, fat[3 := 0], [2, 3, 4], 1, 1)
      && !WellFormed(fat[3 := 0], g.EocMin())
  {
    hide Fat, ThreeClusters;
    var g := SmallLayout();
    var fat := Fat(g, ThreeClusters());
    ThreeTable();
    assert [2, 3, 4][1..2] == [3];
    LinkToFree(fat[3 := 0], g.EocMin(), 2);
  }

  lemma FirstBlock()
    ensures InRange(SmallLayout(), [2]) && Blocks(SmallLayout(), [2]) == 1 && BlockAt(SmallLayout(), [2], 0) == 65
  {
    CursorFirst(SmallLayout(), [2]);
  }

  /** A file of size 0 that has a cluster, as a write that failed leaves it: removing it gives
      nothing back. */
  lemma RemovalLeaks(s': CacheState)
    ensures
      var g, s := SmallLayout(), CacheState(OneCluster(), false, NO_BLOCK);
      var f := Short().(size := 0, pos := 0, cur := 0);
      Good(g, s, f) && |f.chain| == 1
      && (Removed(g, s, s', f) ==> |Free(Fat(g, s'.disk))| == |Free(Fat(g, s.disk))|)
  {
    hide Fat, WellFormed, Rooted, SameButName, Entry;
    SmallTable();
    SmallChain(Fat(SmallLayout(), OneCluster()), SmallLayout().EocMin());
  }

  /** A chain of three clusters. */
  function ThreeClusters(): (d: Disk)
    ensures SmallLayout().Fits(|d|)
  {
    var g := SmallLayout();
    PutEntry(g, PutEntry(g, PutEntry(g, Blank(), 4, EOC), 3, 4), 2, 3)
  }

  /** A file of 1100 bytes in them, of which one block was read: the next read failed after it
      had moved on to the second cluster. */
  function Ahead(): FileState {
    FileState(false, 2, [2, 3, 4], 1100, 512, 3, 33, 0, true)
  }

  lemma ThreeTable()
    ensures
      var fat := Fat(SmallLayout(), ThreeClusters());
      |fat| == 4087 && fat[2] == 3 && fat[3] == 4 && fat[4] == 0xFFFF
  {
    hide Fat, PutEntry;
    var g := SmallLayout();
    var d1 := PutEntry(g, Blank(), 4, EOC);
    var d2 := PutEntry(g, d1, 3, 4);
    FatOfPut(g, Blank(), 4, EOC);
    FatOfPut(g, d1, 3, 4);
    FatOfPut(g, d2, 2, 3);
    assert Stored(g, EOC) == 0xFFFF && Stored(g, 3) == 3 && Stored(g, 4) == 4;
    BlankTable();
  }

  /** The file is sound, and the cursor is where a failed read may leave it. A seek to byte 600,
      which is in the second cluster, does not restart at the first one: it ends in the third. */
  lemma SeekDoesNotHeal()
    ensures
      var g, d, f := SmallLayout(), ThreeClusters(), Ahead();
      && Sound(g, d, f, f.size) && CursorNear(g, f.chain, f.pos, f.cur) && !CursorOn(g, f.chain, f.pos, f.cur)
      && !SeekHeals(g, f.pos, 600) && CursorOn(g, f.chain, 600, 3)
      && forall cur :: Shifted(g, f.chain, f.pos, f.cur, 600, cur) ==> cur == 4
  {
    hide Fat, ThreeClusters;
    var g, d, f := SmallLayout(), ThreeClusters(), Ahead();
    ThreeTable();
    assert IsChain(Fat(g, d), g.EocMin(), [2, 3, 4]);
    ThirdCluster();
    forall cur | Shifted(g, f.chain, f.pos, f.cur, 600, cur)
      ensures cur == 4
    {
      var i: nat, j: nat :| Walked(g, f.chain, i, f.cur) && Walked(g, f.chain, j, cur)
                            && j == i + ClusterBefore(g, 600) - ClusterBefore(g, f.pos);
      assert i == 1 && j == 2;
    }
  }

  lemma ThirdCluster()
    ensures
      var g, ch := SmallLayout(), [2, 3, 4];
      && CursorAt(g, ch, 512, 3) && AtBoundary(g, 512) && !CursorOn(g, ch, 512, 3) && CursorOn(g, ch, 600, 3)
      && ClusterBefore(g, 600) == 1 && ClusterBefore(g, 512) == 0 && Room(g, ch, 1100)
  {
  }

  /** A handle in that state is sent to byte 600: if the seek succeeds, the current cluster is the
      third one, and the next read gives bytes of the wrong cluster. */
  method SeekFromAhead(f: SdFile) returns (ok: bool)
    requires f.Usable() && f.fileType == Normal && f.vol.g == SmallLayout() && f.chain == [2, 3, 4]
    requires f.fileSize == 1100 && f.curPosition == 512 && f.curCluster == 3
    modifies f`curCluster, f`curPosition, f.vol.cache.Repr()
    ensures ok ==> f.curPosition == 600 && f.curCluster == 4 && !CursorOn(f.vol.g, f.chain, 600, f.curCluster)
  {
    hide Fat, Layout.Fits, SdVolume.Valid, BlockCache.Valid, FatOnly, Sound;
    assert f !in f.vol.Repr();
    SeekDoesNotHeal();
    ok := f.SeekSet(600);
  }

  /** Whoever reads 65535 bytes that are there is told that the read failed. */
  method LongReadLooksFailed(f: SdFile, dst: array<byte>) returns (r: int, ghost done: bool)
    requires f.Valid() && f.fileType == Normal && f.curPosition + 65535 <= f.fileSize
    requires dst.Length == 65535 && dst != f.vol.cache.buffer
    modifies f`curCluster, f`curPosition, f.vol.cache.Repr(), dst
    ensures done ==> r == -1 && f.curPosition == old(f.curPosition) + 65535
  {
    hide Fat, Layout.Fits, SdVolume.Valid, BlockCache.Valid, FatOnly, Good, Readable, Contents, FileBytes, Patch;
    assert f !in f.vol.Repr();
    GoodIsReadable(f.vol.g, f.vol.cache.State(), f.Snap());
    r, done := f.Read(dst, 65535);
  }

  /** A boot sector of a volume with fewer blocks than its FATs alone take is accepted. */
  lemma TooSmallIsAccepted()
    ensures
      var p := Bpb(512, 1, 1, 2, 512, 30, 16, 0, 0, 0);
      p.Accepted() && !Consistent(p, FieldsOf(p, 0, 0))
      && FieldsOf(p, 0, 0) == Fields(32, 2, 1, 16, 0, 512, 65, 1, 0, 0xFFFF_FFDD)
  {
    var p := Bpb(512, 1, 1, 2, 512, 30, 16, 0, 0, 0);
    assert 1 == Pow2(0);
    assert p.Metadata() == 65;
  }

  /** A consistent boot sector with 4096 root entries is accepted, although its root directory
      starts where the data does. */
  lemma RootOverlapsData()
    ensures
      var p := Bpb(512, 4, 1, 2, 4096, 0, 64, 60000, 0, 0);
      var v := FieldsOf(p, 0, 2);
      && p.Accepted() && Consistent(p, v) && v.fatType == 16 && v.rootStart == v.dataStart
      && !LayoutOf(v).Fits(60000)
  {
    hide Layout.Fits;
    var p := Bpb(512, 4, 1, 2, 4096, 0, 64, 60000, 0, 0);
    Powers();
    assert p.sectorsPerCluster == Pow2(2) && p.RootBlocks() == 0 && p.Metadata() == 129;
    LayoutFits(p, 0, 2, 60000);
  }

  // ---- Cards given by their bytes ----------------------------------------------------------------

  /** A block of a 16-bit FAT: the entries of the clusters 0 and 1, which there are none of, and a
      chain of the clusters 2, 3 and 4. */
  function Fat16Block(): (b: Block) {
    [0xF8, 0xFF, 0xFF, 0xFF, 0x03, 0x00, 0x04, 0x00, 0xFF, 0xFF] + Zeros(BLOCK_SIZE - 10)
  }

  lemma Fat16ByBytes(d: Disk)
    requires |d| == SmallTotal() && d[1] == Fat16Block()
    ensures
      var g := SmallLayout();
      g.Fits(|d|) && Fat(g, d)[2] == 3 && Fat(g, d)[3] == 4 && Fat(g, d)[4] == 0xFFFF
      && IsChain(Fat(g, d), g.EocMin(), [2, 3, 4])
  {
    hide Fat, Entry;
    var g := SmallLayout();
    EntryIsBytes(g, d, 2, 3);
    EntryIsBytes(g, d, 3, 4);
    EntryIsBytes(g, d, 4, 0xFFFF);
  }

  /** A volume with 32-bit entries. */
  function Layout32(): Layout {
    Layout(Fat32, 1, 32, 1, 2, 0, 33, 1, 0, 100)
  }

  /** The chain of the clusters 2 and 3. The top four bits of an entry do not count. */
  function Fat32Block(): (b: Block) {
    [0xF8, 0xFF, 0xFF, 0x0F, 0xFF, 0xFF, 0xFF, 0x0F, 0x03, 0x00, 0x00, 0xF0, 0xF8, 0xFF, 0xFF, 0x0F]
    + Zeros(BLOCK_SIZE - 16)
  }

  lemma Fat32ByBytes(d: Disk)
    requires |d| == 133 && d[32] == Fat32Block()
    ensures
      var g := Layout32();
      g.Fits(|d|) && Fat(g, d)[2] == 3 && Fat(g, d)[3] == 0xFFF_FFF8 && IsChain(Fat(g, d), g.EocMin(), [2, 3])
  {
    hide Fat, Entry;
    var g := Layout32();
    EntryIsBytes(g, d, 2, 3);
    EntryIsBytes(g, d, 3, 0xFFF_FFF8);
  }

  /** A boot sector: 512 bytes per sector, 4 sectors per cluster, 1 reserved sector, 2 FATs of 64
      sectors, 512 root entries, 60000 sectors. */
  function BootBlock(): (b: Block) {
    [0xEB, 0x3C, 0x90, 0x4D, 0x53, 0x44, 0x4F, 0x53, 0x35, 0x2E, 0x30,
     0x00, 0x02, 0x04, 0x01, 0x00, 0x02, 0x00, 0x02, 0x60, 0xEA, 0xF8, 0x40, 0x00,
     0x20, 0x00, 0x40, 0x00, 0x00, 0x00, 0x00, 0x00, 0x00, 0x00, 0x00, 0x00] + Zeros(BLOCK_SIZE - 36)
  }

  lemma BootByBytes()
    ensures BpbOf(BootBlock()) == Bpb(512, 4, 1, 2, 512, 60000, 64, 0, 0, 0)
  {
  }

  lemma BootFields(shift: nat)
    requires shift <= 7 && Pow2(shift) == 4
    ensures
      var p, v := Bpb(512, 4, 1, 2, 512, 60000, 64, 0, 0, 0), Fields(16, 2, 1, 64, 129, 512, 161, 4, 2, 14959);
      FieldsOf(p, 0, shift) == v && Consistent(p, v) && RootFits(p, v)
  {
    hide Pow2, FieldsOf;
    Powers();
    assert shift == 2;
    LayoutAsSpecified(Bpb(512, 4, 1, 2, 512, 60000, 64, 0, 0, 0), 0, shift);
  }

  lemma BootIsSound(d: Disk)
    requires |d| == 60000 && d[0] == BootBlock()
    ensures IsSound(d, 0) && BpbOf(d[0]).Accepted()
  {
    hide BpbOf, BootBlock, FieldsOf, Consistent, RootFits, Pow2;
    BootByBytes();
    AcceptedIs(BpbOf(d[0]));
    forall k | 0 <= k <= 7 && Pow2(k) == 4
      ensures
        var p := BpbOf(d[0]);
        && FieldsOf(p, 0, k) == Fields(16, 2, 1, 64, 129, 512, 161, 4, 2, 14959)
        && Consistent(p, FieldsOf(p, 0, k)) && RootFits(p, FieldsOf(p, 0, k))
    {
      BootFields(k);
    }
  }

  /** A card with that boot sector in block 0 is mounted as a FAT16 volume of 14959 clusters, whose
      FATs start at block 1, the root directory at block 129, and the data at block 161. It fails
      only if the card does. */
  method MountByBytes(card: Sd2Card) returns (r: Outcome, v: Fields, vol: SdVolume?)
    requires card.Valid() && |card.blocks| == 60000 && card.blocks[0] == BootBlock()
    modifies card
    ensures r != Refused && (r == DeviceError ==> card.faults > old(card.faults))
    ensures r == Done ==> vol != null && vol.Valid() && vol.g == Layout(Fat16, 2, 1, 64, 129, 512, 161, 4, 2, 14959)
  {
    hide BpbOf, BootBlock, FieldsOf, Consistent, RootFits, Pow2, Bpb.Accepted, IsSound;
    BootIsSound(card.blocks);
    BootByBytes();
    r, v, vol := Mount(card, 0);
    if r == Done {
      BootFields(v.shift);
    }
  }

  // ---- A directory that was left uncleared ------------------------------------------------------

  /** Sixteen live entries with different names. */
  function FullBlock(): (b: Block) {
    seq(BLOCK_SIZE, i => if i % ENTRY_SIZE == 0 then 0x41 + i / ENTRY_SIZE else 0x20)
  }

  /** What was in a cluster before: a free entry, and behind it what looks like a live one. */
  function StaleBlock(): (b: Block) {
    seq(BLOCK_SIZE, i => if i == ENTRY_SIZE then 0x5A else 0)
  }

  function FullDisk(): (d: Disk)
    ensures |d| == SmallTotal() && SmallLayout().Fits(|d|) && d[65] == FullBlock() && d[66] == StaleBlock()
  {
    PutEntry(SmallLayout(), Blank(), 2, EOC)[65 := FullBlock()][66 := StaleBlock()]
  }

  function LongerDisk(): (d: Disk)
    ensures |d| == SmallTotal() && SmallLayout().Fits(|d|)
  {
    PutEntry(SmallLayout(), PutEntry(SmallLayout(), FullDisk(), 3, EOC), 2, 3)
  }

  function LongerDir(): FileState {
    SubDir().(chain := [2, 3], cur := 3)
  }

  lemma LongerBlocks()
    ensures LongerDisk()[65] == FullBlock() && LongerDisk()[66] == StaleBlock()
  {
    hide Fat, FullDisk, FullBlock, StaleBlock;
    var g := SmallLayout();
    PutFacts(g, FullDisk(), 3, EOC, 1, 17, 2);
    PutFacts(g, PutEntry(g, FullDisk(), 3, EOC), 2, 3, 1, 17, 2);
  }

  lemma LongerTables()
    ensures
      var fat, fat' := Fat(SmallLayout(), FullDisk()), Fat(SmallLayout(), LongerDisk());
      && |fat| == 4087 && fat[2] == 0xFFFF && |fat'| == 4087 && fat'[2] == 3 && fat'[3] == 0xFFFF
  {
    hide Fat, PutEntry;
    var g := SmallLayout();
    var d1 := PutEntry(g, Blank(), 2, EOC);
    var d2 := PutEntry(g, FullDisk(), 3, EOC);
    FatOfPut(g, Blank(), 2, EOC);
    DataKeepsFat(g, d1, d1[65 := FullBlock()], 65);
    DataKeepsFat(g, d1[65 := FullBlock()], FullDisk(), 66);
    FatOfPut(g, FullDisk(), 3, EOC);
    FatOfPut(g, d2, 2, 3);
    assert Stored(g, EOC) == 0xFFFF && Stored(g, 3) == 3;
    BlankTable();
  }

  lemma FullBytes()
    ensures
      var g, d := SmallLayout(), FullDisk();
      DirGood(g, d, SubDir()) && DirBytes(g, d, SubDir()) == FullBlock()
  {
    hide Fat, FullBlock, StaleBlock, FullDisk, DirBytes;
    var g, d := SmallLayout(), FullDisk();
    LongerTables();
    assert IsChain(Fat(g, d), g.EocMin(), [2]);
    CursorFirst(g, [2]);
    forall p | 0 <= p < BLOCK_SIZE
      ensures DirBytes(g, d, SubDir())[p] == FullBlock()[p]
    {
      DirByte(g, d, SubDir(), p);
    }
    assert DirBytes(g, d, SubDir()) == FullBlock();
  }

  lemma LongerBytes()
    ensures
      var g, d, dir := SmallLayout(), LongerDisk(), LongerDir().(size := 2 * BLOCK_SIZE);
      DirGood(g, d, dir) && DirBytes(g, d, dir) == FullBlock() + StaleBlock()
  {
    hide Fat, FullBlock, StaleBlock, LongerDisk, DirBytes;
    var g, d, dir := SmallLayout(), LongerDisk(), LongerDir().(size := 2 * BLOCK_SIZE);
    LongerTables();
    LongerBlocks();
    assert IsChain(Fat(g, d), g.EocMin(), [2, 3]);
    assert DirGood(g, d, dir);
    forall p | 0 <= p < 2 * BLOCK_SIZE
      ensures DirBytes(g, d, dir)[p] == (FullBlock() + StaleBlock())[p]
    {
      DirByte(g, d, dir, p);
      SecondBlock(p);
    }
    assert DirBytes(g, d, dir) == FullBlock() + StaleBlock();
  }

  lemma SecondBlock(p: nat)
    requires p < 2 * BLOCK_SIZE
    ensures p / BLOCK_SIZE == (if p < BLOCK_SIZE then 0 else 1)
    ensures p % BLOCK_SIZE == if p < BLOCK_SIZE then p else p - BLOCK_SIZE
    ensures BlockAt(SmallLayout(), [2, 3], p / BLOCK_SIZE) == 65 + p / BLOCK_SIZE
  {
  }

  /** A full directory of one cluster is extended by cluster 3, which cannot be cleared: the
      directory that is there now has a free entry with what looks like a file behind it. */
  lemma StaleEntryShows()
    ensures
      var g, d, d', dir, dir' := SmallLayout(), FullDisk(), LongerDisk(), SubDir(), LongerDir();
      && DirGood(g, d, dir) && VacantAt(DirBytes(g, d, dir), 0) == Count(DirBytes(g, d, dir))
      && LeftUncleared(g, d, d', dir, dir', 1)
      && (var b, b' := DirBytes(g, d, dir), DirBytes(g, d', dir'.(size := 2 * BLOCK_SIZE));
          !FreeTail(b') && exists name :: Has(b', name) && !Has(b, name))
  {
    hide Fat, FullBlock, StaleBlock, FullDisk, LongerDisk, DirBytes, Uncleared, FreeTail, VacantAt, DirGood, Has;
    var g, d, d', dir, dir' := SmallLayout(), FullDisk(), LongerDisk(), SubDir(), LongerDir();
    FullBytes();
    LongerBytes();
    FullAndStale();
    StaleIsUncleared();
    UnclearedOrder(g, d, d', dir, dir', 1);
  }

  lemma StaleIsUncleared()
    ensures Uncleared(SmallLayout(), FullDisk(), 3, 1) == StaleBlock()
  {
    hide FullDisk, StaleBlock;
  }

  lemma FullAndStale()
    ensures VacantAt(FullBlock(), 0) == Count(FullBlock()) && !FreeTail(StaleBlock())
    ensures exists name :: Has(FullBlock() + StaleBlock(), name) && !Has(FullBlock(), name)
  {
    hide VacantAt, Has, NameAt;
    var b, more := FullBlock(), StaleBlock();
    forall k | 0 <= k < 16
      ensures IsLive(b, k) && Mark(b, k) == 0x41 + k
    {
      assert b[ENTRY_SIZE * k] == 0x41 + k;
    }
    VacantIs(b, 16);
    assert IsFree(more, 0) && !IsFree(more, 1) && Mark(more, 1) == 0x5A;
    NewNameShows(b, more, 1);
  }

  lemma NewNameShows(b: seq<byte>, more: seq<byte>, k: nat)
    requires IsDirectory(b) && k < Count(more) && IsLive(more, k)
    requires forall j :: 0 <= j < Count(b) ==> Mark(b, j) != Mark(more, k)
    ensures Has(b + more, NameAt(more, k)) && !Has(b, NameAt(more, k))
  {
    Appended(b, more);
    assert IsLive(b + more, Count(b) + k) && NameAt(b + more, Count(b) + k) == NameAt(more, k);
    forall j | 0 <= j < Count(b)
      ensures NameAt(b, j) != NameAt(more, k)
    {
      assert NameAt(b, j)[0] == Mark(b, j) && NameAt(more, k)[0] == Mark(more, k);
    }
  }
}
