/** Opening and creating files by name (Modules/SD/SdFile.cpp:421-507, 552-592). */
module Directory {
  import opened Bytes
  import opened Layouts
  import opened Chains
  import opened Cache
  import opened Volume
  import opened FileModel
  import opened TruncateModel
  import opened Slots
  import opened Entries
  import opened DirModel
  import opened DirInvariant
  import opened Names
  import opened File

  /** The bits of `oflag`. */
  datatype OpenFlags = OpenFlags(read: bool, write: bool, append: bool, sync: bool, create: bool, exclusive: bool,
                                 trunc: bool)

  datatype Lookup = Found | NotThere | Unreadable

  /** One look at an entry, seen from the definitions of where searches end. */
  lemma SearchStep(b: seq<byte>, name: seq<byte>, k: nat)
    requires k < Count(b)
    ensures StopAt(b, name, k) == if Stops(b, name, k) then k else StopAt(b, name, k + 1)
    ensures VacantAt(b, k) == if IsLive(b, k) then VacantAt(b, k + 1) else k
  {
  }

  /** The entry in the cached block is entry `k` of the directory. */
  lemma EntryRead(g: Layout, d: Disk, dir: FileState, k: nat, b: Block, index: nat)
    requires g.Fits(|d|) && DirGood(g, d, dir) && k < dir.size / ENTRY_SIZE
    requires BlockOf(g, dir, k) < |d| && b == d[BlockOf(g, dir, k)] && index == k % ENTRIES_PER_BLOCK
    ensures b[ENTRY_SIZE * index] == Mark(DirBytes(g, d, dir), k)
    ensures b[ENTRY_SIZE * index..ENTRY_SIZE * index + NAME_SIZE] == NameAt(DirBytes(g, d, dir), k)
    ensures 0 < BlockOf(g, dir, k) && !g.IsFatBlock(BlockOf(g, dir, k))
  {
    hide Fat, Layout.Fits, DirBytes, DirGood, BlockOf;
    EntryInBlock(g, d, dir, k);
    var e := DirBytes(g, d, dir)[ENTRY_SIZE * k..ENTRY_SIZE * k + ENTRY_SIZE];
    assert e[0] == Mark(DirBytes(g, d, dir), k) && e[..NAME_SIZE] == NameAt(DirBytes(g, d, dir), k);
    assert EntryBytes(b, index)[0] == b[ENTRY_SIZE * index];
    assert EntryBytes(b, index)[..NAME_SIZE] == b[ENTRY_SIZE * index..ENTRY_SIZE * index + NAME_SIZE];
  }

  /** What a search has to report: where it stopped, and the first slot that is not live. */
  ghost predicate Reported(g: Layout, d: Disk, dir: FileState, name: seq<byte>, r: Lookup, block: nat, index: nat,
                           emptyFound: bool, slotBlock: nat, slotIndex: nat)
    requires g.Fits(|d|) && DirGood(g, d, dir)
  {
    var b := DirBytes(g, d, dir);
    var i := StopAt(b, name, 0);
    && (r == Found <==> i < Count(b) && IsLive(b, i))
    && (r == Found ==> block == BlockOf(g, dir, i) && index == i % ENTRIES_PER_BLOCK)
    && (r == NotThere ==> (emptyFound <==> VacantAt(b, 0) < Count(b)))
    && (r == NotThere && emptyFound ==>
          slotBlock == BlockOf(g, dir, VacantAt(b, 0)) && slotIndex == VacantAt(b, 0) % ENTRIES_PER_BLOCK)
  }

  /** The search has come to entry `k` without stopping. */
  ghost predicate Looked(g: Layout, d: Disk, dir: FileState, name: seq<byte>, k: nat,
                         emptyFound: bool, slotBlock: nat, slotIndex: nat)
    requires g.Fits(|d|) && DirGood(g, d, dir)
  {
    var b := DirBytes(g, d, dir);
    && k <= Count(b) && StopAt(b, name, 0) == StopAt(b, name, k)
    && (!emptyFound ==> VacantAt(b, 0) == VacantAt(b, k))
    && (emptyFound ==> VacantAt(b, 0) < k && slotBlock == BlockOf(g, dir, VacantAt(b, 0))
                       && slotIndex == VacantAt(b, 0) % ENTRIES_PER_BLOCK)
  }

  lemma LookFirst(g: Layout, d: Disk, dir: FileState, name: seq<byte>, slotBlock: nat, slotIndex: nat)
    requires g.Fits(|d|) && DirGood(g, d, dir)
    ensures Looked(g, d, dir, name, 0, false, slotBlock, slotIndex)
  {
  }

  lemma LookEnd(g: Layout, d: Disk, dir: FileState, name: seq<byte>, k: nat, block: nat, index: nat,
                emptyFound: bool, slotBlock: nat, slotIndex: nat)
    requires g.Fits(|d|) && DirGood(g, d, dir)
    requires Looked(g, d, dir, name, k, emptyFound, slotBlock, slotIndex) && ENTRY_SIZE * k >= dir.size
    ensures Reported(g, d, dir, name, NotThere, block, index, emptyFound, slotBlock, slotIndex)
  {
    hide Fat, Layout.Fits, DirGood, DirBytes, BlockOf;
  }

  /** One look at entry `k`, which is in the cached block `b`. */
  lemma LookNext(g: Layout, d: Disk, dir: FileState, name: seq<byte>, k: nat, b: Block, index: nat,
                 emptyFound: bool, slotBlock: nat, slotIndex: nat)
    requires g.Fits(|d|) && DirGood(g, d, dir) && k < dir.size / ENTRY_SIZE
    requires Looked(g, d, dir, name, k, emptyFound, slotBlock, slotIndex) && |name| == NAME_SIZE
    requires BlockOf(g, dir, k) < |d| && b == d[BlockOf(g, dir, k)] && index == k % ENTRIES_PER_BLOCK
    ensures
      var mark := b[ENTRY_SIZE * index];
      var block' := if emptyFound then slotBlock else BlockOf(g, dir, k);
      var index' := if emptyFound then slotIndex else index;
      if mark == NAME_FREE then
        Reported(g, d, dir, name, NotThere, BlockOf(g, dir, k), index, true, block', index')
      else if mark == NAME_DELETED then Looked(g, d, dir, name, k + 1, true, block', index')
      else if b[ENTRY_SIZE * index..ENTRY_SIZE * index + NAME_SIZE] == name then
        Reported(g, d, dir, name, Found, BlockOf(g, dir, k), index, emptyFound, slotBlock, slotIndex)
      else Looked(g, d, dir, name, k + 1, emptyFound, slotBlock, slotIndex)
  {
    hide Fat, Layout.Fits, DirGood, DirBytes, BlockOf, StopAt, VacantAt;
    EntryRead(g, d, dir, k, b, index);
    SearchStep(DirBytes(g, d, dir), name, k);
    VacantIsSeen(DirBytes(g, d, dir), name);
  }

  /** Search a directory for a name. The first slot that is not live is remembered in `f`. */
  method FindEntry(f: SdFile, dir: SdFile, name: seq<byte>) returns (r: Lookup, index: nat, emptyFound: bool)
    requires dir.DirValid() && f != dir && f.vol == dir.vol && |name| == NAME_SIZE
    modifies f`dirBlock, f`dirIndex, dir`curPosition, dir`curCluster, dir.vol.cache.Repr()
    ensures dir.DirValid() && dir.vol.cache.disk == old(dir.vol.cache.disk) && dir.Listing() == old(dir.Listing())
    ensures FatOnly(dir.vol.g, old(dir.vol.cache.State()), dir.vol.cache.State())
    ensures r != Unreadable ==>
              Reported(dir.vol.g, dir.vol.cache.disk, dir.Snap(), name, r, dir.vol.cache.blockNumber, index,
                       emptyFound, f.dirBlock, f.dirIndex)
    ensures r == NotThere && !emptyFound ==>
              dir.curPosition == dir.fileSize
              && (dir.fileType != Root16 ==> CursorOn(dir.vol.g, dir.chain, dir.curPosition, dir.curCluster))
    ensures r == Found ==> dir.vol.cache.blockNumber < |dir.vol.cache.disk| && index < ENTRIES_PER_BLOCK
    ensures dir.vol.cache.card.faults >= old(dir.vol.cache.card.faults)
    ensures r == Unreadable ==> dir.vol.cache.Excused(old(dir.vol.cache.card.faults)) || !dir.canRead
  {
    hide Fat, Layout.Fits, SdVolume.Valid, BlockCache.Valid, FatOnly, Readable, DirGood, DirBytes, CursorOn, Reported;
    assert f !in dir.vol.Repr() && dir !in dir.vol.Repr();
    ghost var g, d, was := dir.vol.g, dir.vol.cache.disk, dir.Snap();
    dir.Rewind();
    DirGoodMoves(g, d, was, dir.Snap());
    RewoundIsReadable(g, d, dir.Snap());
    ghost var start := dir.Snap();
    r, index, emptyFound := SearchAll(f, dir, name);
    DirGoodMoves(g, d, start, dir.Snap());
    ReportMoves(g, d, start, dir.Snap(), name, r, dir.vol.cache.blockNumber, index, emptyFound, f.dirBlock, f.dirIndex);
  }

  lemma ReportMoves(g: Layout, d: Disk, dir: FileState, dir': FileState, name: seq<byte>, r: Lookup, block: nat,
                    index: nat,
                    emptyFound: bool, slotBlock: nat, slotIndex: nat)
    requires g.Fits(|d|) && DirGood(g, d, dir) && dir' == dir.(pos := dir'.pos, cur := dir'.cur) && DirGood(g, d, dir')
    ensures Reported(g, d, dir, name, r, block, index, emptyFound, slotBlock, slotIndex) <==>
            Reported(g, d, dir', name, r, block, index, emptyFound, slotBlock, slotIndex)
  {
    hide Fat, Layout.Fits, DirGood, DirBytes, StopAt, VacantAt;
    DirGoodMoves(g, d, dir, dir');
  }

  lemma EntryPlace(g: Layout, d: Disk, dir: FileState, k: nat)
    requires g.Fits(|d|) && DirGood(g, d, dir)
    ensures ENTRY_SIZE * k / ENTRY_SIZE == k
    ensures ENTRY_SIZE * k < dir.size ==>
              k < dir.size / ENTRY_SIZE && ENTRY_SIZE * k / BLOCK_SIZE < HomeBlocks(g, dir.fixed, dir.chain)
              && BlockOf(g, dir, k) == Home(g, dir.fixed, dir.chain, ENTRY_SIZE * k / BLOCK_SIZE)
  {
    hide Fat, Layout.Fits, Home, HomeBlocks;
    assert ENTRY_SIZE * k / BLOCK_SIZE == k / ENTRIES_PER_BLOCK;
  }

  /** The loop of a search, from the first entry on. */
  method SearchAll(f: SdFile, dir: SdFile, name: seq<byte>) returns (r: Lookup, index: nat, emptyFound: bool)
    requires dir.DirValid() && f != dir && f.vol == dir.vol && |name| == NAME_SIZE
    requires dir.curPosition == 0 && Readable(dir.vol.g, dir.vol.cache.disk, dir.Snap())
    modifies f`dirBlock, f`dirIndex, dir`curPosition, dir`curCluster, dir.vol.cache.Repr()
    ensures dir.vol.Valid() && dir.vol.cache.disk == old(dir.vol.cache.disk)
    ensures FatOnly(dir.vol.g, old(dir.vol.cache.State()), dir.vol.cache.State())
    ensures r != Unreadable ==>
              Reported(dir.vol.g, dir.vol.cache.disk, old(dir.Snap()), name, r, dir.vol.cache.blockNumber, index,
                       emptyFound, f.dirBlock, f.dirIndex)
    ensures r == NotThere && !emptyFound ==>
              dir.curPosition == dir.fileSize
              && (dir.fileType != Root16 ==> CursorOn(dir.vol.g, dir.chain, dir.curPosition, dir.curCluster))
    ensures r == Found ==> dir.vol.cache.blockNumber < |dir.vol.cache.disk| && index < ENTRIES_PER_BLOCK
    ensures dir.vol.cache.card.faults >= old(dir.vol.cache.card.faults)
    ensures r == Unreadable ==> dir.vol.cache.Excused(old(dir.vol.cache.card.faults)) || !dir.canRead
  {
    hide Fat, Layout.Fits, SdVolume.Valid, BlockCache.Valid, FatOnly, Readable, DirGood, DirBytes, HasBytes, CursorOn,
      Looked, Reported;
    assert f !in dir.vol.Repr() && dir !in dir.vol.Repr();
    ghost var g, d, was := dir.vol.g, dir.vol.cache.disk, dir.Snap();
    r, index, emptyFound := NotThere, 0, false;
    ghost var k := 0;
    LookFirst(g, d, was, name, f.dirBlock, f.dirIndex);
    while dir.curPosition < dir.fileSize
      invariant dir.vol.Valid() && dir.vol.cache.disk == d
                && FatOnly(g, old(dir.vol.cache.State()), dir.vol.cache.State())
      invariant Readable(g, d, dir.Snap()) && dir.curPosition == ENTRY_SIZE * k <= dir.fileSize
      invariant Looked(g, d, was, name, k, emptyFound, f.dirBlock, f.dirIndex)
      invariant dir.vol.cache.card.faults >= old(dir.vol.cache.card.faults)
      decreases dir.fileSize - dir.curPosition
    {
      ghost var before := dir.vol.cache.State();
      var more;
      more, r, index, emptyFound := SearchOne(f, dir, name, emptyFound, g, d, was, k);
      FatOnlyTrans(g, old(dir.vol.cache.State()), before, dir.vol.cache.State());
      if !more {
        return;
      }
      k := k + 1;
    }
    r := NotThere;
    LookEnd(g, d, was, name, k, dir.vol.cache.blockNumber, index, emptyFound, f.dirBlock, f.dirIndex);
  }

  /** Look at one entry: go on, or stop there. */
  method SearchOne(f: SdFile, dir: SdFile, name: seq<byte>, seen: bool,
                   ghost g: Layout, ghost d: Disk, ghost was: FileState, ghost k: nat)
      returns (more: bool, r: Lookup, index: nat, emptyFound: bool)
    requires dir.vol.Valid() && dir.IsDir() && !dir.unbuffered && f != dir && f.vol == dir.vol && |name| == NAME_SIZE
    requires dir.vol.g == g && dir.vol.cache.disk == d && DirGood(g, d, was) && Readable(g, d, dir.Snap())
    requires dir.Snap() == was.(pos := dir.curPosition, cur := dir.curCluster)
    requires dir.curPosition == ENTRY_SIZE * k < dir.fileSize
    requires Looked(g, d, was, name, k, seen, f.dirBlock, f.dirIndex)
    modifies f`dirBlock, f`dirIndex, dir`curPosition, dir`curCluster, dir.vol.cache.Repr()
    ensures dir.vol.Valid() && dir.vol.cache.disk == d
    ensures FatOnly(g, old(dir.vol.cache.State()), dir.vol.cache.State())
    ensures more ==>
      && Readable(g, d, dir.Snap()) && dir.curPosition == old(dir.curPosition) + ENTRY_SIZE <= dir.fileSize
      && Looked(g, d, was, name, k + 1, emptyFound, f.dirBlock, f.dirIndex)
    ensures !more && r != Unreadable ==>
      && Reported(g, d, was, name, r, dir.vol.cache.blockNumber, index, emptyFound, f.dirBlock, f.dirIndex)
      && (r == NotThere ==> emptyFound)
      && dir.vol.cache.blockNumber < |dir.vol.cache.disk| && index < ENTRIES_PER_BLOCK
    ensures dir.vol.cache.card.faults >= old(dir.vol.cache.card.faults)
    ensures !more && r == Unreadable ==> dir.vol.cache.Excused(old(dir.vol.cache.card.faults)) || !dir.canRead
  {
    hide Fat, Layout.Fits, SdVolume.Valid, BlockCache.Valid, FatOnly, Readable, DirGood, DirBytes, HasBytes, CursorOn,
      Home, HomeBlocks, BlockOf, StopAt, VacantAt, Looked, Reported;
    assert f !in dir.vol.Repr() && dir !in dir.vol.Repr();
    EntryPlace(g, d, was, k);
    more, r, emptyFound := false, Unreadable, seen;
    var ok;
    ok, index := dir.ReadDirCache();
    if !ok {
      return;
    }
    var buffer := CachedBlock(dir.vol);
    LookNext(g, d, was, name, k, buffer, index, seen, f.dirBlock, f.dirIndex);
    if buffer[ENTRY_SIZE * index] == NAME_FREE || buffer[ENTRY_SIZE * index] == NAME_DELETED {
      if !emptyFound {
        emptyFound := true;
        f.dirIndex, f.dirBlock := index, dir.vol.cache.blockNumber;
      }
      more, r := buffer[ENTRY_SIZE * index] != NAME_FREE, NotThere;
    } else if buffer[ENTRY_SIZE * index..ENTRY_SIZE * index + NAME_SIZE] == name {
      r := Found;
    } else {
      more := true;
    }
  }

  /** The bytes of the cached block. */
  method CachedBlock(vol: SdVolume) returns (b: Block)
    requires vol.Valid() && vol.cache.blockNumber < |vol.cache.disk|
    ensures vol.Valid() && b == vol.cache.disk[vol.cache.blockNumber]
  {
    hide Fat, Layout.Fits, Mirrored;
    vol.cache.Cached();
    b := vol.cache.buffer[..];
  }

  // ---- Creating an entry ---------------------------------------------------------------------

  /** Put a new entry into the cached directory block, and write it out. */
  method WriteEntry(f: SdFile, name: seq<byte>) returns (ok: bool)
    requires f.vol.Valid() && 0 < f.vol.cache.blockNumber < |f.vol.cache.disk|
             && !f.vol.g.IsFatBlock(f.vol.cache.blockNumber)
    requires f.dirIndex < ENTRIES_PER_BLOCK && |name| == NAME_SIZE && !f.vol.cache.Stranded()
    modifies f.vol.cache.Repr()
    ensures f.vol.Valid() && f.vol.cache.blockNumber == old(f.vol.cache.blockNumber)
    ensures SlotChanged(f.vol.g, old(f.vol.cache.State()), f.vol.cache.State(), f.vol.cache.blockNumber, f.dirIndex)
    ensures EntryBytes(f.vol.cache.disk[f.vol.cache.blockNumber], f.dirIndex) == NewEntry(name)
    ensures ok ==> !f.vol.cache.dirty
    ensures f.vol.cache.card.faults >= old(f.vol.cache.card.faults)
    ensures !ok ==> f.vol.cache.Excused(old(f.vol.cache.card.faults))
  {
    hide Fat, Layout.Fits, SdVolume.Valid, BlockCache.Valid, NewEntry;
    var b := CachedBlock(f.vol);
    var b' := Patch(b, ENTRY_SIZE * f.dirIndex, NewEntry(name));
    EntryPatched(b, f.dirIndex, NewEntry(name));
    f.StoreInEntry(b');
    ok := f.vol.FlushAll();
  }

  lemma EntryPatched(b: Block, index: nat, e: seq<byte>)
    requires index < ENTRIES_PER_BLOCK && |e| == ENTRY_SIZE
    ensures EntryBytes(Patch(b, ENTRY_SIZE * index, e), index) == e
    ensures SameButEntry(b, Patch(b, ENTRY_SIZE * index, e), index)
  {
    var b' := Patch(b, ENTRY_SIZE * index, e);
    forall i | 0 <= i < BLOCK_SIZE && i / ENTRY_SIZE != index
      ensures b'[i] == b[i]
    {
      assert i < ENTRY_SIZE * index || i >= ENTRY_SIZE * index + ENTRY_SIZE;
    }
  }

  /** The first block after the end of a directory that has grown holds its next entry first. */
  lemma NextSlot(g: Layout, d: Disk, dir: FileState)
    requires g.Fits(|d|) && DirGood(g, d, dir) && !dir.fixed
    ensures dir.size / ENTRY_SIZE % ENTRIES_PER_BLOCK == 0
  {
    hide Fat, Layout.Fits;
    var n := |dir.chain| * g.blocksPerCluster;
    assert dir.size == BLOCK_SIZE * n == ENTRY_SIZE * (ENTRIES_PER_BLOCK * n);
    WholeBlocks(n);
  }

  lemma WholeBlocks(n: nat)
    ensures BLOCK_SIZE * n / ENTRY_SIZE % ENTRIES_PER_BLOCK == 0
  {
  }

  /** The entry was written to slot `k`. */
  lemma EntryCreated(g: Layout, s: CacheState, s1: CacheState, s': CacheState, dir: FileState, dir1: FileState,
                     name: seq<byte>, k: nat)
    requires g.Fits(|s.disk|) && DirGood(g, s.disk, dir) && |s1.disk| == |s.disk| && DirGood(g, s1.disk, dir1)
             && |name| == NAME_SIZE
    requires k == VacantAt(DirBytes(g, s.disk, dir), 0) && k < dir1.size / ENTRY_SIZE
    requires DirBytes(g, s1.disk, dir1) ==
             if k < Count(DirBytes(g, s.disk, dir)) then DirBytes(g, s.disk, dir)
             else DirBytes(g, s.disk, dir) + Zeros(BLOCK_SIZE * g.blocksPerCluster)
    requires SlotChanged(g, s1, s', BlockOf(g, dir1, k), k % ENTRIES_PER_BLOCK)
    requires EntryBytes(s'.disk[BlockOf(g, dir1, k)], k % ENTRIES_PER_BLOCK) == NewEntry(name)
    requires dir1.fixed == dir.fixed && dir.chain <= dir1.chain && dir.size <= dir1.size
    requires FatConfined(Fat(g, s.disk), Fat(g, s1.disk), dir.chain, dir1.chain)
    ensures Created(g, s, s', dir, dir1, name)
  {
    hide Fat, Layout.Fits, DirGood, DirBytes, SlotChanged, BlockOf, NewEntry, WithEntry, VacantAt, EntryBytes,
      FatConfined;
    SlotInBytes(g, s1, s', dir1, k);
    SlotKeepsFat(g, s1, s', BlockOf(g, dir1, k), k % ENTRIES_PER_BLOCK);
  }

  lemma SameTableConfined(fat: seq<nat>, ch: seq<nat>)
    ensures FatConfined(fat, fat, ch, ch)
  {
  }

  lemma GrownIsConfined(g: Layout, s: CacheState, s': CacheState, ch: seq<nat>, ch': seq<nat>)
    requires g.Fits(|s.disk|) && Grown(g, s, s', ch, ch')
    ensures ch <= ch' && FatConfined(Fat(g, s.disk), Fat(g, s'.disk), ch, ch')
  {
    hide Fat, Layout.Fits, FatConfined;
  }

  /** A new entry was created, and the block it is in is cached and written out. */
  ghost predicate EntryMade(g: Layout, s: CacheState, s': CacheState, dir: FileState, dir': FileState, name: seq<byte>,
                            index: nat)
    requires g.Fits(|s.disk|) && DirGood(g, s.disk, dir) && |name| == NAME_SIZE
    ensures EntryMade(g, s, s', dir, dir', name, index) ==>
              Created(g, s, s', dir, dir', name) && 0 < s'.number < |s'.disk| && index < ENTRIES_PER_BLOCK && !s'.dirty
  {
    var v := VacantAt(DirBytes(g, s.disk, dir), 0);
    && Created(g, s, s', dir, dir', name) && !s'.dirty
    && v < dir'.size / ENTRY_SIZE && 0 < s'.number < |s'.disk|
    && s'.number == BlockOf(g, dir', v) && index == v % ENTRIES_PER_BLOCK
    && EntryBytes(s'.disk[s'.number], index) == NewEntry(name)
  }

  /** What is left when a new entry could not be created, or not be written out: the directory as
      it was, the directory with a cluster that could not be cleared, or with the entry in it. */
  ghost predicate NotCreated(g: Layout, s: CacheState, s': CacheState, dir: FileState, dir': FileState,
                             name: seq<byte>)
    requires g.Fits(|s.disk|) && DirGood(g, s.disk, dir) && |name| == NAME_SIZE
  {
    || (exists left: nat :: NotExtended(g, s.disk, s'.disk, dir, dir', left))
    || Created(g, s, s', dir, dir', name)
  }

  lemma SameIsNotCreated(g: Layout, s: CacheState, s': CacheState, dir: FileState, dir': FileState, name: seq<byte>)
    requires g.Fits(|s.disk|) && DirGood(g, s.disk, dir) && |name| == NAME_SIZE && s'.disk == s.disk
    requires DirGood(g, s.disk, dir') && dir' == dir.(pos := dir'.pos, cur := dir'.cur)
    ensures NotCreated(g, s, s', dir, dir', name)
  {
    hide Fat, Layout.Fits, DirGood, DirBytes, Created;
    DirGoodMoves(g, s.disk, dir, dir');
    assert NotExtended(g, s.disk, s'.disk, dir, dir', 0);
  }

  /** Create an entry in the slot that the search remembered. */
  method FillSlot(f: SdFile, dir: SdFile, name: seq<byte>) returns (ok: bool)
    requires dir.DirValid() && f != dir && f.vol == dir.vol && |name| == NAME_SIZE
    requires var v := VacantAt(dir.Listing(), 0);
      v < dir.fileSize / ENTRY_SIZE && f.dirBlock == BlockOf(dir.vol.g, dir.Snap(), v)
      && f.dirIndex == v % ENTRIES_PER_BLOCK
    modifies f.vol.cache.Repr()
    ensures f.vol.Valid() && dir.DirValid()
    ensures SparesBut(f.vol.g, old(f.vol.cache.State()), f.vol.cache.State(), dir.chain, f.dirBlock, f.dirIndex)
    ensures ok ==> f.vol.cache.blockNumber == f.dirBlock
    ensures ok ==>
              EntryMade(f.vol.g, old(f.vol.cache.State()), f.vol.cache.State(), dir.Snap(), dir.Snap(), name,
                        f.dirIndex)
    ensures !ok ==>
              NotCreated(f.vol.g, old(f.vol.cache.State()), f.vol.cache.State(), dir.Snap(), dir.Snap(), name)
    ensures f.vol.cache.card.faults >= old(f.vol.cache.card.faults)
    ensures !ok ==> f.vol.cache.Excused(old(f.vol.cache.card.faults))
    ensures ok && old(Truthful(dir.vol.g, dir.vol.cache.disk, dir.Snap())) ==>
              Truthful(dir.vol.g, dir.vol.cache.disk, dir.Snap())
    ensures ok && old(Orderly(dir.vol.g, dir.vol.cache.disk, dir.Snap())) ==>
              Orderly(dir.vol.g, dir.vol.cache.disk, dir.Snap())
  {
    hide Fat, Layout.Fits, SdVolume.Valid, BlockCache.Valid, DirGood, DirBytes, SparesBut, SameButEntry, Created,
      Truthful, Orderly, BlockOf, NewEntry, VacantAt, EntryBytes;
    assert f !in dir.vol.Repr() && dir !in dir.vol.Repr();
    ghost var g, s, was := f.vol.g, f.vol.cache.State(), dir.Snap();
    ghost var v := VacantAt(DirBytes(g, s.disk, was), 0);
    EntryInBlock(g, s.disk, was, v);
    SameEntries(s.disk[f.dirBlock], f.dirIndex);
    ok := f.CacheDirEntry();
    if ok {
      ok := WriteEntry(f, name);
      SameTableConfined(Fat(g, s.disk), was.chain);
      EntryCreated(g, s, s, f.vol.cache.State(), was, was, name, v);
    } else {
      SameIsNotCreated(g, s, f.vol.cache.State(), was, was, name);
    }
    ghost var s' := f.vol.cache.State();
    SlotInBytes(g, s, s', was, v);
    EntrySparesAll(g, s, s, s', was.chain, was, v);
    if ok {
      if Truthful(g, s.disk, was) {
        WrittenStaysTruthful(g, s, s', was, v, name);
      }
      if Orderly(g, s.disk, was) {
        WrittenStaysOrderly(g, s, s', was, v, name);
      }
    }
  }

  lemma SameEntries(b: Block, index: nat)
    ensures SameButEntry(b, b, index)
  {
  }

  /** Create an entry in a new cluster of the directory. */
  method GrowAndFill(f: SdFile, dir: SdFile, name: seq<byte>) returns (ok: bool, ghost block: nat)
    requires dir.DirValid() && f != dir && f.vol == dir.vol && |name| == NAME_SIZE && dir.fileType != Root16
    requires VacantAt(dir.Listing(), 0) == dir.fileSize / ENTRY_SIZE && dir.curPosition == dir.fileSize
    requires CursorOn(dir.vol.g, dir.chain, dir.curPosition, dir.curCluster)
    requires dir.fileSize + BLOCK_SIZE * dir.vol.g.blocksPerCluster < TWO_32
    modifies f`dirIndex, dir`curCluster, dir`firstCluster, dir`dirDirty, dir`chain, dir`fileSize
    modifies f.vol`allocSearchStart, f.vol.cache.Repr()
    ensures f.vol.Valid()
    ensures SparesBut(f.vol.g, old(f.vol.cache.State()), f.vol.cache.State(), old(dir.chain), block, f.dirIndex)
    ensures NoLiveAt(f.vol.g, old(f.vol.cache.disk), old(dir.Snap()), block, f.dirIndex)
            && IsPlace(f.vol.g, old(f.vol.cache.disk), old(dir.Snap()), block, f.dirIndex)
    ensures ok ==> dir.DirValid() && f.vol.cache.blockNumber == block
    ensures !ok ==>
              NotCreated(f.vol.g, old(f.vol.cache.State()), f.vol.cache.State(), old(dir.Snap()), dir.Snap(), name)
    ensures ok ==>
              EntryMade(f.vol.g, old(f.vol.cache.State()), f.vol.cache.State(), old(dir.Snap()), dir.Snap(), name,
                        f.dirIndex)
    ensures f.vol.cache.card.faults >= old(f.vol.cache.card.faults)
    ensures !ok ==>
              f.vol.cache.Excused(old(f.vol.cache.card.faults)) || AllInUse(Fat(f.vol.g, f.vol.cache.disk))
    ensures ok && old(Truthful(dir.vol.g, dir.vol.cache.disk, dir.Snap())) ==>
              Truthful(dir.vol.g, dir.vol.cache.disk, dir.Snap())
    ensures ok && old(Orderly(dir.vol.g, dir.vol.cache.disk, dir.Snap())) ==>
              Orderly(dir.vol.g, dir.vol.cache.disk, dir.Snap())
  {
    hide Fat, Layout.Fits, SdVolume.Valid, BlockCache.Valid, DirGood, DirBytes, SparesBut, SlotChanged, Created,
      Truthful, Orderly, BlockOf, NewEntry, VacantAt, EntryBytes, Grown, CursorOn, FormKept, Zeros, NoLiveAt,
      IsPlace, NotExtended;
    assert f !in dir.vol.Repr() && dir !in dir.vol.Repr();
    ghost var g, s, was := f.vol.g, f.vol.cache.State(), dir.Snap();
    ghost var v := was.size / ENTRY_SIZE;
    NextSlot(g, s.disk, was);
    ghost var left;
    ok, left := dir.AddDirCluster();
    f.dirIndex := 0;
    block := 0;
    ghost var s1, grown := f.vol.cache.State(), dir.Snap();
    GrownSparesAll(g, s, s1, was.chain, dir.chain, block, 0);
    BlockZeroIsNoLive(g, s.disk, was, 0);
    if ok {
      block := f.vol.cache.blockNumber;
      NewSlotIsNoLive(g, s, s1, was, grown);
      EntryInBlock(g, s1.disk, grown, v);
      NotStranded(g, s1);
      ok := WriteEntry(f, name);
      ghost var s' := f.vol.cache.State();
      SlotInBytes(g, s1, s', grown, v);
      EntrySparesAll(g, s, s1, s', was.chain, grown, v);
      GrownIsConfined(g, s, s1, was.chain, grown.chain);
      EntryCreated(g, s, s1, s', was, grown, name, v);
      if ok && Truthful(g, s.disk, was) {
        GrownStaysTruthful(g, s, s1, was, grown);
        WrittenStaysTruthful(g, s1, s', grown, v, name);
      }
      if ok && Orderly(g, s.disk, was) {
        GrownStaysOrderly(g, s, s1, was, grown);
        WrittenStaysOrderly(g, s1, s', grown, v, name);
      }
    }
  }

  lemma NotStranded(g: Layout, s: CacheState)
    requires g.Fits(|s.disk|) && s.number < |s.disk|
    ensures !s.Stranded()
  {
  }

  // ---- Opening an entry ------------------------------------------------------------------------

  /** The attributes of an entry forbid opening it this way. */
  predicate Refuses(attr: byte, oflag: OpenFlags) {
    IsVolumeLabel(attr) || ((IsReadOnly(attr) || IsDirectoryEntry(attr)) && (oflag.write || oflag.trunc))
  }

  /** What comes of opening an entry, said of the bits of its attributes: a volume label is not opened,
      nor a directory or read-only file to be written or truncated. Anything else is, unless there
      is an excuse: a directory as such if it is only to be read, a file unless it is to be
      truncated and not written. */
  ghost predicate OpensAs(attr: byte, oflag: OpenFlags, ok: bool, fileType: FileType, excused: bool) {
    forall a: AttributeBits :: a.Byte() == attr ==>
      && (a.volumeLabel || ((a.readOnly || a.directory) && (oflag.write || oflag.trunc)) ==> !ok)
      && (ok ==> fileType == if a.directory then Subdir else Normal)
      && (!a.volumeLabel && !oflag.write && !oflag.trunc ==> ok || excused)
      && (!a.volumeLabel && !a.readOnly && !a.directory && (oflag.trunc ==> oflag.write) ==> ok || excused)
  }

  lemma OpensByBits(attr: byte, oflag: OpenFlags, ok: bool, fileType: FileType, excused: bool)
    requires ok ==> !Refuses(attr, oflag) && fileType == if IsDirectoryEntry(attr) then Subdir else Normal
    requires !ok ==> excused || (oflag.trunc && !oflag.write) || Refuses(attr, oflag)
    ensures OpensAs(attr, oflag, ok, fileType, excused)
  {
    hide AttributeBits.Byte;
    forall a: AttributeBits | a.Byte() == attr
      ensures (a.readOnly <==> IsReadOnly(attr)) && (a.volumeLabel <==> IsVolumeLabel(attr))
              && (a.directory <==> IsDirectoryEntry(attr))
    {
      AttributesAreBits(a);
    }
  }

  /** A handle of that type was opened on the first entry with a name, if there was one. */
  ghost predicate NameOpenedAs(b: seq<byte>, name: seq<byte>, oflag: OpenFlags, fileType: FileType) {
    forall k | IsFirst(b, name, k) :: OpensAs(EntryByte(b, k, OFF_ATTR), oflag, true, fileType, false)
  }

  lemma FoundOpenedAs(g: Layout, d: Disk, dir: FileState, dir1: FileState, name: seq<byte>, k: nat, oflag: OpenFlags,
                      fileType: FileType)
    requires g.Fits(|d|) && DirGood(g, d, dir) && SameHome(dir, dir1) && DirGood(g, d, dir1)
    requires IsFirst(DirBytes(g, d, dir1), name, k)
    requires OpensAs(EntryByte(DirBytes(g, d, dir1), k, OFF_ATTR), oflag, true, fileType, false)
    ensures NameOpenedAs(DirBytes(g, d, dir), name, oflag, fileType)
  {
    hide Fat, Layout.Fits, DirGood, DirBytes, AttributeBits.Byte;
    DirGoodMoves(g, d, dir, dir1);
    FirstIsOne(DirBytes(g, d, dir), name, k);
  }

  lemma FirstIsOne(b: seq<byte>, name: seq<byte>, k: nat)
    requires IsFirst(b, name, k)
    ensures forall j :: IsFirst(b, name, j) ==> j == k
  {
  }

  /** A file that was not there. */
  lemma NotOpenedAs(b: seq<byte>, name: seq<byte>, oflag: OpenFlags, fileType: FileType)
    requires !Has(b, name)
    ensures NameOpenedAs(b, name, oflag, fileType)
  {
    hide OpensAs;
  }

  /** The handle has the access that was asked for, is at its start, and agrees with its entry. */
  predicate OpenedWith(f: SdFile, oflag: OpenFlags)
    reads f
  {
    && f.canRead == oflag.read && f.canWrite == oflag.write && f.append == oflag.append
    && f.syncWrites == oflag.sync && !f.unbuffered && f.curPosition == 0 && !f.dirDirty
  }

  lemma OpenedIsClean(f: SdFile, oflag: OpenFlags)
    requires OpenedWith(f, oflag)
    ensures !f.dirDirty && f.curPosition == 0 && f.canRead == oflag.read && f.canWrite == oflag.write
    ensures f.append == oflag.append && f.syncWrites == oflag.sync
  {
  }

  /** A handle was opened on an entry that tells the truth: for a file, it is good, and what is
      in the file is what the entry says, or nothing if it was truncated. */
  ghost predicate EntryOpened(g: Layout, s: CacheState, s': CacheState, b: Block, block: nat, index: nat, ch: seq<nat>,
                              isDir: bool, trunc: bool, f: FileState)
    requires g.Fits(|s.disk|) && index < ENTRIES_PER_BLOCK
    ensures EntryOpened(g, s, s', b, block, index, ch, isDir, trunc, f) ==>
              f.block == block && f.index == index && (!isDir && trunc ==> f.size == 0)
  {
    && f.block == block && f.index == index
    && !IsVolumeLabel(Attributes(b, index)) && isDir == IsDirectoryEntry(Attributes(b, index))
    && (if isDir then f == OpenedDir(g, b, block, index, ch) && s'.disk == s.disk && !trunc
        else var entry := Opened(b, block, index, ch);
             Good(g, s, entry)
             && if trunc && entry.size > 0 then Truncated(g, s, s', ch, entry.size, f) && f.size == 0
                else f == entry && s' == s)
  }

  /** Open the entry with a number in the cached directory block. */
  method OpenCachedEntry(f: SdFile, index: nat, oflag: OpenFlags, ghost ch: seq<nat>) returns (ok: bool)
    requires f.vol.Valid() && f.fileType == Closed && 0 < f.vol.cache.blockNumber < |f.vol.cache.disk|
             && index < ENTRIES_PER_BLOCK
    requires Described(f.vol.g, f.vol.cache.disk, f.vol.cache.blockNumber, index, ch)
    modifies f, f.vol`allocSearchStart, f.vol.cache.Repr()
    ensures f.vol.Valid()
    ensures ok ==>
      var block := old(f.vol.cache.blockNumber);
      && EntryOpened(f.vol.g, old(f.vol.cache.State()), f.vol.cache.State(), old(f.vol.cache.disk[block]), block, index,
                     ch,
                     f.fileType == Subdir, oflag.trunc, f.Snap())
      && (f.fileType == Normal || f.fileType == Subdir) && (f.fileType == Normal ==> f.Valid())
      && (f.fileType == Subdir ==> f.DirValid())
      && OpenedWith(f, oflag)
    ensures !oflag.trunc || EntrySize(old(f.vol.cache.disk[f.vol.cache.blockNumber]), index) == 0 ==>
              f.vol.cache.disk == old(f.vol.cache.disk)
              && FatOnly(f.vol.g, old(f.vol.cache.State()), f.vol.cache.State())
    ensures Refuses(Attributes(old(f.vol.cache.disk[f.vol.cache.blockNumber]), index), oflag)
            || (oflag.trunc && !oflag.write) ==>
              !ok && f.vol.cache.disk == old(f.vol.cache.disk)
    ensures !oflag.trunc || Refuses(Attributes(old(f.vol.cache.disk[f.vol.cache.blockNumber]), index), oflag) ==>
              ok || f.fileType == Closed
    ensures oflag.trunc && !Refuses(Attributes(old(f.vol.cache.disk[f.vol.cache.blockNumber]), index), oflag) ==>
              f.fileType == Normal
    ensures Attributes(old(f.vol.cache.disk[f.vol.cache.blockNumber]), index) == 0 && oflag.write
            && EntrySize(old(f.vol.cache.disk[f.vol.cache.blockNumber]), index) == 0 ==>
              ok
    ensures f.vol.cache.disk == old(f.vol.cache.disk)
            || (f.chain <= ch && Isolated(f.vol.g, old(f.vol.cache.State()), f.vol.cache.State(), ch, f.chain,
                                          old(f.vol.cache.blockNumber), index))
    ensures Spares(f.vol.g, old(f.vol.cache.State()), f.vol.cache.State(),
                   Opened(old(f.vol.cache.disk[f.vol.cache.blockNumber]), old(f.vol.cache.blockNumber), index, ch))
    ensures f.vol.cache.card.faults >= old(f.vol.cache.card.faults)
    ensures !ok ==>
              f.vol.cache.Excused(old(f.vol.cache.card.faults)) || (oflag.trunc && !oflag.write)
              || Refuses(Attributes(old(f.vol.cache.disk[f.vol.cache.blockNumber]), index), oflag)
    ensures OpensAs(old(f.vol.cache.disk[f.vol.cache.blockNumber])[32 * index + 11], oflag, ok, f.fileType,
                    !ok && f.vol.cache.Excused(old(f.vol.cache.card.faults)))
  {
    hide Fat, Layout.Fits, SdVolume.Valid, BlockCache.Valid, Spares, Truncated, Good, EntryFirst, EntrySize, DirGood,
      Sound, Isolated, Confined, OpensAs;
    assert f !in f.vol.Repr();
    ghost var g, s, block := f.vol.g, f.vol.cache.State(), f.vol.cache.blockNumber;
    var b := CachedBlock(f.vol);
    QuietSparesAll(g, s, s, ch, block, index, Opened(b, block, index, ch));
    var attr := Attributes(b, index);
    if (IsReadOnly(attr) || IsDirectoryEntry(attr)) && (oflag.write || oflag.trunc) {
      OpensByBits(attr, oflag, false, f.fileType, f.vol.cache.Excused(old(f.vol.cache.card.faults)));
      return false;
    }
    f.dirIndex, f.dirBlock := index, f.vol.cache.blockNumber;
    f.firstCluster := EntryFirst(b, index);
    if IsVolumeLabel(attr) {
      OpensByBits(attr, oflag, false, f.fileType, f.vol.cache.Excused(old(f.vol.cache.card.faults)));
      return false;
    }
    if IsDirectoryEntry(attr) {
      ok := OpenSubdir(f, b, oflag, ch);
    } else {
      OpenedIsGood(g, s, block, index, ch);
      ok := OpenFile(f, b, oflag, ch);
    }
    OpensByBits(attr, oflag, ok, f.fileType, !ok && f.vol.cache.Excused(old(f.vol.cache.card.faults)));
  }

  /** The rest of opening an entry, if it is a regular file. */
  method OpenFile(f: SdFile, b: Block, oflag: OpenFlags, ghost ch: seq<nat>) returns (ok: bool)
    requires f.vol.Valid() && f.fileType == Closed && f.dirIndex < ENTRIES_PER_BLOCK
             && f.firstCluster == EntryFirst(b, f.dirIndex)
    requires Good(f.vol.g, f.vol.cache.State(), Opened(b, f.dirBlock, f.dirIndex, ch))
    modifies f, f.vol`allocSearchStart, f.vol.cache.Repr()
    ensures f.vol.Valid() && f.fileType == Normal && f.dirBlock == old(f.dirBlock) && f.dirIndex == old(f.dirIndex)
    ensures ok ==>
      && f.Valid()
      && (if oflag.trunc && EntrySize(b, f.dirIndex) > 0 then
            Truncated(f.vol.g, old(f.vol.cache.State()), f.vol.cache.State(), ch, EntrySize(b, f.dirIndex), f.Snap())
            && f.fileSize == 0
          else f.Snap() == Opened(b, f.dirBlock, f.dirIndex, ch))
      && OpenedWith(f, oflag)
    ensures !(oflag.trunc && EntrySize(b, f.dirIndex) > 0) || (oflag.trunc && !oflag.write) ==>
              f.vol.cache.State() == old(f.vol.cache.State())
    ensures oflag.trunc && !oflag.write ==> !ok
    ensures !oflag.trunc || (oflag.write && EntrySize(b, f.dirIndex) == 0) ==> ok
    ensures f.chain <= ch && Isolated(f.vol.g, old(f.vol.cache.State()), f.vol.cache.State(), ch, f.chain, f.dirBlock,
                                      f.dirIndex)
    ensures Spares(f.vol.g, old(f.vol.cache.State()), f.vol.cache.State(), Opened(b, f.dirBlock, f.dirIndex, ch))
    ensures f.vol.cache.card.faults >= old(f.vol.cache.card.faults)
    ensures !ok ==>
              f.vol.cache.Excused(old(f.vol.cache.card.faults)) || (oflag.trunc && !oflag.write)
  {
    hide Fat, Layout.Fits, SdVolume.Valid, BlockCache.Valid, Spares, Truncated, Good, EntryFirst, EntrySize, Isolated,
      Confined;
    assert f !in f.vol.Repr();
    ghost var g, s, entry := f.vol.g, f.vol.cache.State(), Opened(b, f.dirBlock, f.dirIndex, ch);
    QuietSparesAll(g, s, s, ch, f.dirBlock, f.dirIndex, entry);
    ConfinedQuiet(g, s, s, ch, f.dirBlock, f.dirIndex);
    ConfinedIsIsolated(g, s, s, ch, ch, f.dirBlock, f.dirIndex);
    f.fileSize := EntrySize(b, f.dirIndex);
    f.fileType := Normal;
    SetOpen(f, oflag, ch);
    ok := true;
    if oflag.trunc {
      f.ValidIsUsable();
      ok := f.Truncate(0);
      IsolatedSpares(g, s, f.vol.cache.State(), entry, f.Snap());
    }
  }

  /** The flags of a handle just opened, at its start. */
  method SetOpen(f: SdFile, oflag: OpenFlags, ghost ch: seq<nat>)
    modifies f`canRead, f`canWrite, f`syncWrites, f`append, f`unbuffered
    modifies f`dirDirty, f`curCluster, f`curPosition, f`chain
    ensures OpenedWith(f, oflag) && f.curCluster == 0 && f.chain == ch
  {
    f.canRead, f.canWrite, f.syncWrites, f.append := oflag.read, oflag.write, oflag.sync, oflag.append;
    f.unbuffered, f.dirDirty := false, false;
    f.curCluster, f.curPosition := 0, 0;
    f.chain := ch;
  }

  /** The rest of opening an entry, if it is a subdirectory: its size is that of its chain. */
  method OpenSubdir(f: SdFile, b: Block, oflag: OpenFlags, ghost ch: seq<nat>) returns (ok: bool)
    requires f.vol.Valid() && f.fileType == Closed && f.dirIndex < ENTRIES_PER_BLOCK
             && f.firstCluster == EntryFirst(b, f.dirIndex)
    requires DirGood(f.vol.g, f.vol.cache.disk, OpenedDir(f.vol.g, b, f.dirBlock, f.dirIndex, ch))
    modifies f, f.vol.cache.Repr()
    ensures f.vol.Valid() && f.vol.cache.disk == old(f.vol.cache.disk)
            && FatOnly(f.vol.g, old(f.vol.cache.State()), f.vol.cache.State())
    ensures f.dirBlock == old(f.dirBlock) && f.dirIndex == old(f.dirIndex)
    ensures ok ==>
      && f.fileType == Subdir && f.DirValid() && f.Snap() == OpenedDir(f.vol.g, b, f.dirBlock, f.dirIndex, ch)
      && OpenedWith(f, oflag)
    ensures !ok ==> f.fileType == Closed
    ensures Spares(f.vol.g, old(f.vol.cache.State()), f.vol.cache.State(), Opened(b, f.dirBlock, f.dirIndex, ch))
    ensures f.vol.cache.card.faults >= old(f.vol.cache.card.faults)
    ensures !ok ==> f.vol.cache.Excused(old(f.vol.cache.card.faults))
  {
    hide Fat, Layout.Fits, SdVolume.Valid, BlockCache.Valid, Spares, EntryFirst, EntrySize, DirGood, Leads, Size32,
      ClusterBytes;
    assert f !in f.vol.Repr();
    ghost var g, s := f.vol.g, f.vol.cache.State();
    SubdirChain(g, s.disk, OpenedDir(g, b, f.dirBlock, f.dirIndex, ch));
    var size;
    ok, size := f.vol.ChainSize(f.firstCluster, ch);
    QuietSparesAll(g, s, f.vol.cache.State(), ch, f.dirBlock, f.dirIndex, Opened(b, f.dirBlock, f.dirIndex, ch));
    if ok {
      f.fileSize := size;
      f.fileType := Subdir;
      SetOpen(f, oflag, ch);
      DirGoodMoves(g, s.disk, OpenedDir(g, b, f.dirBlock, f.dirIndex, ch), f.Snap());
    }
  }

  lemma SubdirChain(g: Layout, d: Disk, dir: FileState)
    requires g.Fits(|d|) && DirGood(g, d, dir) && !dir.fixed
    ensures Leads(Fat(g, d), g.EocMin(), dir.chain) && dir.chain[0] == dir.first
            && dir.chain[|dir.chain| - 1] < g.Clusters()
    ensures Size32(g, |dir.chain|) == ClusterBytes(g, |dir.chain|) == dir.size
  {
    hide Fat, Layout.Fits, IsChain, Leads, ClusterBytes;
    DirSize(g, d, dir);
    ChainLeads(Fat(g, d), g.EocMin(), dir.chain);
  }

  /** Open the root directory. On a FAT32 volume its size is that of what the links from its first
      cluster lead to; if they lead out of the table it is refused. If they are a chain of which no
      cluster is twice and the size is below 2^32, the handle is valid. */
  method OpenRoot(f: SdFile, ghost ch: seq<nat>) returns (ok: bool)
    requires f.vol.Valid() && (f.vol.g.fatType == Fat16 ==> ENTRY_SIZE * f.vol.g.rootEntries < TWO_16)
    requires f.vol.g.fatType == Fat32 ==>
               Leads(Fat(f.vol.g, f.vol.cache.disk), f.vol.g.EocMin(), ch) && ch[0] == f.vol.g.rootStart
    modifies f, f.vol.cache.Repr()
    ensures f.vol.Valid() && f.vol.cache.disk == old(f.vol.cache.disk)
    ensures old(f.fileType) != Closed ==> !ok && f.Snap() == old(f.Snap())
    ensures ok ==>
      && f.canRead && !f.canWrite && !f.append && !f.syncWrites && !f.unbuffered && !f.dirDirty && f.curPosition == 0
      && f.chain == (if f.vol.g.fatType == Fat16 then [] else ch)
      && (if f.vol.g.fatType == Fat16 then f.fileType == Root16 && f.DirValid() && f.Snap() == Root16Dir(f.vol.g)
          else && f.fileType == Root32 && ch[|ch| - 1] < f.vol.g.Clusters() && f.fileSize == Size32(f.vol.g, |ch|)
               && (DirGood(f.vol.g, f.vol.cache.disk, Root32Dir(f.vol.g, ch)) ==>
                     f.DirValid() && f.Snap() == Root32Dir(f.vol.g, ch)))
    ensures f.vol.cache.card.faults >= old(f.vol.cache.card.faults)
    ensures !ok ==>
              f.vol.cache.Excused(old(f.vol.cache.card.faults)) || old(f.fileType) != Closed
              || (f.vol.g.fatType == Fat32 && ch[|ch| - 1] >= f.vol.g.Clusters())
  {
    hide Fat, Layout.Fits, SdVolume.Valid, BlockCache.Valid, DirGood, Leads, FatOnly, ClusterBytes, Size32;
    assert f !in f.vol.Repr();
    if f.fileType != Closed {
      return false;
    }
    f.dirBlock, f.dirIndex := 0, 0;
    if f.vol.g.fatType == Fat16 {
      Root16Fits(f.vol.g, f.vol.cache.disk);
      SetOpen(f, OpenFlags(true, false, false, false, false, false, false), []);
      f.firstCluster, f.fileSize := 0, ENTRY_SIZE * f.vol.g.rootEntries;
      f.fileType := Root16;
      ok := true;
    } else {
      ok := OpenRoot32(f, ch);
    }
  }

  /** The rest of opening the root directory of a FAT32 volume. */
  method OpenRoot32(f: SdFile, ghost ch: seq<nat>) returns (ok: bool)
    requires f.vol.Valid() && f.fileType == Closed && f.dirBlock == f.dirIndex == 0 && f.vol.g.fatType == Fat32
    requires Leads(Fat(f.vol.g, f.vol.cache.disk), f.vol.g.EocMin(), ch) && ch[0] == f.vol.g.rootStart
    modifies f, f.vol.cache.Repr()
    ensures f.vol.Valid() && f.vol.cache.disk == old(f.vol.cache.disk)
    ensures ok ==>
      && f.canRead && !f.canWrite && !f.append && !f.syncWrites && !f.unbuffered && !f.dirDirty && f.curPosition == 0
      && f.chain == ch && f.fileType == Root32
      && ch[|ch| - 1] < f.vol.g.Clusters() && f.fileSize == Size32(f.vol.g, |ch|)
      && (DirGood(f.vol.g, f.vol.cache.disk, Root32Dir(f.vol.g, ch)) ==>
            f.DirValid() && f.Snap() == Root32Dir(f.vol.g, ch))
    ensures f.vol.cache.card.faults >= old(f.vol.cache.card.faults)
    ensures !ok ==> f.vol.cache.Excused(old(f.vol.cache.card.faults)) || ch[|ch| - 1] >= f.vol.g.Clusters()
  {
    hide Fat, Layout.Fits, SdVolume.Valid, BlockCache.Valid, DirGood, Leads, FatOnly, ClusterBytes, Size32;
    assert f !in f.vol.Repr();
    if DirGood(f.vol.g, f.vol.cache.disk, Root32Dir(f.vol.g, ch)) {
      SubdirChain(f.vol.g, f.vol.cache.disk, Root32Dir(f.vol.g, ch));
    }
    f.fileType := Root32;
    f.firstCluster := f.vol.g.rootStart;
    var size;
    ok, size := f.vol.ChainSize(f.firstCluster, ch);
    if ok {
      SetOpen(f, OpenFlags(true, false, false, false, false, false, false), ch);
      f.fileSize := size;
    }
  }

  // ---- Opening by name -------------------------------------------------------------------------

  /** Opening is refused for what is in the directory: the file may not be opened this way, or
      it is not there and is not asked for, or there is no room for its entry. */
  ghost predicate IsRefused(g: Layout, d: Disk, dir: FileState, name: seq<byte>, oflag: OpenFlags)
    requires g.Fits(|d|) && DirGood(g, d, dir)
  {
    var b := DirBytes(g, d, dir);
    if Has(b, name) then
      (oflag.create && oflag.exclusive) || (oflag.trunc && !oflag.write)
      || RefusesEntry(g, d, dir, oflag, StopAt(b, name, 0))
    else !(oflag.create && oflag.write) || (dir.fixed && VacantAt(b, 0) == Count(b))
  }

  ghost predicate RefusesEntry(g: Layout, d: Disk, dir: FileState, oflag: OpenFlags, k: nat)
    requires g.Fits(|d|) && DirGood(g, d, dir)
  {
    && k < dir.size / ENTRY_SIZE && BlockOf(g, dir, k) < |d|
    && Refuses(Attributes(d[BlockOf(g, dir, k)], k % ENTRIES_PER_BLOCK), oflag)
  }

  /** What is true after a file could not be opened. If it was there, all names are what they were,
      and only a truncation that stopped half way may have left the handle open; if it was not there,
      it may have been created in part. A refusal changes nothing. */
  ghost predicate OpenFailed(g: Layout, s: CacheState, s': CacheState, dir: FileState, dir': FileState,
                             name: seq<byte>, oflag: OpenFlags, closed: bool)
    requires g.Fits(|s.disk|) && DirGood(g, s.disk, dir) && |name| == NAME_SIZE
  {
    var b := DirBytes(g, s.disk, dir);
    && |s'.disk| == |s.disk| && (closed || (oflag.trunc && Has(b, name)))
    && (if Has(b, name) then
          DirGood(g, s'.disk, dir') && SameHome(dir, dir') && SameNames(b, DirBytes(g, s'.disk, dir'))
        else NotCreated(g, s, s', dir, dir', name))
    && (IsRefused(g, s.disk, dir, name, oflag) ==>
          s'.disk == s.disk && DirGood(g, s'.disk, dir') && SameHome(dir, dir'))
  }

  /** Opening is refused only because it is to truncate and not to write: that is noticed after the
      handle was opened. */
  ghost predicate LeavesOpen(g: Layout, d: Disk, dir: FileState, name: seq<byte>, oflag: OpenFlags)
    requires g.Fits(|d|) && DirGood(g, d, dir)
  {
    var b := DirBytes(g, d, dir);
    && Has(b, name) && oflag.trunc && !oflag.write && !(oflag.create && oflag.exclusive)
    && !RefusesEntry(g, d, dir, oflag, StopAt(b, name, 0))
  }

  /** The directory is the same, but for the position of its handle. */
  predicate SameHome(dir: FileState, dir': FileState) {
    dir' == dir.(pos := dir'.pos, cur := dir'.cur)
  }

  lemma UnchangedFailed(g: Layout, s: CacheState, s': CacheState, dir: FileState, dir': FileState, name: seq<byte>,
                        oflag: OpenFlags)
    requires g.Fits(|s.disk|) && DirGood(g, s.disk, dir) && |name| == NAME_SIZE && s'.disk == s.disk
    requires DirGood(g, s.disk, dir') && SameHome(dir, dir')
    ensures OpenFailed(g, s, s', dir, dir', name, oflag, true)
  {
    hide Fat, Layout.Fits, DirGood, DirBytes, Has, IsRefused, NotCreated;
    DirGoodMoves(g, s.disk, dir, dir');
    SameIsNotCreated(g, s, s', dir, dir', name);
  }

  lemma FoundFailed(g: Layout, s: CacheState, s1: CacheState, s': CacheState, dir: FileState, dir': FileState,
                    name: seq<byte>, oflag: OpenFlags, closed: bool)
    requires g.Fits(|s.disk|) && DirGood(g, s.disk, dir) && |name| == NAME_SIZE && s1.disk == s.disk
    requires DirGood(g, s.disk, dir') && SameHome(dir, dir') && |s'.disk| == |s.disk| && DirGood(g, s'.disk, dir')
    requires SameNames(DirBytes(g, s.disk, dir'), DirBytes(g, s'.disk, dir')) && Has(DirBytes(g, s.disk, dir), name)
    requires closed || oflag.trunc
    requires IsRefused(g, s.disk, dir, name, oflag) ==> s'.disk == s.disk
    ensures OpenFailed(g, s, s', dir, dir', name, oflag, closed)
  {
    hide Fat, Layout.Fits, DirGood, DirBytes, Has, IsRefused, NotCreated, SameNames;
    DirGoodMoves(g, s.disk, dir, dir');
  }

  lemma NewFailed(g: Layout, s: CacheState, s1: CacheState, s': CacheState, dir: FileState, dir1: FileState,
                  dir': FileState, name: seq<byte>, oflag: OpenFlags)
    requires g.Fits(|s.disk|) && DirGood(g, s.disk, dir) && |name| == NAME_SIZE && s1.disk == s.disk
    requires DirGood(g, s.disk, dir1) && SameHome(dir, dir1)
    requires NotCreated(g, s1, s', dir1, dir', name) && !Has(DirBytes(g, s.disk, dir), name)
    requires IsRefused(g, s.disk, dir, name, oflag) ==> s'.disk == s.disk && dir' == dir1
    ensures OpenFailed(g, s, s', dir, dir', name, oflag, true)
  {
    hide Fat, Layout.Fits, DirGood, DirBytes, Has, IsRefused, Created, LeftUncleared;
    DirGoodMoves(g, s.disk, dir, dir1);
    if left: nat :| NotExtended(g, s1.disk, s'.disk, dir1, dir', left) {
      NotExtendedFrom(g, s.disk, s'.disk, dir, dir1, dir', left);
    } else {
      CreatedFrom(g, s, s1, s', dir, dir1, dir', name);
    }
  }

  lemma NotExtendedFrom(g: Layout, d: Disk, d': Disk, dir: FileState, dir1: FileState, dir': FileState, left: nat)
    requires g.Fits(|d|) && DirGood(g, d, dir) && DirGood(g, d, dir1) && SameHome(dir, dir1)
    requires NotExtended(g, d, d', dir1, dir', left)
    ensures NotExtended(g, d, d', dir, dir', left)
  {
    hide Fat, Layout.Fits, DirGood, DirBytes, Uncleared, ClusterStart;
    DirGoodMoves(g, d, dir, dir1);
  }

  /** What a refusal left is a directory to go on with. */
  lemma RefusedIsWhole(g: Layout, s: CacheState, s': CacheState, dir: FileState, dir': FileState, name: seq<byte>,
                       oflag: OpenFlags, closed: bool)
    requires g.Fits(|s.disk|) && DirGood(g, s.disk, dir) && |name| == NAME_SIZE
    requires OpenFailed(g, s, s', dir, dir', name, oflag, closed) && IsRefused(g, s.disk, dir, name, oflag)
    requires Truthful(g, s.disk, dir)
    ensures s'.disk == s.disk && DirGood(g, s.disk, dir') && DirBytes(g, s.disk, dir') == DirBytes(g, s.disk, dir)
    ensures Truthful(g, s.disk, dir') && (Orderly(g, s.disk, dir) ==> Orderly(g, s.disk, dir'))
    ensures IsRefused(g, s.disk, dir', name, oflag) && SameHome(dir, dir')
  {
    hide Fat, Layout.Fits, DirGood, DirBytes, Has, Truthful, Orderly, NotCreated, SameNames, VacantAt, StopAt;
    DirGoodMoves(g, s.disk, dir, dir');
    TruthMoves(g, s.disk, dir, dir');
  }

  /** The entry that a search stopped at describes a file that is not in the directory. */
  lemma FoundIsDescribed(g: Layout, d: Disk, dir: FileState, k: nat) returns (ch: seq<nat>)
    requires g.Fits(|d|) && DirGood(g, d, dir) && Truthful(g, d, dir) && k < dir.size / ENTRY_SIZE
    requires IsLive(DirBytes(g, d, dir), k) && Mark(DirBytes(g, d, dir), k) != NAME_DOT
    ensures Described(g, d, BlockOf(g, dir, k), k % ENTRIES_PER_BLOCK, ch) && Disjoint(ch, dir.chain)
    ensures IsVolumeLabel(EntryByte(DirBytes(g, d, dir), k, OFF_ATTR)) ==> ch == []
    ensures 0 < BlockOf(g, dir, k) < |d|
  {
    hide Fat, Layout.Fits, DirGood, DirBytes, BlockOf, Sound;
    EntryByteAt(g, d, dir, k, OFF_ATTR);
    if IsVolumeLabel(EntryByte(DirBytes(g, d, dir), k, OFF_ATTR)) {
      return [];
    }
    assert IsDescribed(g, d, dir, k);
    ch :| Described(g, d, BlockOf(g, dir, k), k % ENTRIES_PER_BLOCK, ch) && Disjoint(ch, dir.chain);
  }

  /** Opening an entry keeps the names of its directory, even if the file was truncated half way. */
  lemma OpeningKeepsNames(g: Layout, s: CacheState, s': CacheState, block: nat, index: nat, ch: seq<nat>,
                          ch': seq<nat>, dir: FileState)
    requires g.Fits(|s.disk|) && index < ENTRIES_PER_BLOCK && block < |s.disk|
    requires Described(g, s.disk, block, index, ch) && (IsVolumeLabel(Attributes(s.disk[block], index)) ==> ch == [])
    requires s'.disk == s.disk || (ch' <= ch && Isolated(g, s, s', ch, ch', block, index))
    requires DirGood(g, s.disk, dir) && Disjoint(ch, dir.chain)
    ensures |s'.disk| == |s.disk| && DirGood(g, s'.disk, dir)
    ensures SameNames(DirBytes(g, s.disk, dir), DirBytes(g, s'.disk, dir))
  {
    hide Fat, Layout.Fits, DirGood, DirBytes, Isolated, EntryFirst, EntrySize;
    if s'.disk != s.disk {
      FileOpKeepsNames(g, s, s', Opened(s.disk[block], block, index, ch), ch', dir);
    }
  }

  /** And the directory as orderly and truthful as it was, even if the file was truncated. */
  lemma OpeningStays(g: Layout, s: CacheState, s': CacheState, index: nat, ch: seq<nat>, isDir: bool, trunc: bool,
                     f: FileState, dir: FileState, k: nat)
    requires g.Fits(|s.disk|) && DirGood(g, s.disk, dir) && k < dir.size / ENTRY_SIZE
    requires s.number == BlockOf(g, dir, k) < |s.disk| && index == k % ENTRIES_PER_BLOCK
    requires IsMember(DirBytes(g, s.disk, dir), k) && Orderly(g, s.disk, dir) && Truthful(g, s.disk, dir)
    requires EntryOpened(g, s, s', s.disk[s.number], s.number, index, ch, isDir, trunc, f)
    requires !f.dirDirty
    ensures |s'.disk| == |s.disk| && DirGood(g, s'.disk, dir)
    ensures Orderly(g, s'.disk, dir) && Truthful(g, s'.disk, dir)
  {
    hide Fat, Layout.Fits, DirBytes, DirGood, BlockOf, Orderly, Truthful, Truncated, Good, EntryFirst, EntrySize,
      Attributes, SoleOwner;
    if s'.disk != s.disk {
      var entry := Opened(s.disk[s.number], s.number, index, ch);
      OrderlyOwner(g, s, entry, dir, k);
      FileOpStays(g, s, s', entry, f, dir, k);
    }
  }

  /** An entry that could be opened is that of a file or subdirectory. */
  lemma OpenedIsMember(g: Layout, s: CacheState, s': CacheState, index: nat, ch: seq<nat>, isDir: bool, trunc: bool,
                       f: FileState, dir: FileState, k: nat)
    requires g.Fits(|s.disk|) && DirGood(g, s.disk, dir) && k < dir.size / ENTRY_SIZE
    requires s.number == BlockOf(g, dir, k) < |s.disk| && index == k % ENTRIES_PER_BLOCK
    requires IsLive(DirBytes(g, s.disk, dir), k) && Mark(DirBytes(g, s.disk, dir), k) != NAME_DOT
    requires EntryOpened(g, s, s', s.disk[s.number], s.number, index, ch, isDir, trunc, f)
    ensures IsMember(DirBytes(g, s.disk, dir), k) && f.block == BlockOf(g, dir, k) && f.index == k % ENTRIES_PER_BLOCK
  {
    hide Fat, Layout.Fits, DirBytes, DirGood, BlockOf, Truncated, Good, EntryFirst, EntrySize;
    EntryByteAt(g, s.disk, dir, k, OFF_ATTR);
  }

  lemma MarkOfName(b: seq<byte>, k: nat)
    requires k < Count(b)
    ensures Mark(b, k) == NameAt(b, k)[0]
  {
  }

  /** The entry of a new file. */
  lemma MadeIsDescribed(g: Layout, s: CacheState, s': CacheState, dir: FileState, dir': FileState, name: seq<byte>,
                        index: nat)
    requires g.Fits(|s.disk|) && DirGood(g, s.disk, dir) && |name| == NAME_SIZE
             && EntryMade(g, s, s', dir, dir', name, index)
    ensures Described(g, s'.disk, s'.number, index, []) && Attributes(s'.disk[s'.number], index) == 0
    ensures EntryFirst(s'.disk[s'.number], index) == 0 && EntrySize(s'.disk[s'.number], index) == 0
  {
    hide Fat, Layout.Fits, DirGood, DirBytes, BlockOf, Described, NewEntry, EntryBytes, WithEntry, VacantAt, Entry;
    SlotInUse(g, s'.disk, dir', VacantAt(DirBytes(g, s.disk, dir), 0));
    NewEntryIsDescribed(g, s'.disk, s'.number, index, name);
  }

  /** The handle is on the entry of a file, not of a subdirectory. */
  ghost predicate OfFile(d: Disk, f: FileState) {
    f.block < |d| && f.index < ENTRIES_PER_BLOCK && !IsDirectoryEntry(Attributes(d[f.block], f.index))
  }

  /** `f` is a handle on entry `k` of the directory, the first with that name, which is that of a
      file or subdirectory. */
  ghost predicate IsHandle(g: Layout, d: Disk, dir: FileState, f: FileState, name: seq<byte>, k: nat)
    requires g.Fits(|d|) && DirGood(g, d, dir) && k < dir.size / ENTRY_SIZE
  {
    && IsMember(DirBytes(g, d, dir), k) && IsFirst(DirBytes(g, d, dir), name, k)
    && f.block == BlockOf(g, dir, k) && f.index == k % ENTRIES_PER_BLOCK
  }

  ghost predicate NamedHandle(g: Layout, d: Disk, dir: FileState, f: FileState, name: seq<byte>)
    requires g.Fits(|d|) && DirGood(g, d, dir)
  {
    exists k :: 0 <= k < dir.size / ENTRY_SIZE && IsHandle(g, d, dir, f, name, k)
  }

  lemma FirstKept(b: seq<byte>, b': seq<byte>, name: seq<byte>, k: nat)
    requires SameNames(b, b') && IsFirst(b, name, k)
    ensures IsFirst(b', name, k) && (IsMember(b, k) ==> IsMember(b', k))
  {
    assert SameNameAt(b, b', k);
    forall j | 0 <= j < k
      ensures !(IsLive(b', j) && NameAt(b', j) == name)
    {
      assert SameNameAt(b, b', j);
    }
  }

  lemma FoundHandle(g: Layout, d: Disk, d': Disk, dir: FileState, f: FileState, name: seq<byte>, k: nat)
    requires g.Fits(|d|) && |d'| == |d| && DirGood(g, d, dir) && DirGood(g, d', dir) && k < dir.size / ENTRY_SIZE
    requires SameNames(DirBytes(g, d, dir), DirBytes(g, d', dir))
    requires IsMember(DirBytes(g, d, dir), k) && IsFirst(DirBytes(g, d, dir), name, k)
    requires f.block == BlockOf(g, dir, k) && f.index == k % ENTRIES_PER_BLOCK
    ensures NamedHandle(g, d', dir, f, name)
  {
    hide Fat, Layout.Fits, DirGood, DirBytes, BlockOf;
    FirstKept(DirBytes(g, d, dir), DirBytes(g, d', dir), name, k);
    assert IsHandle(g, d', dir, f, name, k);
  }

  lemma NewHandle(g: Layout, s: CacheState, s': CacheState, dir: FileState, dir': FileState, name: seq<byte>,
                  index: nat, f: FileState)
    requires g.Fits(|s.disk|) && DirGood(g, s.disk, dir) && IsName(name) && EntryMade(g, s, s', dir, dir', name, index)
    requires !Has(DirBytes(g, s.disk, dir), name) && f.block == s'.number && f.index == index
    ensures NamedHandle(g, s'.disk, dir', f, name)
  {
    hide Fat, Layout.Fits, DirGood, DirBytes, BlockOf, NewEntry, EntryBytes, VacantAt, WithEntry;
    var b := DirBytes(g, s.disk, dir);
    var v := VacantAt(b, 0);
    var all := if v < Count(b) then b else b + Zeros(BLOCK_SIZE * g.blocksPerCluster);
    WithEntryReads(all, v, NewEntry(name), v);
    assert NewEntry(name)[..NAME_SIZE][0] == name[0];
    forall j | 0 <= j < v
      ensures NameAt(DirBytes(g, s'.disk, dir'), j) != name
    {
      WithEntryReads(all, v, NewEntry(name), j);
      assert IsLive(b, j) && NameAt(all, j) == NameAt(b, j);
    }
    assert IsHandle(g, s'.disk, dir', f, name, v);
  }

  /** All files are spared but the one that entry `k`, which has the name, describes. */
  ghost predicate SparesButEntry(g: Layout, s: CacheState, s': CacheState, dir: FileState, name: seq<byte>, k: nat,
                                 ch: seq<nat>)
    requires g.Fits(|s.disk|) && DirGood(g, s.disk, dir) && k < dir.size / ENTRY_SIZE
  {
    var block := BlockOf(g, dir, k);
    && IsLive(DirBytes(g, s.disk, dir), k) && NameAt(DirBytes(g, s.disk, dir), k) == name
    && (IsVolumeLabel(EntryByte(DirBytes(g, s.disk, dir), k, OFF_ATTR)) ==> ch == [])
    && Described(g, s.disk, block, k % ENTRIES_PER_BLOCK, ch)
    && Spares(g, s, s', Opened(s.disk[block], block, k % ENTRIES_PER_BLOCK, ch))
  }

  /** All files are spared but the one of that name. */
  ghost predicate SparesButNamed(g: Layout, s: CacheState, s': CacheState, dir: FileState, name: seq<byte>)
    requires g.Fits(|s.disk|) && DirGood(g, s.disk, dir)
  {
    exists k, ch :: 0 <= k < dir.size / ENTRY_SIZE && SparesButEntry(g, s, s', dir, name, k, ch)
  }

  lemma OpeningSpares(g: Layout, s: CacheState, s1: CacheState, s2: CacheState, dir: FileState, dir1: FileState,
                      name: seq<byte>, k: nat, ch: seq<nat>)
    requires g.Fits(|s.disk|) && DirGood(g, s.disk, dir) && dir1 == dir.(pos := dir1.pos, cur := dir1.cur)
    requires k < dir.size / ENTRY_SIZE && FatOnly(g, s, s1) && s1.disk == s.disk
    requires DirGood(g, s.disk, dir1) && SparesButEntry(g, s1, s2, dir1, name, k, ch)
    ensures SparesButNamed(g, s, s2, dir, name) && |s2.disk| == |s.disk|
  {
    hide Fat, Layout.Fits, DirGood, DirBytes, Described, Spares, IsLive, NameAt;
    DirGoodMoves(g, s.disk, dir, dir1);
    var block := BlockOf(g, dir, k);
    DescribedPlace(g, s.disk, block, k % ENTRIES_PER_BLOCK, ch);
    var f := Opened(s.disk[block], block, k % ENTRIES_PER_BLOCK, ch);
    QuietSparesAll(g, s, s1, ch, block, 0, f);
    SparesTrans(g, s, s1, s2, f);
    assert SparesButEntry(g, s, s2, dir, name, k, ch);
  }

  lemma DescribedPlace(g: Layout, d: Disk, block: nat, index: nat, ch: seq<nat>)
    requires g.Fits(|d|) && Described(g, d, block, index, ch)
    ensures block < |d| && index < ENTRIES_PER_BLOCK
  {
    hide Fat, Layout.Fits, DirGood, Sound;
  }

  /** Searching spares all files. */
  lemma SearchingSpares(g: Layout, s: CacheState, s1: CacheState, dir: FileState, name: seq<byte>)
    requires g.Fits(|s.disk|) && DirGood(g, s.disk, dir) && Truthful(g, s.disk, dir)
    requires FatOnly(g, s, s1) && s1.disk == s.disk && IsName(name)
    ensures SparesLive(g, s, s1, dir)
    ensures Has(DirBytes(g, s.disk, dir), name) ==> SparesButNamed(g, s, s1, dir, name)
  {
    hide Fat, Layout.Fits, DirGood, DirBytes, Described, Spares, IsLive, SparesLive;
    QuietSparesLive(g, s, s1, dir);
    if !Has(DirBytes(g, s.disk, dir), name) {
      return;
    }
    var k: nat :| k < Count(DirBytes(g, s.disk, dir)) && IsLive(DirBytes(g, s.disk, dir), k)
                  && NameAt(DirBytes(g, s.disk, dir), k) == name;
    MarkOfName(DirBytes(g, s.disk, dir), k);
    var ch := FoundIsDescribed(g, s.disk, dir, k);
    var block := BlockOf(g, dir, k);
    DescribedPlace(g, s.disk, block, k % ENTRIES_PER_BLOCK, ch);
    QuietSparesAll(g, s, s1, ch, block, 0, Opened(s.disk[block], block, k % ENTRIES_PER_BLOCK, ch));
    assert SparesButEntry(g, s, s1, dir, name, k, ch);
  }

  /** Open the file of an entry that a search has found. */
  method OpenFound(f: SdFile, dir: SdFile, index: nat, oflag: OpenFlags, ghost k: nat)
    returns (ok: bool, ghost ch: seq<nat>)
    requires dir.DirValid() && f != dir && f.vol == dir.vol && f.fileType == Closed
    requires Truthful(f.vol.g, f.vol.cache.disk, dir.Snap())
    requires k < dir.fileSize / ENTRY_SIZE && IsFirst(dir.Listing(), NameAt(dir.Listing(), k), k)
             && Mark(dir.Listing(), k) != NAME_DOT
    requires f.vol.cache.blockNumber == BlockOf(f.vol.g, dir.Snap(), k) && index == k % ENTRIES_PER_BLOCK
    modifies f, f.vol`allocSearchStart, f.vol.cache.Repr()
    ensures f.vol.Valid() && (!oflag.trunc ==> f.vol.cache.disk == old(f.vol.cache.disk))
    ensures SparesButEntry(f.vol.g, old(f.vol.cache.State()), f.vol.cache.State(), old(dir.Snap()),
                           NameAt(old(dir.Listing()), k), k, ch)
    ensures ok ==>
              EntryOpened(f.vol.g, old(f.vol.cache.State()), f.vol.cache.State(),
                          old(f.vol.cache.disk[f.vol.cache.blockNumber]),
                               old(f.vol.cache.blockNumber), index, ch, f.fileType == Subdir, oflag.trunc, f.Snap())
    ensures dir.DirValid() && SameNames(old(dir.Listing()), dir.Listing())
    ensures Refuses(Attributes(old(f.vol.cache.disk[f.vol.cache.blockNumber]), index), oflag)
            || (oflag.trunc && !oflag.write) ==>
              !ok && f.vol.cache.disk == old(f.vol.cache.disk)
    ensures !ok && !oflag.trunc ==> f.fileType == Closed
    ensures oflag.trunc && !Refuses(Attributes(old(f.vol.cache.disk[f.vol.cache.blockNumber]), index), oflag) ==>
              f.fileType == Normal
    ensures ok ==>
      && NamedHandle(f.vol.g, f.vol.cache.disk, dir.Snap(), f.Snap(), NameAt(old(dir.Listing()), k))
      && OpenedWith(f, oflag)
      && (f.fileType == Normal && oflag.trunc ==> f.fileSize == 0)
      && (f.fileType == Normal || f.fileType == Subdir) && (f.fileType == Normal ==> f.Valid())
      && (f.fileType == Subdir ==> f.DirValid())
    ensures ok && old(Orderly(dir.vol.g, dir.vol.cache.disk, dir.Snap())) ==>
              Orderly(dir.vol.g, dir.vol.cache.disk, dir.Snap()) && Truthful(dir.vol.g, dir.vol.cache.disk, dir.Snap())
    ensures f.vol.cache.card.faults >= old(f.vol.cache.card.faults)
    ensures !ok ==>
              f.vol.cache.Excused(old(f.vol.cache.card.faults)) || (oflag.trunc && !oflag.write)
              || Refuses(Attributes(old(f.vol.cache.disk[f.vol.cache.blockNumber]), index), oflag)
    ensures ok ==> OpensAs(EntryByte(old(dir.Listing()), k, OFF_ATTR), oflag, true, f.fileType, false)
  {
    hide Fat, Layout.Fits, SdVolume.Valid, BlockCache.Valid, Spares, Good, DirGood, DirBytes, BlockOf, Described,
      Truthful, Orderly, EntryOpened, SdFile.Valid, NamedHandle, OpenedWith, OpensAs;
    assert f !in dir.vol.Repr() && dir !in dir.vol.Repr();
    ghost var g, s, was := f.vol.g, f.vol.cache.State(), dir.Snap();
    ch := FoundIsDescribed(g, s.disk, was, k);
    ok := OpenCachedEntry(f, index, oflag, ch);
    EntryByteAt(g, s.disk, was, k, OFF_ATTR);
    OpeningKeepsNames(g, s, f.vol.cache.State(), s.number, index, ch, f.chain, was);
    if ok {
      OpenedIsClean(f, oflag);
      OpenedIsMember(g, s, f.vol.cache.State(), index, ch, f.fileType == Subdir, oflag.trunc, f.Snap(), was, k);
      if Orderly(g, s.disk, was) {
        OpeningStays(g, s, f.vol.cache.State(), index, ch, f.fileType == Subdir, oflag.trunc, f.Snap(), was, k);
      }
      FoundHandle(g, s.disk, f.vol.cache.disk, was, f.Snap(), NameAt(DirBytes(g, s.disk, was), k), k);
    }
  }

  /** Create the file of a name that is not there, and open it. */
  method OpenNew(f: SdFile, dir: SdFile, name: seq<byte>, emptyFound: bool, oflag: OpenFlags) returns (ok: bool)
    requires dir.DirValid() && f != dir && f.vol == dir.vol && f.fileType == Closed && IsName(name)
    requires oflag.write && !Has(dir.Listing(), name)
    requires var v := VacantAt(dir.Listing(), 0);
      if emptyFound then v < dir.fileSize / ENTRY_SIZE && f.dirBlock == BlockOf(dir.vol.g, dir.Snap(), v)
                         && f.dirIndex == v % ENTRIES_PER_BLOCK
      else v == dir.fileSize / ENTRY_SIZE && dir.curPosition == dir.fileSize
           && (dir.fileType != Root16 ==> CursorOn(dir.vol.g, dir.chain, dir.curPosition, dir.curCluster))
    requires dir.fileSize + BLOCK_SIZE * dir.vol.g.blocksPerCluster < TWO_32
    modifies f, dir`curPosition, dir`curCluster, dir`firstCluster, dir`dirDirty, dir`chain, dir`fileSize
    modifies f.vol`allocSearchStart, f.vol.cache.Repr()
    ensures f.vol.Valid()
    ensures ok ==>
      && dir.DirValid() && Created(f.vol.g, old(f.vol.cache.State()), f.vol.cache.State(), old(dir.Snap()), dir.Snap(),
                                   name)
      && f.Valid() && f.fileType == Normal && f.fileSize == 0 && f.chain == [] && OpenedWith(f, oflag)
      && NamedHandle(f.vol.g, f.vol.cache.disk, dir.Snap(), f.Snap(), name) && OfFile(f.vol.cache.disk, f.Snap())
      && SparesNew(f.vol.g, old(f.vol.cache.State()), f.vol.cache.State(), old(dir.Snap()), f.dirBlock, f.dirIndex)
    ensures !emptyFound && dir.fileType == Root16 ==>
              !ok && f.vol.cache.disk == old(f.vol.cache.disk) && dir.Snap() == old(dir.Snap())
    ensures SparesLive(f.vol.g, old(f.vol.cache.State()), f.vol.cache.State(), old(dir.Snap()))
    ensures f.vol.cache.card.faults >= old(f.vol.cache.card.faults)
    ensures !ok ==>
              f.vol.cache.Excused(old(f.vol.cache.card.faults)) || AllInUse(Fat(f.vol.g, f.vol.cache.disk))
              || (!emptyFound && dir.fileType == Root16)
    ensures !ok ==>
              f.fileType == Closed
              && NotCreated(f.vol.g, old(f.vol.cache.State()), f.vol.cache.State(), old(dir.Snap()), dir.Snap(), name)
    ensures ok && old(Truthful(dir.vol.g, dir.vol.cache.disk, dir.Snap())) ==>
              Truthful(dir.vol.g, dir.vol.cache.disk, dir.Snap())
    ensures ok && old(Orderly(dir.vol.g, dir.vol.cache.disk, dir.Snap())) ==>
              Orderly(dir.vol.g, dir.vol.cache.disk, dir.Snap())
  {
    hide Fat, Layout.Fits, SdVolume.Valid, BlockCache.Valid, Spares, SparesBut, Good, DirGood, DirBytes, BlockOf,
      Described, Truthful, Orderly, EntryMade, Created, VacantAt, CursorOn, NamedHandle, OpenedWith, NoLiveAt, FatOnly,
      IsPlace, NotCreated, NotExtended;
    assert f !in dir.vol.Repr() && dir !in dir.vol.Repr();
    ghost var g, s, was := f.vol.g, f.vol.cache.State(), dir.Snap();
    ghost var block := f.dirBlock;
    if emptyFound {
      VacantIsNoLive(g, s.disk, was);
      ok := FillSlot(f, dir, name);
    } else {
      if dir.fileType == Root16 {
        QuietSparesLive(g, s, s, was);
        SameIsNotCreated(g, s, s, was, was, name);
        return false;
      }
      ok, block := GrowAndFill(f, dir, name);
    }
    ghost var s1 := f.vol.cache.State();
    assert SparesNew(g, s, s1, was, block, f.dirIndex);
    if ok {
      MadeIsDescribed(g, s, s1, was, dir.Snap(), name, f.dirIndex);
      ghost var index := f.dirIndex;
      ok := OpenCachedEntry(f, f.dirIndex, oflag, []);
      SparesButThen(g, s, s1, f.vol.cache.State(), was.chain, block, index);
      assert SparesNew(g, s, f.vol.cache.State(), was, block, index);
      if ok {
        CreatedLater(g, s, s1, f.vol.cache.State(), was, dir.Snap(), name);
        NewHandle(g, s, s1, was, dir.Snap(), name, f.dirIndex, f.Snap());
        assert OfFile(f.vol.cache.disk, f.Snap());
      }
    }
  }

  lemma CreatedLater(g: Layout, s: CacheState, s1: CacheState, s2: CacheState, dir: FileState, dir': FileState,
                     name: seq<byte>)
    requires g.Fits(|s.disk|) && DirGood(g, s.disk, dir) && |name| == NAME_SIZE
    requires Created(g, s, s1, dir, dir', name) && s2.disk == s1.disk
    ensures Created(g, s, s2, dir, dir', name)
  {
  }

  /** The outcome of opening `name` with success, in a directory with nothing behind its first
      free entry: the file was there, or it was created where there was room. Either way there
      is still nothing behind the first free entry, no name got a twin, and the name is there. */
  ghost predicate OpenedByName(g: Layout, s: CacheState, s': CacheState, dir: FileState, dir': FileState,
                               name: seq<byte>,
                               oflag: OpenFlags)
    requires g.Fits(|s.disk|) && DirGood(g, s.disk, dir) && |name| == NAME_SIZE
  {
    && |s'.disk| == |s.disk| && DirGood(g, s'.disk, dir')
    && (var b, b' := DirBytes(g, s.disk, dir), DirBytes(g, s'.disk, dir');
        && (if Has(b, name) then !(oflag.create && oflag.exclusive) && SameNames(b, b')
            else oflag.create && oflag.write && Created(g, s, s', dir, dir', name))
        && FreeTail(b') && NoNewTwins(b, b') && Has(b', name) && (!Has(b, name) ==> HasOnce(b', name)))
  }

  lemma FoundIsOpened(g: Layout, s: CacheState, s': CacheState, dir: FileState, dir': FileState, name: seq<byte>,
                      oflag: OpenFlags)
    requires g.Fits(|s.disk|) && DirGood(g, s.disk, dir) && |s'.disk| == |s.disk| && DirGood(g, s'.disk, dir')
             && |name| == NAME_SIZE
    requires FreeTail(DirBytes(g, s.disk, dir)) && Has(DirBytes(g, s.disk, dir), name)
             && !(oflag.create && oflag.exclusive)
    requires SameNames(DirBytes(g, s.disk, dir), DirBytes(g, s'.disk, dir'))
    ensures OpenedByName(g, s, s', dir, dir', name, oflag)
  {
    hide Fat, Layout.Fits, DirGood, DirBytes, FreeTail, NoNewTwins, Has, HasOnce;
    SameNamesKeep(DirBytes(g, s.disk, dir), DirBytes(g, s'.disk, dir'), name);
  }

  lemma OnceIsHad(b: seq<byte>, name: seq<byte>)
    requires HasOnce(b, name)
    ensures Has(b, name)
  {
  }

  lemma NewIsOpened(g: Layout, s: CacheState, s': CacheState, dir: FileState, dir': FileState, name: seq<byte>,
                    oflag: OpenFlags)
    requires g.Fits(|s.disk|) && DirGood(g, s.disk, dir) && IsName(name) && Created(g, s, s', dir, dir', name)
    requires FreeTail(DirBytes(g, s.disk, dir)) && !Has(DirBytes(g, s.disk, dir), name) && oflag.create && oflag.write
    ensures OpenedByName(g, s, s', dir, dir', name, oflag)
  {
    hide Fat, Layout.Fits, DirGood, DirBytes, FreeTail, NoNewTwins, Created, Has, Only;
    CreatedKeeps(g, s, s', dir, dir', name);
    OnceIsHad(DirBytes(g, s'.disk, dir'), name);
  }

  lemma StopIsFirst(b: seq<byte>, name: seq<byte>)
    requires StopAt(b, name, 0) < Count(b) && IsLive(b, StopAt(b, name, 0))
    ensures IsFirst(b, name, StopAt(b, name, 0))
  {
    forall j | 0 <= j < StopAt(b, name, 0)
      ensures !(IsLive(b, j) && NameAt(b, j) == name)
    {
      assert !Stops(b, name, j);
    }
  }

  /** What a search reported, in a directory that is in order. */
  lemma ReportTells(g: Layout, d: Disk, dir: FileState, name: seq<byte>, r: Lookup, block: nat, index: nat,
                    emptyFound: bool, slotBlock: nat, slotIndex: nat)
    requires g.Fits(|d|) && DirGood(g, d, dir) && r != Unreadable && FreeTail(DirBytes(g, d, dir))
    requires Reported(g, d, dir, name, r, block, index, emptyFound, slotBlock, slotIndex)
    ensures r == Found <==> Has(DirBytes(g, d, dir), name)
    ensures r == Found && IsName(name) ==>
      var k := StopAt(DirBytes(g, d, dir), name, 0);
      && k < dir.size / ENTRY_SIZE && IsFirst(DirBytes(g, d, dir), name, k) && Mark(DirBytes(g, d, dir), k) != NAME_DOT
      && block == BlockOf(g, dir, k) && index == k % ENTRIES_PER_BLOCK
    ensures r == NotThere ==>
      var v := VacantAt(DirBytes(g, d, dir), 0);
      if emptyFound then v < dir.size / ENTRY_SIZE && slotBlock == BlockOf(g, dir, v)
                         && slotIndex == v % ENTRIES_PER_BLOCK
      else v == dir.size / ENTRY_SIZE
  {
    hide Fat, Layout.Fits, DirGood, DirBytes, FreeTail, Has, BlockOf;
    if r == Found && IsName(name) {
      StopIsFirst(DirBytes(g, d, dir), name);
      MarkOfName(DirBytes(g, d, dir), StopAt(DirBytes(g, d, dir), name, 0));
    }
    SearchIsComplete(DirBytes(g, d, dir), name);
  }

  /** Open a file by name. */
  method Open(f: SdFile, dir: SdFile, fileName: seq<byte>, oflag: OpenFlags) returns (ok: bool)
    requires dir.DirValid() && f != dir && f.vol == dir.vol
    requires Truthful(dir.vol.g, dir.vol.cache.disk, dir.Snap()) && FreeTail(dir.Listing())
    requires dir.fileSize + BLOCK_SIZE * dir.vol.g.blocksPerCluster < TWO_32
    modifies f, dir`curPosition, dir`curCluster, dir`firstCluster, dir`dirDirty, dir`chain, dir`fileSize
    modifies f.vol`allocSearchStart, f.vol.cache.Repr()
    ensures f.vol.Valid()
    ensures old(f.fileType) != Closed || !Is83(fileName) ==>
              !ok && f.vol.cache.State() == old(f.vol.cache.State()) && f.Snap() == old(f.Snap())
              && f.fileType == old(f.fileType)
    ensures ok ==>
      && old(f.fileType) == Closed && Is83(fileName) && dir.DirValid()
      && OpenedByName(f.vol.g, old(f.vol.cache.State()), f.vol.cache.State(), old(dir.Snap()), dir.Snap(),
                      EntryName(fileName), oflag)
      && NamedHandle(f.vol.g, f.vol.cache.disk, dir.Snap(), f.Snap(), EntryName(fileName)) && OpenedWith(f, oflag)
      && NameOpenedAs(old(dir.Listing()), EntryName(fileName), oflag, f.fileType)
      && (!Has(old(dir.Listing()), EntryName(fileName)) ==>
            f.fileType == Normal && f.fileSize == 0 && f.chain == [] && OfFile(f.vol.cache.disk, f.Snap())
            && SparesNew(f.vol.g, old(f.vol.cache.State()), f.vol.cache.State(), old(dir.Snap()), f.dirBlock,
                         f.dirIndex))
      && (f.fileType == Normal && oflag.trunc ==> f.fileSize == 0)
      && (f.fileType == Normal || f.fileType == Subdir) && (f.fileType == Normal ==> f.Valid())
      && (f.fileType == Subdir ==> f.DirValid())
    ensures !ok && old(f.fileType) == Closed && Is83(fileName) ==>
              OpenFailed(f.vol.g, old(f.vol.cache.State()), f.vol.cache.State(), old(dir.Snap()), dir.Snap(),
                         EntryName(fileName), oflag, f.fileType == Closed)
    ensures Is83(fileName) && IsRefused(f.vol.g, old(f.vol.cache.disk), old(dir.Snap()), EntryName(fileName), oflag) ==>
      && !ok && f.vol.cache.disk == old(f.vol.cache.disk) && dir.DirValid()
      && dir.Listing() == old(dir.Listing()) && SameHome(old(dir.Snap()), dir.Snap())
      && Truthful(dir.vol.g, dir.vol.cache.disk, dir.Snap())
      && (old(Orderly(dir.vol.g, dir.vol.cache.disk, dir.Snap())) ==>
            Orderly(dir.vol.g, dir.vol.cache.disk, dir.Snap()))
    ensures old(f.fileType) == Closed && Is83(fileName)
            && LeavesOpen(f.vol.g, old(f.vol.cache.disk), old(dir.Snap()), EntryName(fileName), oflag) ==>
              !ok && (f.fileType == Normal || f.vol.cache.Excused(old(f.vol.cache.card.faults)) || !dir.canRead)
    ensures f.vol.cache.card.faults >= old(f.vol.cache.card.faults)
    ensures !ok ==>
              f.vol.cache.Excused(old(f.vol.cache.card.faults)) || AllInUse(Fat(f.vol.g, f.vol.cache.disk))
              || !dir.canRead
              || old(f.fileType) != Closed || !Is83(fileName)
              || IsRefused(f.vol.g, old(f.vol.cache.disk), old(dir.Snap()), EntryName(fileName), oflag)
    ensures old(f.fileType) == Closed && Is83(fileName) && !Has(old(dir.Listing()), EntryName(fileName)) ==>
              SparesLive(f.vol.g, old(f.vol.cache.State()), f.vol.cache.State(), old(dir.Snap()))
    ensures old(f.fileType) == Closed && Is83(fileName) && Has(old(dir.Listing()), EntryName(fileName)) ==>
      && (!oflag.trunc ==> f.vol.cache.disk == old(f.vol.cache.disk)) && SameHome(old(dir.Snap()), dir.Snap())
      && SparesButNamed(f.vol.g, old(f.vol.cache.State()), f.vol.cache.State(), old(dir.Snap()), EntryName(fileName))
    ensures ok && (!oflag.trunc || !Has(old(dir.Listing()), EntryName(fileName))) ==>
              Truthful(dir.vol.g, dir.vol.cache.disk, dir.Snap())
    ensures ok && old(Orderly(dir.vol.g, dir.vol.cache.disk, dir.Snap())) ==>
              Orderly(dir.vol.g, dir.vol.cache.disk, dir.Snap()) && Truthful(dir.vol.g, dir.vol.cache.disk, dir.Snap())
  {
    hide Fat, Layout.Fits, SdVolume.Valid, BlockCache.Valid, FatOnly, Good, DirGood, DirBytes, Truthful, Orderly,
      NameOpenedAs, Reported, Created, OpenedByName, FreeTail, Has, CursorOn, Is83, EntryName, SdFile.Valid,
      NamedHandle, SparesNew, OfFile, IsRefused, OpenedWith, SparesButNamed, SparesLive, OpenFailed, LeavesOpen;
    assert f !in dir.vol.Repr() && dir !in dir.vol.Repr();
    ok := false;
    if f.fileType != Closed {
      return;
    }
    var dname := new byte[NAME_SIZE];
    var valid := Make83Name(fileName, dname);
    if !valid {
      return;
    }
    NameIsLive(fileName);
    ghost var g, s, was := f.vol.g, f.vol.cache.State(), dir.Snap();
    ok := OpenName(f, dir, dname[..], oflag);
    if !ok && IsRefused(g, s.disk, was, EntryName(fileName), oflag) {
      RefusedIsWhole(g, s, f.vol.cache.State(), was, dir.Snap(), EntryName(fileName), oflag, f.fileType == Closed);
    }
  }

  /** Open a file by the eleven bytes of its entry's name. */
  method OpenName(f: SdFile, dir: SdFile, name: seq<byte>, oflag: OpenFlags) returns (ok: bool)
    requires dir.DirValid() && f != dir && f.vol == dir.vol && f.fileType == Closed && IsName(name)
    requires Truthful(dir.vol.g, dir.vol.cache.disk, dir.Snap()) && FreeTail(dir.Listing())
    requires dir.fileSize + BLOCK_SIZE * dir.vol.g.blocksPerCluster < TWO_32
    modifies f, dir`curPosition, dir`curCluster, dir`firstCluster, dir`dirDirty, dir`chain, dir`fileSize
    modifies f.vol`allocSearchStart, f.vol.cache.Repr()
    ensures f.vol.Valid()
    ensures ok ==>
      && dir.DirValid()
      && OpenedByName(f.vol.g, old(f.vol.cache.State()), f.vol.cache.State(), old(dir.Snap()), dir.Snap(), name, oflag)
      && NamedHandle(f.vol.g, f.vol.cache.disk, dir.Snap(), f.Snap(), name) && OpenedWith(f, oflag)
      && NameOpenedAs(old(dir.Listing()), name, oflag, f.fileType)
      && (!Has(old(dir.Listing()), name) ==>
            f.fileType == Normal && f.fileSize == 0 && f.chain == [] && OfFile(f.vol.cache.disk, f.Snap())
            && SparesNew(f.vol.g, old(f.vol.cache.State()), f.vol.cache.State(), old(dir.Snap()), f.dirBlock,
                         f.dirIndex))
      && (f.fileType == Normal && oflag.trunc ==> f.fileSize == 0)
      && (f.fileType == Normal || f.fileType == Subdir) && (f.fileType == Normal ==> f.Valid())
      && (f.fileType == Subdir ==> f.DirValid())
    ensures !ok ==>
              OpenFailed(f.vol.g, old(f.vol.cache.State()), f.vol.cache.State(), old(dir.Snap()), dir.Snap(), name,
                         oflag, f.fileType == Closed)
    ensures IsRefused(f.vol.g, old(f.vol.cache.disk), old(dir.Snap()), name, oflag) ==> !ok
    ensures LeavesOpen(f.vol.g, old(f.vol.cache.disk), old(dir.Snap()), name, oflag) ==>
              !ok && (f.fileType == Normal || f.vol.cache.Excused(old(f.vol.cache.card.faults)) || !dir.canRead)
    ensures f.vol.cache.card.faults >= old(f.vol.cache.card.faults)
    ensures !ok ==>
              f.vol.cache.Excused(old(f.vol.cache.card.faults)) || AllInUse(Fat(f.vol.g, f.vol.cache.disk))
              || !dir.canRead
              || IsRefused(f.vol.g, old(f.vol.cache.disk), old(dir.Snap()), name, oflag)
    ensures !Has(old(dir.Listing()), name) ==>
              SparesLive(f.vol.g, old(f.vol.cache.State()), f.vol.cache.State(), old(dir.Snap()))
    ensures Has(old(dir.Listing()), name) ==>
      && (!oflag.trunc ==> f.vol.cache.disk == old(f.vol.cache.disk)) && SameHome(old(dir.Snap()), dir.Snap())
      && SparesButNamed(f.vol.g, old(f.vol.cache.State()), f.vol.cache.State(), old(dir.Snap()), name)
    ensures ok && (!oflag.trunc || !Has(old(dir.Listing()), name)) ==>
              Truthful(dir.vol.g, dir.vol.cache.disk, dir.Snap())
    ensures ok && old(Orderly(dir.vol.g, dir.vol.cache.disk, dir.Snap())) ==>
              Orderly(dir.vol.g, dir.vol.cache.disk, dir.Snap()) && Truthful(dir.vol.g, dir.vol.cache.disk, dir.Snap())
  {
    hide Fat, Layout.Fits, SdVolume.Valid, BlockCache.Valid, FatOnly, Good, DirGood, DirBytes, Truthful, Orderly,
      NameOpenedAs, OpensAs, Created, OpenedByName, FreeTail, NoNewTwins, Has, CursorOn, BlockOf, SdFile.Valid,
      NamedHandle, SparesNew, OfFile, IsRefused, OpenedWith, SparesButNamed, SparesButEntry, SparesLive, Refuses,
      Attributes, OpenFailed, NotCreated, LeavesOpen, Reported, StopAt, VacantAt, SameNames, IsLive, Mark, HasOnce;
    assert f !in dir.vol.Repr() && dir !in dir.vol.Repr();
    ghost var g, s, was := f.vol.g, f.vol.cache.State(), dir.Snap();
    var r, index, emptyFound := FindEntry(f, dir, name);
    ghost var s1, dir1 := f.vol.cache.State(), dir.Snap();
    SearchingSpares(g, s, s1, was, name);
    UnchangedFailed(g, s, s1, was, dir1, name, oflag);
    if r == Unreadable {
      return false;
    }
    ReportTells(g, s.disk, dir1, name, r, s1.number, index, emptyFound, f.dirBlock, f.dirIndex);
    TruthMoves(g, s.disk, was, dir1);
    if r == Found {
      ghost var k := StopAt(DirBytes(g, s.disk, dir1), name, 0);
      RefusedWhenFound(g, s.disk, was, dir1, name, oflag);
      if oflag.create && oflag.exclusive {
        return false;
      }
      ghost var ch;
      ok, ch := OpenFound(f, dir, index, oflag, k);
      OpeningSpares(g, s, s1, f.vol.cache.State(), was, dir1, name, k, ch);
      if ok {
        FoundIsOpened(g, s, f.vol.cache.State(), was, dir.Snap(), name, oflag);
        FoundOpenedAs(g, s.disk, was, dir1, name, k, oflag, f.fileType);
      } else {
        FoundFailed(g, s, s1, f.vol.cache.State(), was, dir.Snap(), name, oflag, f.fileType == Closed);
      }
      return;
    }
    RefusedWhenNew(g, s.disk, was, dir1, name, oflag);
    if !(oflag.create && oflag.write) {
      return false;
    }
    ok := OpenNew(f, dir, name, emptyFound, oflag);
    SparesLiveFrom(g, s, s1, f.vol.cache.State(), was, dir1);
    if ok {
      CreatedFrom(g, s, s1, f.vol.cache.State(), was, dir1, dir.Snap(), name);
      NewIsOpened(g, s, f.vol.cache.State(), was, dir.Snap(), name, oflag);
      NotOpenedAs(DirBytes(g, s.disk, was), name, oflag, f.fileType);
      SparesNewFrom(g, s, s1, f.vol.cache.State(), was, dir1, f.dirBlock, f.dirIndex);
    } else {
      NewFailed(g, s, s1, f.vol.cache.State(), was, dir1, dir.Snap(), name, oflag);
    }
  }

  /** Opening a file that was found is refused exactly for its entry. */
  lemma RefusedWhenFound(g: Layout, d: Disk, dir: FileState, dir1: FileState, name: seq<byte>, oflag: OpenFlags)
    requires g.Fits(|d|) && DirGood(g, d, dir) && SameHome(dir, dir1) && DirGood(g, d, dir1)
    requires Has(DirBytes(g, d, dir1), name) && StopAt(DirBytes(g, d, dir1), name, 0) < dir1.size / ENTRY_SIZE
    requires BlockOf(g, dir1, StopAt(DirBytes(g, d, dir1), name, 0)) < |d|
    ensures
      var k := StopAt(DirBytes(g, d, dir1), name, 0);
      IsRefused(g, d, dir, name, oflag) <==>
      (oflag.create && oflag.exclusive) || (oflag.trunc && !oflag.write)
      || Refuses(Attributes(d[BlockOf(g, dir1, k)], k % ENTRIES_PER_BLOCK), oflag)
    ensures Has(DirBytes(g, d, dir), name)
    ensures
      var k := StopAt(DirBytes(g, d, dir1), name, 0);
      LeavesOpen(g, d, dir, name, oflag) <==>
      oflag.trunc && !oflag.write && !(oflag.create && oflag.exclusive)
      && !Refuses(Attributes(d[BlockOf(g, dir1, k)], k % ENTRIES_PER_BLOCK), oflag)
  {
    hide Fat, Layout.Fits, DirGood, DirBytes, Refuses, StopAt, Has;
    DirGoodMoves(g, d, dir, dir1);
  }

  /** And of one that was not found, exactly if it is not to be created or has no place. */
  lemma RefusedWhenNew(g: Layout, d: Disk, dir: FileState, dir1: FileState, name: seq<byte>, oflag: OpenFlags)
    requires g.Fits(|d|) && DirGood(g, d, dir) && SameHome(dir, dir1) && DirGood(g, d, dir1)
    requires !Has(DirBytes(g, d, dir1), name)
    ensures IsRefused(g, d, dir, name, oflag) <==>
            !(oflag.create && oflag.write)
            || (dir.fixed && VacantAt(DirBytes(g, d, dir1), 0) == Count(DirBytes(g, d, dir1)))
    ensures !Has(DirBytes(g, d, dir), name) && !LeavesOpen(g, d, dir, name, oflag)
  {
    hide Fat, Layout.Fits, DirGood, DirBytes, VacantAt, Has;
    DirGoodMoves(g, d, dir, dir1);
  }

  lemma TruthMoves(g: Layout, d: Disk, dir: FileState, dir': FileState)
    requires g.Fits(|d|) && DirGood(g, d, dir) && Truthful(g, d, dir) && dir' == dir.(pos := dir'.pos, cur := dir'.cur)
    ensures DirGood(g, d, dir') && Truthful(g, d, dir') && (Orderly(g, d, dir) ==> Orderly(g, d, dir'))
  {
    hide Fat, Layout.Fits, DirGood, DirBytes, Described, Orderly;
    DirGoodMoves(g, d, dir, dir');
    if Orderly(g, d, dir) {
      OrderlyMoves(g, d, dir, dir');
    }
    forall k | 0 <= k < dir'.size / ENTRY_SIZE && IsMember(DirBytes(g, d, dir'), k)
      ensures IsDescribed(g, d, dir', k)
    {
      assert IsDescribed(g, d, dir, k);
    }
  }

  lemma CreatedFrom(g: Layout, s: CacheState, s1: CacheState, s2: CacheState, dir: FileState, dir1: FileState,
                    dir': FileState, name: seq<byte>)
    requires g.Fits(|s.disk|) && DirGood(g, s.disk, dir) && |name| == NAME_SIZE && s1.disk == s.disk
    requires dir1 == dir.(pos := dir1.pos, cur := dir1.cur) && DirGood(g, s.disk, dir1)
             && Created(g, s1, s2, dir1, dir', name)
    ensures Created(g, s, s2, dir, dir', name)
  {
    hide Fat, Layout.Fits, DirGood, DirBytes;
    DirGoodMoves(g, s.disk, dir, dir1);
  }

  /** Create a file whose clusters are one run, and give it its size. What is in it is what was
      in the clusters. If there is no such run the file is removed again. */
  method CreateContiguous(f: SdFile, dir: SdFile, fileName: seq<byte>, size: nat) returns (ok: bool)
    requires dir.DirValid() && f != dir && f.vol == dir.vol && size < TWO_32
    requires Truthful(dir.vol.g, dir.vol.cache.disk, dir.Snap()) && FreeTail(dir.Listing())
    requires dir.fileSize + BLOCK_SIZE * dir.vol.g.blocksPerCluster < TWO_32
    modifies f, dir`curPosition, dir`curCluster, dir`firstCluster, dir`dirDirty, dir`chain, dir`fileSize
    modifies f.vol`allocSearchStart, f.vol.cache.Repr()
    ensures f.vol.Valid()
    ensures size == 0 || old(f.fileType) != Closed || !Is83(fileName)
            || IsRefused(f.vol.g, old(f.vol.cache.disk), old(dir.Snap()), EntryName(fileName), NewFile()) ==>
              !ok && f.vol.cache.disk == old(f.vol.cache.disk)
    ensures Is83(fileName)
            && IsRefused(f.vol.g, old(f.vol.cache.disk), old(dir.Snap()), EntryName(fileName), NewFile()) ==>
              dir.DirValid() && dir.Listing() == old(dir.Listing()) && SameHome(old(dir.Snap()), dir.Snap())
    ensures size > 0 && old(f.fileType) == Closed && Is83(fileName)
            && !Has(old(dir.Listing()), EntryName(fileName)) ==>
              SparesLive(f.vol.g, old(f.vol.cache.State()), f.vol.cache.State(), old(dir.Snap()))
    ensures ok ==>
      && f.Valid() && f.fileType == Normal && f.fileSize == size && f.firstCluster >= 2
      && f.chain == Run(f.firstCluster, ClustersFor(f.vol.g, size))
      && f.canRead && f.canWrite && !f.append && !f.syncWrites && f.curPosition == 0
      && !f.dirDirty && !f.vol.cache.dirty && f.vol.cache.card.blocks == f.vol.cache.disk
      && dir.DirValid() && FreeTail(dir.Listing()) && NoNewTwins(old(dir.Listing()), dir.Listing())
      && HasOnce(dir.Listing(), EntryName(fileName))
      && NamedHandle(f.vol.g, f.vol.cache.disk, dir.Snap(), f.Snap(), EntryName(fileName))
      && SparesNew(f.vol.g, old(f.vol.cache.State()), f.vol.cache.State(), old(dir.Snap()), f.dirBlock, f.dirIndex)
      && (old(Orderly(dir.vol.g, dir.vol.cache.disk, dir.Snap())) ==>
            Orderly(dir.vol.g, dir.vol.cache.disk, dir.Snap()) && Truthful(dir.vol.g, dir.vol.cache.disk, dir.Snap()))
    ensures f.vol.cache.card.faults >= old(f.vol.cache.card.faults)
    ensures !ok ==>
              f.vol.cache.Excused(old(f.vol.cache.card.faults)) || AllInUse(Fat(f.vol.g, f.vol.cache.disk))
              || size == 0 || !dir.canRead || old(f.fileType) != Closed || !Is83(fileName)
              || IsRefused(f.vol.g, old(f.vol.cache.disk), old(dir.Snap()), EntryName(fileName), NewFile())
              || (f.fileType == Closed && dir.DirValid()
                  && NoRun(Fat(f.vol.g, f.vol.cache.disk), 2, f.vol.g.Clusters(), ClustersFor(f.vol.g, size))
                  && FreeTail(dir.Listing()) && NoNewTwins(old(dir.Listing()), dir.Listing())
                  && !Has(dir.Listing(), EntryName(fileName))
                  && (old(Orderly(dir.vol.g, dir.vol.cache.disk, dir.Snap())) ==>
                        Orderly(dir.vol.g, dir.vol.cache.disk, dir.Snap())
                        && Truthful(dir.vol.g, dir.vol.cache.disk, dir.Snap())))
  {
    hide Fat, Layout.Fits, SdVolume.Valid, BlockCache.Valid, Good, DirGood, DirBytes, Truthful, FreeTail, Has, Is83,
      EntryName, SdFile.Valid, NamedHandle, Run, ClustersFor, Spares, IsRefused, AllInUse, SparesLive, SparesNew,
      SparesButNamed, Created, OpenedByName, Removed, NoRun, NoNewTwins, HasOnce, Orderly, OfFile, Confined, OpenedWith;
    assert f !in dir.vol.Repr() && dir !in dir.vol.Repr();
    if size == 0 {
      return false;
    }
    if Is83(fileName) {
      ThereIsRefused(dir.vol.g, dir.vol.cache.disk, dir.Snap(), EntryName(fileName));
    }
    ghost var g, s0, dir0 := f.vol.g, f.vol.cache.State(), dir.Snap();
    ok := Open(f, dir, fileName, NewFile());
    if ok {
      ghost var s, made, now := f.vol.cache.State(), f.Snap(), dir.Snap();
      OpenedAnew(g, s0, s, dir0, now, EntryName(fileName), NewFile());
      OpenedIsClean(f, NewFile());
      assert Good(g, s, made) && made.block < |s.disk| && made.index < 16 by {
        ValidIsGood(f);
      }
      ok := f.Preallocate(size);
      ghost var s' := f.vol.cache.State();
      NewThenSpares(g, s0, s, s', dir0, now, made, EntryName(fileName));
      if ok {
        assert Good(g, s', f.Snap()) by {
          ValidIsGood(f);
        }
        FilledKeeps(g, s0, s, s', made, f.Snap(), dir0, now, EntryName(fileName));
      } else if Removed(g, s, s', made) {
        RemovedAgain(g, s0, s, s', made, dir0, now, EntryName(fileName));
      }
    }
  }

  lemma ValidIsGood(f: SdFile)
    requires f.Valid() && f.fileType == Normal
    ensures f.vol.g.Fits(|f.vol.cache.disk|) && Good(f.vol.g, f.vol.cache.State(), f.Snap())
    ensures f.Snap().block < |f.vol.cache.disk| && f.Snap().index < 16
  {
    hide Fat, Layout.Fits, SdVolume.Valid, BlockCache.Valid, Good;
    GoodIsUsable(f.vol.g, f.vol.cache.State(), f.Snap());
    SlotFacts(f.vol.g, f.vol.cache.disk, f.Snap(), f.Snap().size);
  }

  function NewFile(): OpenFlags {
    OpenFlags(true, true, false, false, true, true, false)
  }

  /** A name that is there is refused. */
  lemma ThereIsRefused(g: Layout, d: Disk, dir: FileState, name: seq<byte>)
    requires g.Fits(|d|) && DirGood(g, d, dir)
    ensures Has(DirBytes(g, d, dir), name) ==> IsRefused(g, d, dir, name, NewFile())
  {
    hide Fat, Layout.Fits, DirGood, DirBytes, Has, StopAt, VacantAt;
  }

  lemma OpenedAnew(g: Layout, s: CacheState, s': CacheState, dir: FileState, dir': FileState, name: seq<byte>,
                   oflag: OpenFlags)
    requires g.Fits(|s.disk|) && DirGood(g, s.disk, dir) && |name| == NAME_SIZE && oflag.create && oflag.exclusive
    requires OpenedByName(g, s, s', dir, dir', name, oflag)
    ensures !Has(DirBytes(g, s.disk, dir), name) && Created(g, s, s', dir, dir', name) && |s'.disk| == |s.disk|
    ensures DirGood(g, s'.disk, dir')
    ensures
      var b, b' := DirBytes(g, s.disk, dir), DirBytes(g, s'.disk, dir');
      FreeTail(b') && NoNewTwins(b, b') && HasOnce(b', name)
  {
    hide Fat, Layout.Fits, DirGood, DirBytes, Created, FreeTail, Has, HasOnce, NoNewTwins;
  }

  /** What spares all others while there is a new file, and no more than its entry, spares all
      that were there before it. */
  lemma NewThenSpares(g: Layout, s0: CacheState, s: CacheState, s': CacheState, dir0: FileState, dir: FileState,
                      f: FileState, name: seq<byte>)
    requires g.Fits(|s0.disk|) && DirGood(g, s0.disk, dir0) && |name| == NAME_SIZE
    requires Created(g, s0, s, dir0, dir, name) && SparesNew(g, s0, s, dir0, f.block, f.index) && f.chain == []
    requires NamedHandle(g, s.disk, dir, f, name) && Spares(g, s, s', f)
    ensures SparesNew(g, s0, s', dir0, f.block, f.index) && SparesLive(g, s0, s', dir0)
  {
    hide Fat, Layout.Fits, DirGood, DirBytes, Good, Spared, FatConfined, BlockOf, NoLiveAt, IsMember, WithEntry, Owns,
      IsPlace;
    forall h: FileState | Good(g, s0, h) && Disjoint(dir0.chain, h.chain) && (h.block != f.block || h.index != f.index)
      ensures Spared(g, s0, s', h)
    {
      assert Spared(g, s0, s, h);
      SparedIsGood(g, s0, s, h);
      var k :| 0 <= k < dir.size / ENTRY_SIZE && IsHandle(g, s.disk, dir, f, name, k);
      GoodApart(g, s0, s, dir0.chain, dir.chain, h);
      DirNotOwned(g, s.disk, dir, k, h.chain);
      assert Separate(g, f, h) by {
        NothingOwned(g, h.block);
      }
      assert Spared(g, s, s', h);
      SparedTrans(g, s0, s, s', h);
    }
    assert SparesNew(g, s0, s', dir0, f.block, f.index);
  }

  lemma NothingOwned(g: Layout, block: nat)
    requires g.blocksPerCluster > 0
    ensures !Owns(g, [], block)
  {
  }

  lemma GoodApart(g: Layout, s: CacheState, s': CacheState, ch: seq<nat>, ch': seq<nat>, h: FileState)
    requires g.Fits(|s.disk|) && |s'.disk| == |s.disk| && Good(g, s, h) && Disjoint(ch, h.chain)
    requires FatConfined(Fat(g, s.disk), Fat(g, s'.disk), ch, ch') && InRange(g, ch')
    ensures Disjoint(ch', h.chain)
  {
    hide Fat, Layout.Fits, FatConfined, HasChain, TailClean, CursorOn;
    OtherChainKept(Fat(g, s.disk), Fat(g, s'.disk), g.EocMin(), ch, ch', h.first, h.chain);
  }

  /** The new file got its clusters, and its entry was written: the directory still has the name
      once, and is as orderly and truthful as it was. */
  lemma FilledKeeps(g: Layout, s0: CacheState, s: CacheState, s': CacheState, f: FileState, f': FileState,
                    dir0: FileState, dir: FileState, name: seq<byte>)
    requires g.Fits(|s.disk|) && |s0.disk| == |s.disk| && DirGood(g, s0.disk, dir0) && DirGood(g, s.disk, dir)
    requires Good(g, s, f) && !f.dirDirty && f.chain == [] && OfFile(s.disk, f) && NamedHandle(g, s.disk, dir, f, name)
    requires Confined(g, s, s', [], f'.chain, f.block, f.index) && Good(g, s', f') && !f'.dirDirty
    requires f'.block == f.block && f'.index == f.index
    requires
      var b0, b := DirBytes(g, s0.disk, dir0), DirBytes(g, s.disk, dir);
      FreeTail(b) && NoNewTwins(b0, b) && HasOnce(b, name)
    ensures DirGood(g, s'.disk, dir) && NamedHandle(g, s'.disk, dir, f', name)
    ensures
      var b0, b' := DirBytes(g, s0.disk, dir0), DirBytes(g, s'.disk, dir);
      FreeTail(b') && NoNewTwins(b0, b') && HasOnce(b', name)
    ensures Orderly(g, s.disk, dir) ==>
              Orderly(g, s'.disk, dir) && (Truthful(g, s.disk, dir) ==> Truthful(g, s'.disk, dir))
  {
    hide Fat, Layout.Fits, DirGood, DirBytes, Good, BlockOf, FreeTail, NoNewTwins, HasOnce, Isolated, Confined, Orderly,
      Truthful, IsMember, SoleOwner, Attributes;
    var b0, b := DirBytes(g, s0.disk, dir0), DirBytes(g, s.disk, dir);
    ConfinedIsIsolated(g, s, s', [], f'.chain, f.block, f.index);
    FileOpKeepsNames(g, s, s', f, f'.chain, dir);
    SameNamesKeep(b, DirBytes(g, s'.disk, dir), name);
    NoNewTwinsTrans(b0, b, DirBytes(g, s'.disk, dir));
    var k: nat :| k < dir.size / ENTRY_SIZE && IsHandle(g, s.disk, dir, f, name, k);
    FoundHandle(g, s.disk, s'.disk, dir, f', name, k);
    if Orderly(g, s.disk, dir) {
      OrderlyOwner(g, s, f, dir, k);
      FileOpStays(g, s, s', f, f', dir, k);
    }
  }

  lemma ConfinedIsIsolated(g: Layout, s: CacheState, s': CacheState, ch: seq<nat>, ch': seq<nat>, block: nat,
                           index: nat)
    requires g.Fits(|s.disk|) && Confined(g, s, s', ch, ch', block, index)
    ensures |s'.disk| == |s.disk| && Isolated(g, s, s', ch, ch', block, index)
  {
    hide Fat, Layout.Fits, Isolated;
  }

  /** The new file is removed again: its name is gone, and the directory is as it was in all
      other ways. */
  lemma RemovedAgain(g: Layout, s0: CacheState, s: CacheState, s': CacheState, f: FileState, dir0: FileState,
                     dir: FileState, name: seq<byte>)
    requires g.Fits(|s.disk|) && |s0.disk| == |s.disk| && DirGood(g, s0.disk, dir0) && DirGood(g, s.disk, dir)
    requires Good(g, s, f) && !f.dirDirty && f.chain == [] && Removed(g, s, s', f)
    requires NamedHandle(g, s.disk, dir, f, name)
    requires
      var b0, b := DirBytes(g, s0.disk, dir0), DirBytes(g, s.disk, dir);
      FreeTail(b) && NoNewTwins(b0, b) && HasOnce(b, name)
    ensures DirGood(g, s'.disk, dir)
    ensures
      var b0, b' := DirBytes(g, s0.disk, dir0), DirBytes(g, s'.disk, dir);
      FreeTail(b') && NoNewTwins(b0, b') && !Has(b', name)
    ensures Orderly(g, s.disk, dir) ==>
              Orderly(g, s'.disk, dir) && (Truthful(g, s.disk, dir) ==> Truthful(g, s'.disk, dir))
  {
    hide Fat, Layout.Fits, DirGood, DirBytes, Removed, Good, FreeTail, NoNewTwins, Has, BlockOf, Orderly, Truthful,
      SoleOwner, HasOnce, Only;
    var b0, b := DirBytes(g, s0.disk, dir0), DirBytes(g, s.disk, dir);
    var k: nat :| k < dir.size / ENTRY_SIZE && IsHandle(g, s.disk, dir, f, name, k);
    RemovedFromDirectory(g, s, s', f, dir, k);
    OnceIsOnly(b, name, k);
    NoNewTwinsTrans(b0, b, DirBytes(g, s'.disk, dir));
    if Orderly(g, s.disk, dir) {
      OrderlyOwner(g, s, f, dir, k);
      RemovedStays(g, s, s', f, dir, k);
    }
  }

  lemma OnceIsOnly(b: seq<byte>, name: seq<byte>, k: nat)
    requires HasOnce(b, name) && k < Count(b) && IsLive(b, k) && NameAt(b, k) == name
    ensures Only(b, name, k)
  {
    var j :| 0 <= j < Count(b) && Only(b, name, j);
    assert j == k;
  }
}
