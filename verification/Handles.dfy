/** Handles opened by name from one directory are what a run of a program starts from
    (Modules/SD/SdFile.cpp:421-507, 553-592; Modules/SD/SdFatmainpage.h:131-132). */
module Handles {
  import opened Bytes
  import opened Layouts
  import opened Chains
  import opened Cache
  import opened FileModel
  import opened Entries
  import opened DirModel
  import opened DirInvariant
  import opened Directory
  import opened Volume
  import opened Names
  import opened File
  import opened Scripts
  import opened Session

  /** A handle on the entry of that name, in agreement with it. */
  ghost predicate Fresh(g: Layout, s: CacheState, dir: FileState, f: FileState, name: seq<byte>)
    requires g.Fits(|s.disk|) && DirGood(g, s.disk, dir)
  {
    Good(g, s, f) && !f.dirDirty && NamedHandle(g, s.disk, dir, f, name)
  }

  /** The file has the bytes it had. */
  ghost predicate SameBytes(g: Layout, d: Disk, d': Disk, f: FileState)
    requires g.Fits(|d|)
  {
    && |d'| == |d| && InRange(g, f.chain) && Room(g, f.chain, f.size)
    && FileBytes(g, d', f.chain, f.size) == FileBytes(g, d, f.chain, f.size)
  }

  lemma FreshOwner(g: Layout, s: CacheState, dir: FileState, f: FileState, name: seq<byte>) returns (k: nat)
    requires g.Fits(|s.disk|) && DirGood(g, s.disk, dir) && Orderly(g, s.disk, dir) && Fresh(g, s, dir, f, name)
    ensures k < dir.size / ENTRY_SIZE && SoleOwner(g, s, f, dir, k) && IsHandle(g, s.disk, dir, f, name, k)
    ensures FirstAt(g, s.disk, dir, k) == f.first
  {
    hide Fat, Layout.Fits, DirGood, DirBytes, BlockOf, Orderly, SoleOwner, TailClean, CursorOn, EntryFirst, EntrySize;
    k :| k < dir.size / ENTRY_SIZE && IsHandle(g, s.disk, dir, f, name, k);
    OrderlyOwner(g, s, f, dir, k);
    EntryInBlock(g, s.disk, dir, k);
  }

  /** The only owners of different entries share nothing. */
  lemma OwnersApart(g: Layout, s: CacheState, dir: FileState, f: FileState, k: nat, h: FileState, l: nat)
    requires g.Fits(|s.disk|) && DirGood(g, s.disk, dir) && WellFormed(Fat(g, s.disk), g.EocMin()) && k != l
    requires SoleOwner(g, s, f, dir, k) && SoleOwner(g, s, h, dir, l) && (f.first == 0 || h.first != f.first)
    ensures Separate(g, f, h)
  {
    hide Fat, Layout.Fits, DirGood, DirBytes, BlockOf, WellFormed, TailClean, CursorOn, FirstAt, Owns, IsChain,
      Disjoint, Sound;
    SoundChain(g, s.disk, h);
    ChainsApart(g, s, f, h.first, h.chain);
    DisjointBothWays(f.chain, dir.chain);
    DisjointBothWays(h.chain, dir.chain);
    DirNotOwned(g, s.disk, dir, k, h.chain);
    DirNotOwned(g, s.disk, dir, l, f.chain);
    if f.block == h.block && f.index == h.index {
      SameSlot(g, |s.disk|, dir, k, l);
    }
  }

  /** Two such handles with different names share nothing. */
  lemma NamesApart(g: Layout, s: CacheState, dir: FileState, f: FileState, h: FileState, name: seq<byte>,
                   other: seq<byte>)
    requires g.Fits(|s.disk|) && DirGood(g, s.disk, dir) && Orderly(g, s.disk, dir) && name != other
    requires Fresh(g, s, dir, f, name) && Fresh(g, s, dir, h, other)
    ensures Separate(g, f, h)
  {
    hide Fat, Layout.Fits, DirGood, DirBytes, BlockOf, WellFormed, Good, Rooted, FirstAt, NamedHandle, Separate,
      Disjoint, StartsFile, NameAt;
    var k := FreshOwner(g, s, dir, f, name);
    var l := FreshOwner(g, s, dir, h, other);
    OwnersApart(g, s, dir, f, k, h, l);
  }

  /** Any number of handles opened by different names from one orderly directory are together:
      what a program asks of its files. */
  lemma HandlesTogether(g: Layout, s: CacheState, dir: FileState, fs: seq<FileState>, names: seq<seq<byte>>)
    requires g.Fits(|s.disk|) && DirGood(g, s.disk, dir) && Orderly(g, s.disk, dir) && |names| == |fs|
    requires forall i :: 0 <= i < |fs| ==> Fresh(g, s, dir, fs[i], names[i])
    requires forall i, j :: 0 <= i < j < |fs| ==> names[i] != names[j]
    ensures Together(g, s, fs)
  {
    hide Fat, Layout.Fits, DirGood, DirBytes, BlockOf, WellFormed, StartsFile, Rooted, Good, FirstAt, Separate,
      NamedHandle;
    forall i | 0 <= i < |fs|
      ensures Good(g, s, fs[i]) && Rooted(Fat(g, s.disk), fs[i].chain)
    {
      var k := FreshOwner(g, s, dir, fs[i], names[i]);
    }
    forall i, j | 0 <= i < |fs| && 0 <= j < |fs| && i != j
      ensures Separate(g, fs[i], fs[j])
    {
      assert names[i] != names[j];
      NamesApart(g, s, dir, fs[i], fs[j], names[i], names[j]);
    }
  }

  // ---- Opening one file after another -----------------------------------------------------------

  /** An entry with a name is apart from a handle on the entry of another name. */
  lemma EntryApart(g: Layout, s: CacheState, dir: FileState, f: FileState, k: nat, l: nat, ch: seq<nat>)
    requires g.Fits(|s.disk|) && DirGood(g, s.disk, dir) && Orderly(g, s.disk, dir) && SoleOwner(g, s, f, dir, k)
    requires l < dir.size / ENTRY_SIZE && l != k && IsLive(DirBytes(g, s.disk, dir), l)
             && Mark(DirBytes(g, s.disk, dir), l) != NAME_DOT
    requires Described(g, s.disk, BlockOf(g, dir, l), l % ENTRIES_PER_BLOCK, ch)
    requires IsVolumeLabel(EntryByte(DirBytes(g, s.disk, dir), l, OFF_ATTR)) ==> ch == []
    ensures BlockOf(g, dir, l) < |s.disk|
    ensures Separate(g, Opened(s.disk[BlockOf(g, dir, l)], BlockOf(g, dir, l), l % ENTRIES_PER_BLOCK, ch), f)
  {
    hide Fat, Layout.Fits, DirGood, DirBytes, BlockOf, WellFormed, TailClean, CursorOn, Owns, IsChain, Disjoint, Sound,
      EntryFirst, EntrySize, Rooted;
    var block, index := BlockOf(g, dir, l), l % ENTRIES_PER_BLOCK;
    EntryByteAt(g, s.disk, dir, l, OFF_ATTR);
    var other := Opened(s.disk[block], block, index, ch);
    if ch != [] {
      DescribedChain(g, s.disk, dir, l, ch);
      ApartFromDir(g, s.disk, dir, other.first, ch);
    }
    assert Disjoint(f.chain, ch) && Disjoint(ch, dir.chain) by {
      if ch == [] {
        NoneDisjoint(f.chain, dir.chain);
      } else {
        ChainsApart(g, s, f, other.first, ch);
      }
    }
    DisjointBothWays(f.chain, ch);
    DisjointBothWays(f.chain, dir.chain);
    DisjointBothWays(ch, dir.chain);
    DirNotOwned(g, s.disk, dir, l, f.chain);
    DirNotOwned(g, s.disk, dir, k, ch);
    if block == f.block && index == f.index {
      SameSlot(g, |s.disk|, dir, k, l);
    }
  }

  lemma NoneDisjoint(a: seq<nat>, b: seq<nat>)
    ensures Disjoint(a, []) && Disjoint([], b)
  {
  }

  lemma DescribedChain(g: Layout, d: Disk, dir: FileState, l: nat, ch: seq<nat>)
    requires g.Fits(|d|) && DirGood(g, d, dir) && l < dir.size / ENTRY_SIZE && IsMember(DirBytes(g, d, dir), l)
    requires BlockOf(g, dir, l) < |d| && Described(g, d, BlockOf(g, dir, l), l % ENTRIES_PER_BLOCK, ch) && ch != []
    requires Orderly(g, d, dir)
    ensures
      var first := EntryFirst(d[BlockOf(g, dir, l)], l % ENTRIES_PER_BLOCK);
      && IsChain(Fat(g, d), g.EocMin(), ch) && ch[0] == first != 0 && IsHead(Fat(g, d), first)
      && StartsFile(Fat(g, d), dir.chain, first)
  {
    hide Fat, Layout.Fits, DirBytes, BlockOf, WellFormed, IsChain, Disjoint, EntryFirst, EntrySize, Rooted, DirGood,
      Sound;
    EntryByteAt(g, d, dir, l, OFF_ATTR);
    var block, index := BlockOf(g, dir, l), l % ENTRIES_PER_BLOCK;
    assert FirstAt(g, d, dir, l) == EntryFirst(d[block], index);
    if IsDirectoryEntry(Attributes(d[block], index)) {
      DirChainIs(g, d, OpenedDir(g, d[block], block, index, ch));
    } else {
      SoundChain(g, d, Opened(d[block], block, index, ch));
    }
  }

  /** A handle is as it was after another name was found, even if that file was truncated. */
  lemma FreshWhenFound(g: Layout, s: CacheState, s': CacheState, dir: FileState, dir': FileState, f: FileState,
                       name: seq<byte>, other: seq<byte>)
    requires g.Fits(|s.disk|) && DirGood(g, s.disk, dir) && Orderly(g, s.disk, dir) && Fresh(g, s, dir, f, name)
    requires name != other && IsName(other) && SparesButNamed(g, s, s', dir, other)
    requires |s'.disk| == |s.disk| && DirGood(g, s'.disk, dir')
             && SameNames(DirBytes(g, s.disk, dir), DirBytes(g, s'.disk, dir'))
    requires dir'.fixed == dir.fixed && dir'.chain == dir.chain && dir'.size == dir.size
    ensures Fresh(g, s', dir', f, name) && SameBytes(g, s.disk, s'.disk, f)
  {
    hide Fat, Layout.Fits, DirGood, DirBytes, BlockOf, Good, Orderly, SoleOwner, Described, Separate, FirstAt, Spared,
      IsMember, NameAt, Mark, FileBytes, SameBytes;
    var k := FreshOwner(g, s, dir, f, name);
    var l: nat, ch :| l < dir.size / ENTRY_SIZE && SparesButEntry(g, s, s', dir, other, l, ch);
    NameIsNoDot(DirBytes(g, s.disk, dir), l, other);
    EntryApart(g, s, dir, f, k, l, ch);
    assert Spared(g, s, s', f);
    SparedIsGood(g, s, s', f);
    SparedBytes(g, s, s', f);
    MovedHandle(g, s.disk, s'.disk, dir, dir', f, name, k);
  }

  lemma SparedBytes(g: Layout, s: CacheState, s': CacheState, h: FileState)
    requires g.Fits(|s.disk|) && |s'.disk| == |s.disk| && Good(g, s, h) && Spared(g, s, s', h)
    ensures SameBytes(g, s.disk, s'.disk, h)
  {
    hide Fat, Layout.Fits, Good, FileBytes;
  }

  lemma NameIsNoDot(b: seq<byte>, l: nat, name: seq<byte>)
    requires l < Count(b) && NameAt(b, l) == name && IsName(name)
    ensures Mark(b, l) != NAME_DOT
  {
    MarkOfName(b, l);
  }

  lemma MovedHandle(g: Layout, d: Disk, d': Disk, dir: FileState, dir': FileState, f: FileState, name: seq<byte>,
                    k: nat)
    requires g.Fits(|d|) && |d'| == |d| && DirGood(g, d, dir) && DirGood(g, d', dir') && k < dir.size / ENTRY_SIZE
    requires SameNames(DirBytes(g, d, dir), DirBytes(g, d', dir')) && IsHandle(g, d, dir, f, name, k)
    requires dir'.fixed == dir.fixed && dir'.chain == dir.chain && dir'.size == dir.size
    ensures NamedHandle(g, d', dir', f, name)
  {
    hide Fat, Layout.Fits, DirGood, DirBytes;
    FirstKept(DirBytes(g, d, dir), DirBytes(g, d', dir'), name, k);
    assert IsHandle(g, d', dir', f, name, k);
  }

  /** And after another name was created. */
  lemma FreshWhenCreated(g: Layout, s: CacheState, s': CacheState, dir: FileState, dir': FileState, f: FileState,
                         name: seq<byte>, other: seq<byte>)
    requires g.Fits(|s.disk|) && DirGood(g, s.disk, dir) && Orderly(g, s.disk, dir) && Fresh(g, s, dir, f, name)
    requires |other| == NAME_SIZE && name != other && SparesLive(g, s, s', dir) && Created(g, s, s', dir, dir', other)
    ensures Fresh(g, s', dir', f, name) && SameBytes(g, s.disk, s'.disk, f)
  {
    hide Fat, Layout.Fits, DirGood, DirBytes, BlockOf, Good, Orderly, Spared, FirstAt, FatConfined, WithEntry, NewEntry,
      VacantAt, NameAt, Rooted, FileBytes, SameBytes;
    var k := FreshOwner(g, s, dir, f, name);
    var block, index :| SparesNew(g, s, s', dir, block, index);
    assert Spared(g, s, s', f) by {
      DisjointBothWays(f.chain, dir.chain);
    }
    SparedIsGood(g, s, s', f);
    SparedBytes(g, s, s', f);
    CreatedHandle(g, s, s', dir, dir', f, name, other, k);
  }

  lemma CreatedHandle(g: Layout, s: CacheState, s': CacheState, dir: FileState, dir': FileState, f: FileState,
                      name: seq<byte>, other: seq<byte>, k: nat)
    requires g.Fits(|s.disk|) && DirGood(g, s.disk, dir) && |other| == NAME_SIZE && k < dir.size / ENTRY_SIZE
             && name != other
    requires Created(g, s, s', dir, dir', other) && IsHandle(g, s.disk, dir, f, name, k)
    ensures NamedHandle(g, s'.disk, dir', f, name)
  {
    hide Fat, Layout.Fits, DirGood, DirBytes, FatConfined, WithEntry, NewEntry, VacantAt, BlockOf;
    var b, b' := DirBytes(g, s.disk, dir), DirBytes(g, s'.disk, dir');
    var v := VacantAt(b, 0);
    var all := if v < Count(b) then b else b + Zeros(BLOCK_SIZE * g.blocksPerCluster);
    assert k != v;
    assert |b| == ENTRY_SIZE * Count(b);
    forall j | 0 <= j <= k
      ensures Mark(all, j) == Mark(b, j) && NameAt(all, j) == NameAt(b, j)
              && EntryByte(all, j, OFF_ATTR) == EntryByte(b, j, OFF_ATTR)
    {
    }
    StillFirst(b, all, name, k);
    FirstWhenOther(all, v, NewEntry(other), name, k);
    BlockOfLonger(g, s.disk, dir, dir', k);
    assert IsHandle(g, s'.disk, dir', f, name, k);
  }

  lemma StillFirst(b: seq<byte>, all: seq<byte>, name: seq<byte>, k: nat)
    requires IsFirst(b, name, k) && IsMember(b, k) && k < Count(all)
    requires forall j :: 0 <= j <= k ==> Mark(all, j) == Mark(b, j) && NameAt(all, j) == NameAt(b, j)
    requires EntryByte(all, k, OFF_ATTR) == EntryByte(b, k, OFF_ATTR)
    ensures IsFirst(all, name, k) && IsMember(all, k)
  {
    assert Mark(all, k) == Mark(b, k);
  }

  /** An entry of another name leaves the first of a name where it is. */
  lemma FirstWhenOther(b: seq<byte>, v: nat, e: seq<byte>, name: seq<byte>, k: nat)
    requires v < Count(b) && |e| == ENTRY_SIZE && e[..NAME_SIZE] != name && v != k
    requires IsFirst(b, name, k) && IsMember(b, k)
    ensures IsFirst(WithEntry(b, v, e), name, k) && IsMember(WithEntry(b, v, e), k)
  {
    hide WithEntry;
    WithEntryReads(b, v, e, k);
    forall j | 0 <= j < k
      ensures !(IsLive(WithEntry(b, v, e), j) && NameAt(WithEntry(b, v, e), j) == name)
    {
      WithEntryReads(b, v, e, j);
    }
  }

  lemma BlockOfLonger(g: Layout, d: Disk, dir: FileState, dir': FileState, k: nat)
    requires g.Fits(|d|) && DirGood(g, d, dir) && k < dir.size / ENTRY_SIZE
    requires HasBytes(g, dir'.fixed, dir'.chain, dir'.size) && dir'.fixed == dir.fixed && dir.chain <= dir'.chain
    requires dir.size <= dir'.size
    ensures k < dir'.size / ENTRY_SIZE && BlockOf(g, dir', k) == BlockOf(g, dir, k)
  {
    hide Fat, Layout.Fits, DirGood;
    EntryInBlock(g, d, dir, k);
    if !dir.fixed {
      BlockAtPrefix(g, dir.chain, dir'.chain, k / ENTRIES_PER_BLOCK);
    }
  }

  ghost predicate AllFresh(g: Layout, s: CacheState, dir: FileState, fs: seq<FileState>, names: seq<seq<byte>>)
    requires g.Fits(|s.disk|) && DirGood(g, s.disk, dir)
  {
    |fs| <= |names| && forall i :: 0 <= i < |fs| ==> Fresh(g, s, dir, fs[i], names[i])
  }

  /** A file of that name was opened: it was there, and no other file changed, or it was created. */
  ghost predicate OpenedOne(g: Layout, s: CacheState, s': CacheState, dir: FileState, dir': FileState, name: seq<byte>,
                            oflag: OpenFlags)
    requires g.Fits(|s.disk|) && DirGood(g, s.disk, dir)
  {
    && IsName(name) && OpenedByName(g, s, s', dir, dir', name, oflag)
    && (if Has(DirBytes(g, s.disk, dir), name) then
          SparesButNamed(g, s, s', dir, name) && SameHome(dir, dir') && (!oflag.trunc ==> s'.disk == s.disk)
        else SparesLive(g, s, s', dir))
  }

  lemma OpenedOneIs(g: Layout, s: CacheState, s': CacheState, dir: FileState, dir': FileState, name: seq<byte>,
                    oflag: OpenFlags)
    requires g.Fits(|s.disk|) && DirGood(g, s.disk, dir) && OpenedOne(g, s, s', dir, dir', name, oflag)
    ensures |s'.disk| == |s.disk| && DirGood(g, s'.disk, dir')
  {
    hide Fat, Layout.Fits, DirGood, DirBytes, Created, Has, FreeTail, NoNewTwins, HasOnce, SameNames, SparesLive,
      SparesButNamed;
  }

  /** Handles on other names stay as they are. */
  lemma FreshStays(g: Layout, s: CacheState, s': CacheState, dir: FileState, dir': FileState, h: FileState,
                   other: seq<byte>, name: seq<byte>, oflag: OpenFlags)
    requires g.Fits(|s.disk|) && DirGood(g, s.disk, dir) && Orderly(g, s.disk, dir) && Fresh(g, s, dir, h, other)
    requires OpenedOne(g, s, s', dir, dir', name, oflag) && other != name
    ensures |s'.disk| == |s.disk| && DirGood(g, s'.disk, dir')
    ensures Fresh(g, s', dir', h, other) && SameBytes(g, s.disk, s'.disk, h)
  {
    hide Fat, Layout.Fits, DirGood, DirBytes, Orderly, Fresh, SparesButNamed, SparesLive, Created, Has, FreeTail,
      NoNewTwins, HasOnce, SameNames, SameBytes;
    if Has(DirBytes(g, s.disk, dir), name) {
      FreshWhenFound(g, s, s', dir, dir', h, other, name);
    } else {
      FreshWhenCreated(g, s, s', dir, dir', h, other, name);
    }
  }

  predicate OnSameFile(f: FileState, h: FileState) {
    f.block == h.block && f.index == h.index && f.first == h.first && f.chain == h.chain && f.size == h.size
  }

  /** Two handles on one name are on one entry, and so on one file. */
  lemma SameNameSameFile(g: Layout, d: Disk, dir: FileState, f: FileState, h: FileState, name: seq<byte>)
    requires g.Fits(|d|) && DirGood(g, d, dir) && NamedHandle(g, d, dir, f, name) && NamedHandle(g, d, dir, h, name)
    requires Sound(g, d, f, f.size) && Sound(g, d, h, h.size) && !f.dirDirty && !h.dirDirty
    ensures OnSameFile(f, h)
  {
    hide Fat, Layout.Fits, DirGood, DirBytes, BlockOf, IsMember, NameAt, IsLive, EntryFirst, EntrySize, IsChain;
    var k: nat :| k < dir.size / ENTRY_SIZE && IsHandle(g, d, dir, f, name, k);
    var l: nat :| l < dir.size / ENTRY_SIZE && IsHandle(g, d, dir, h, name, l);
    assert k == l;
    if f.first != 0 {
      ChainUnique(Fat(g, d), g.EocMin(), f.chain, h.chain);
    }
  }

  lemma FreshSameFile(g: Layout, s: CacheState, dir: FileState, f: FileState, h: FileState, name: seq<byte>)
    requires g.Fits(|s.disk|) && DirGood(g, s.disk, dir) && Fresh(g, s, dir, f, name) && Fresh(g, s, dir, h, name)
    ensures OnSameFile(f, h)
  {
    hide Fat, Layout.Fits, DirGood, NamedHandle, TailClean, CursorOn, Sound;
    SameNameSameFile(g, s.disk, dir, f, h, name);
  }

  /** A handle is good in a state where another on the same file is. */
  lemma GoodAsWell(g: Layout, s: CacheState, s': CacheState, h: FileState, f: FileState)
    requires g.Fits(|s.disk|) && s'.disk == s.disk && Good(g, s, h) && Good(g, s', f)
    requires f.chain == h.chain && f.size == h.size
    ensures Good(g, s', h)
  {
    hide Fat, Layout.Fits, Sound, TailClean, CursorOn;
  }

  /** A handle on the name that was opened, without truncation. */
  lemma FreshItself(g: Layout, s: CacheState, s': CacheState, dir: FileState, dir': FileState, h: FileState,
                    name: seq<byte>, oflag: OpenFlags, f: FileState)
    requires g.Fits(|s.disk|) && DirGood(g, s.disk, dir) && Fresh(g, s, dir, h, name)
    requires OpenedOne(g, s, s', dir, dir', name, oflag) && !oflag.trunc
    requires |s'.disk| == |s.disk| && DirGood(g, s'.disk, dir') && Fresh(g, s', dir', f, name)
    ensures Fresh(g, s', dir', h, name) && SameBytes(g, s.disk, s'.disk, h)
  {
    hide Fat, Layout.Fits, DirGood, DirBytes, Created, FreeTail, NoNewTwins, HasOnce, SparesButNamed, SparesLive,
      FileBytes, NameAt, IsMember, TailClean, CursorOn, Sound;
    var k: nat :| k < dir.size / ENTRY_SIZE && IsHandle(g, s.disk, dir, h, name, k);
    assert Has(DirBytes(g, s.disk, dir), name);
    DirGoodMoves(g, s.disk, dir, dir');
    assert IsHandle(g, s'.disk, dir', h, name, k);
    SameNameSameFile(g, s.disk, dir', f, h, name);
    GoodAsWell(g, s, s', h, f);
  }

  /** Every handle on a name that was good and up to date still is, with the same bytes. */
  ghost predicate Kept(g: Layout, s: CacheState, s': CacheState, dir: FileState, dir': FileState)
    requires g.Fits(|s.disk|) && DirGood(g, s.disk, dir) && |s'.disk| == |s.disk| && DirGood(g, s'.disk, dir')
  {
    forall h, name :: Fresh(g, s, dir, h, name) ==> Fresh(g, s', dir', h, name) && SameBytes(g, s.disk, s'.disk, h)
  }

  lemma KeptNone(g: Layout, s: CacheState, dir: FileState)
    requires g.Fits(|s.disk|) && DirGood(g, s.disk, dir)
    ensures Kept(g, s, s, dir, dir)
  {
    hide Fat, Layout.Fits, DirGood, NamedHandle, Sound, TailClean, CursorOn, FileBytes;
  }

  /** Opening one more file without truncation keeps all that was there. */
  lemma KeptNext(g: Layout, s0: CacheState, s: CacheState, s': CacheState, dir0: FileState, dir: FileState,
                 dir': FileState, name: seq<byte>, oflag: OpenFlags, f: FileState)
    requires g.Fits(|s0.disk|) && DirGood(g, s0.disk, dir0) && |s.disk| == |s0.disk| && DirGood(g, s.disk, dir)
    requires Kept(g, s0, s, dir0, dir) && Orderly(g, s.disk, dir)
    requires OpenedOne(g, s, s', dir, dir', name, oflag) && !oflag.trunc
    requires |s'.disk| == |s.disk| && DirGood(g, s'.disk, dir') && Fresh(g, s', dir', f, name)
    ensures Kept(g, s0, s', dir0, dir')
  {
    hide Fat, Layout.Fits, DirGood, Orderly, Fresh, OpenedOne, SameBytes;
    forall h, other | Fresh(g, s0, dir0, h, other)
      ensures Fresh(g, s', dir', h, other) && SameBytes(g, s0.disk, s'.disk, h)
    {
      if other == name {
        FreshItself(g, s, s', dir, dir', h, name, oflag, f);
      } else {
        FreshStays(g, s, s', dir, dir', h, other, name, oflag);
      }
      SameBytesTrans(g, s0.disk, s.disk, s'.disk, h);
    }
  }

  lemma SameBytesTrans(g: Layout, d0: Disk, d1: Disk, d2: Disk, f: FileState)
    requires g.Fits(|d0|) && |d1| == |d0| && SameBytes(g, d0, d1, f) && SameBytes(g, d1, d2, f)
    ensures SameBytes(g, d0, d2, f)
  {
    hide Layout.Fits, FileBytes;
  }

  /** One more file was opened: all handles are fresh. */
  lemma OneMore(g: Layout, s: CacheState, s': CacheState, dir: FileState, dir': FileState, fs: seq<FileState>,
                names: seq<seq<byte>>, f: FileState, oflag: OpenFlags)
    requires g.Fits(|s.disk|) && DirGood(g, s.disk, dir) && Orderly(g, s.disk, dir) && AllFresh(g, s, dir, fs, names)
    requires |fs| < |names| && forall i, j :: 0 <= i < j < |names| ==> names[i] != names[j]
    requires OpenedOne(g, s, s', dir, dir', names[|fs|], oflag)
    requires |s'.disk| == |s.disk| && DirGood(g, s'.disk, dir') && Fresh(g, s', dir', f, names[|fs|])
    ensures AllFresh(g, s', dir', fs + [f], names)
  {
    hide Fat, Layout.Fits, DirGood, Orderly, Fresh, OpenedOne, SameBytes;
    var name := names[|fs|];
    forall i | 0 <= i < |fs|
      ensures Fresh(g, s', dir', fs[i], names[i])
    {
      assert names[i] != name;
      FreshStays(g, s, s', dir, dir', fs[i], names[i], name, oflag);
    }
  }

  lemma StillSmall(g: Layout, s: CacheState, s': CacheState, dir: FileState, dir': FileState, name: seq<byte>,
                   oflag: OpenFlags)
    requires g.Fits(|s.disk|) && DirGood(g, s.disk, dir) && |name| == NAME_SIZE
    requires OpenedByName(g, s, s', dir, dir', name, oflag)
    ensures |s'.disk| == |s.disk| && DirGood(g, s'.disk, dir') && FreeTail(DirBytes(g, s'.disk, dir'))
    ensures dir'.size <= dir.size + BLOCK_SIZE * g.blocksPerCluster
  {
    hide Fat, Layout.Fits, DirGood, DirBytes, FatConfined, FreeTail, NoNewTwins, Has, HasOnce, NewEntry;
  }

  /** The directory stands in the way of opening a file: it is refused, or it is a directory
      itself. */
  ghost predicate InTheWay(g: Layout, d: Disk, dir: FileState, name: seq<byte>, oflag: OpenFlags, f: SdFile)
    reads f
  {
    && g.Fits(|d|) && DirGood(g, d, dir)
    && (IsRefused(g, d, dir, name, oflag) || (f.fileType == Subdir && NamedHandle(g, d, dir, f.Snap(), name)))
  }

  /** The handle is open for a file with that access, at its start, and empty if it was truncated. */
  predicate IsReady(f: SdFile, oflag: OpenFlags)
    reads f
  {
    && f.fileType == Normal && ModeOf(f) == Mode(oflag.read, oflag.write, oflag.append, oflag.sync)
    && f.curPosition == 0
    && (oflag.trunc ==> f.fileSize == 0)
  }

  lemma OpenedIsReady(f: SdFile, oflag: OpenFlags)
    requires f.fileType == Normal && OpenedWith(f, oflag) && (oflag.trunc ==> f.fileSize == 0)
    ensures IsReady(f, oflag) && !f.dirDirty
  {
  }

  /** The names are 8.3 names and make different entries. */
  predicate AreNames(names: seq<seq<byte>>) {
    && (forall i :: 0 <= i < |names| ==> Is83(names[i]))
    && forall i, j :: 0 <= i < j < |names| ==> EntryName(names[i]) != EntryName(names[j])
  }

  /** The names as they are in a directory. */
  function EntryNames(names: seq<seq<byte>>): (es: seq<seq<byte>>)
    requires AreNames(names)
    ensures |es| == |names| && forall i, j :: 0 <= i < j < |es| ==> es[i] != es[j]
    ensures forall i :: 0 <= i < |names| ==> Is83(names[i]) && es[i] == EntryName(names[i])
  {
    seq(|names|, i requires 0 <= i < |names| => EntryName(names[i]))
  }

  /** The handles as values. */
  ghost function SnapsOf(files: seq<SdFile>): (fs: seq<FileState>)
    reads set f | f in files
    ensures |fs| == |files| && forall i :: 0 <= i < |files| ==> fs[i] == files[i].Snap()
  {
    seq(|files|, i requires 0 <= i < |files| reads set f | f in files => files[i].Snap())
  }

  /** A volume with an open directory that is in order. */
  ghost predicate InOrder(g: Layout, d: Disk, dir: FileState) {
    && g.Fits(|d|) && DirGood(g, d, dir) && Truthful(g, d, dir) && Orderly(g, d, dir) && FreeTail(DirBytes(g, d, dir))
  }

  /** Different handles, all closed and on one volume. */
  predicate AreClosed(vol: SdVolume, files: seq<SdFile>)
    reads set f | f in files
  {
    && (forall i :: 0 <= i < |files| ==> files[i].vol == vol && files[i].fileType == Closed)
    && forall i, j :: 0 <= i < |files| && 0 <= j < |files| && i != j ==> files[i] != files[j]
  }

  /** All names were opened: the handles are good and up to date, and without truncation so is every
      handle that was on such a name before. */
  ghost predicate AllOpened(g: Layout, s: CacheState, s': CacheState, dir: FileState, dir': FileState,
                            fs: seq<FileState>, names: seq<seq<byte>>, oflag: OpenFlags)
  {
    && InOrder(g, s.disk, dir) && InOrder(g, s'.disk, dir') && |s'.disk| == |s.disk|
    && AllFresh(g, s', dir', fs, names) && (!oflag.trunc ==> Kept(g, s, s', dir, dir'))
  }

  lemma NoneOpened(g: Layout, s: CacheState, dir: FileState, names: seq<seq<byte>>, oflag: OpenFlags)
    requires InOrder(g, s.disk, dir)
    ensures AllOpened(g, s, s, dir, dir, [], names, oflag)
  {
    hide Fat, Layout.Fits, DirGood, Truthful, Orderly, FreeTail, Kept;
    KeptNone(g, s, dir);
  }

  /** One more was opened. */
  lemma OneMoreOpened(g: Layout, s0: CacheState, s: CacheState, s': CacheState, dir0: FileState, dir: FileState,
                      dir': FileState, fs: seq<FileState>, names: seq<seq<byte>>, f: FileState, oflag: OpenFlags)
    requires AllOpened(g, s0, s, dir0, dir, fs, names, oflag) && InOrder(g, s'.disk, dir')
    requires |fs| < |names| && forall i, j :: 0 <= i < j < |names| ==> names[i] != names[j]
    requires OpenedOne(g, s, s', dir, dir', names[|fs|], oflag) && Fresh(g, s', dir', f, names[|fs|])
    ensures AllOpened(g, s0, s', dir0, dir', fs + [f], names, oflag)
  {
    hide Fat, Layout.Fits, DirGood, Truthful, Orderly, FreeTail, Kept, OpenedOne, Fresh, AllFresh, DirBytes;
    OpenedOneIs(g, s, s', dir, dir', names[|fs|], oflag);
    OneMore(g, s, s', dir, dir', fs, names, f, oflag);
    if !oflag.trunc {
      KeptNext(g, s0, s, s', dir0, dir, dir', names[|fs|], oflag, f);
    }
  }

  /** Open one more file of a directory. */
  method OpenNext(dir: SdFile, f: SdFile, name: seq<byte>, oflag: OpenFlags) returns (ok: bool)
    requires dir.DirValid() && f != dir && f.vol == dir.vol && f.fileType == Closed && Is83(name)
    requires InOrder(dir.vol.g, dir.vol.cache.disk, dir.Snap())
    requires dir.fileSize + BLOCK_SIZE * dir.vol.g.blocksPerCluster < TWO_32
    modifies f, dir`curPosition, dir`curCluster, dir`firstCluster, dir`dirDirty, dir`chain, dir`fileSize
    modifies f.vol`allocSearchStart, f.vol.cache.Repr()
    ensures f.vol.Valid()
    ensures ok ==>
      && dir.DirValid() && IsReady(f, oflag) && InOrder(dir.vol.g, dir.vol.cache.disk, dir.Snap())
      && OpenedOne(dir.vol.g, old(dir.vol.cache.State()), dir.vol.cache.State(), old(dir.Snap()), dir.Snap(),
                   EntryName(name), oflag)
      && Fresh(dir.vol.g, dir.vol.cache.State(), dir.Snap(), f.Snap(), EntryName(name))
      && dir.fileSize <= old(dir.fileSize) + BLOCK_SIZE * dir.vol.g.blocksPerCluster
    ensures f.vol.cache.card.faults >= old(f.vol.cache.card.faults)
    ensures !ok ==>
              f.vol.cache.Excused(old(f.vol.cache.card.faults)) || AllInUse(Fat(f.vol.g, f.vol.cache.disk))
              || !dir.canRead
              || (dir.DirValid() && InTheWay(f.vol.g, f.vol.cache.disk, dir.Snap(), EntryName(name), oflag, f))
  {
    hide Fat, Layout.Fits, SdVolume.Valid, BlockCache.Valid, Good, DirGood, DirBytes, Truthful, Orderly, FreeTail, Has,
      Is83, EntryName, SdFile.Valid, NamedHandle, OpenedByName, SparesLive, SparesButNamed, OpenedWith, IsRefused,
      SparesNew, OfFile, AllInUse, OpenFailed, IsReady;
    assert f !in dir.vol.Repr() && dir !in dir.vol.Repr();
    ghost var g, s, was := dir.vol.g, dir.vol.cache.State(), dir.Snap();
    NameIsLive(name);
    ok := Open(f, dir, name, oflag);
    if ok {
      StillSmall(g, s, f.vol.cache.State(), was, dir.Snap(), EntryName(name), oflag);
      if f.fileType == Normal {
        OpenedIsReady(f, oflag);
        assert Good(g, f.vol.cache.State(), f.Snap()) by {
          ValidIsGood(f);
        }
      } else {
        ok := false;
      }
    } else if IsRefused(g, s.disk, was, EntryName(name), oflag) {
      RefusedIsWhole(g, s, f.vol.cache.State(), was, dir.Snap(), EntryName(name), oflag, f.fileType == Closed);
    }
  }

  /** Open several files of a directory, one after the other, by names that make different
      entries. It stops at the first that cannot be opened. */
  method OpenEach(dir: SdFile, files: seq<SdFile>, names: seq<seq<byte>>, oflag: OpenFlags)
    returns (ok: bool, count: nat)
    requires dir.DirValid() && dir !in files && AreClosed(dir.vol, files) && |names| == |files| && AreNames(names)
    requires InOrder(dir.vol.g, dir.vol.cache.disk, dir.Snap())
    requires dir.fileSize + |files| * (BLOCK_SIZE * dir.vol.g.blocksPerCluster) < TWO_32
    modifies set f | f in files
    modifies dir`curPosition, dir`curCluster, dir`firstCluster, dir`dirDirty, dir`chain, dir`fileSize
    modifies dir.vol`allocSearchStart, dir.vol.cache.Repr()
    ensures dir.vol.Valid() && count <= |files|
    ensures forall i :: 0 <= i < count ==> IsReady(files[i], oflag)
    ensures ok ==>
      && count == |files| && dir.DirValid()
      && AllOpened(dir.vol.g, old(dir.vol.cache.State()), dir.vol.cache.State(), old(dir.Snap()), dir.Snap(),
                   SnapsOf(files), EntryNames(names), oflag)
    ensures !ok ==>
              count < |files|
              && (dir.vol.cache.Excused(old(dir.vol.cache.card.faults)) || AllInUse(Fat(dir.vol.g, dir.vol.cache.disk))
                  || !dir.canRead
                  || (dir.DirValid() && InTheWay(dir.vol.g, dir.vol.cache.disk, dir.Snap(), EntryNames(names)[count],
                                                 oflag, files[count])))
  {
    hide Fat, Layout.Fits, SdVolume.Valid, BlockCache.Valid, InOrder, AllOpened, DirGood, SdFile.Snap, OpenedOne, Fresh,
      IsReady, AllInUse, InTheWay, EntryNames, SnapsOf, BlockCache.Excused, AreNames, Is83, EntryName;
    ghost var g, s0, was := dir.vol.g, dir.vol.cache.State(), dir.Snap();
    ghost var fs: seq<FileState> := [];
    ghost var step, room := BLOCK_SIZE * dir.vol.g.blocksPerCluster, dir.fileSize;
    count := 0;
    NoneOpened(g, s0, was, EntryNames(names), oflag);
    while count < |files|
      invariant 0 <= count <= |files| && |fs| == count && dir.DirValid()
      invariant InOrder(g, dir.vol.cache.disk, dir.Snap())
      invariant AllOpened(g, s0, dir.vol.cache.State(), was, dir.Snap(), fs, EntryNames(names), oflag)
      invariant forall j :: 0 <= j < count ==> IsReady(files[j], oflag) && files[j].Snap() == fs[j]
      invariant forall j :: count <= j < |files| ==> files[j].fileType == Closed
      invariant dir.fileSize <= room + count * step
      invariant dir.vol.cache.card.faults >= old(dir.vol.cache.card.faults)
    {
      ghost var s, before := dir.vol.cache.State(), dir.Snap();
      RoomForOne(room, count, |files|, step);
      ok := OpenNext(dir, files[count], names[count], oflag);
      if !ok {
        FaultsAdd(dir.vol.cache, old(dir.vol.cache.card.faults));
        return;
      }
      OneMoreOpened(g, s0, s, dir.vol.cache.State(), was, before, dir.Snap(), fs, EntryNames(names),
                    files[count].Snap(), oflag);
      fs := fs + [files[count].Snap()];
      count := count + 1;
    }
    assert fs == SnapsOf(files);
    ok := true;
  }

  /** What was on these names before is what the handles are on, with the same bytes. */
  ghost predicate SameFiles(g: Layout, s: CacheState, s': CacheState, dir: FileState, fs: seq<FileState>,
                            names: seq<seq<byte>>)
  {
    && g.Fits(|s.disk|) && |s'.disk| == |s.disk| && DirGood(g, s.disk, dir) && |fs| == |names|
    && forall i, h :: 0 <= i < |fs| && Fresh(g, s, dir, h, names[i]) ==>
                        OnSameFile(fs[i], h) && SameBytes(g, s.disk, s'.disk, h)
  }

  /** Open several files of a directory by name. If all are there or can be created, a program can
      run with them, and without truncation each has the bytes that the file of its name had. */
  method OpenAll(dir: SdFile, files: seq<SdFile>, names: seq<seq<byte>>, oflag: OpenFlags)
    returns (ok: bool, program: Program?, count: nat)
    requires dir.DirValid() && dir !in files && AreClosed(dir.vol, files) && |names| == |files| && AreNames(names)
    requires InOrder(dir.vol.g, dir.vol.cache.disk, dir.Snap())
    requires dir.fileSize + |files| * (BLOCK_SIZE * dir.vol.g.blocksPerCluster) < TWO_32
    modifies set f | f in files
    modifies dir`curPosition, dir`curCluster, dir`firstCluster, dir`dirDirty, dir`chain, dir`fileSize
    modifies dir.vol`allocSearchStart, dir.vol.cache.Repr()
    ensures dir.vol.Valid() && count <= |files|
    ensures forall i :: 0 <= i < count ==> IsReady(files[i], oflag)
    ensures ok ==>
      && count == |files| && program != null && program.Valid() && program.vol == dir.vol && program.files == files
      && dir.DirValid() && InOrder(dir.vol.g, dir.vol.cache.disk, dir.Snap())
      && AllFresh(dir.vol.g, dir.vol.cache.State(), dir.Snap(), SnapsOf(files), EntryNames(names))
    ensures ok && !oflag.trunc ==>
              SameFiles(dir.vol.g, old(dir.vol.cache.State()), dir.vol.cache.State(), old(dir.Snap()), SnapsOf(files),
                        EntryNames(names))
    ensures !ok ==>
              count < |files|
              && (dir.vol.cache.Excused(old(dir.vol.cache.card.faults)) || AllInUse(Fat(dir.vol.g, dir.vol.cache.disk))
                  || !dir.canRead
                  || (dir.DirValid() && InTheWay(dir.vol.g, dir.vol.cache.disk, dir.Snap(), EntryNames(names)[count],
                                                 oflag, files[count])))
  {
    hide Fat, Layout.Fits, SdVolume.Valid, BlockCache.Valid, InOrder, AllOpened, DirGood, SdFile.Snap, IsReady,
      AllInUse, InTheWay, EntryNames, SnapsOf, BlockCache.Excused, AreNames, Together, SameFiles, AllFresh;
    ghost var g, s0, was := dir.vol.g, dir.vol.cache.State(), dir.Snap();
    program := null;
    ok, count := OpenEach(dir, files, names, oflag);
    if ok {
      OpenedTogether(g, s0, dir.vol.cache.State(), was, dir.Snap(), SnapsOf(files), EntryNames(names), oflag);
      AllReady(files, oflag);
      program := new Program(dir.vol, files, SnapsOf(files));
    }
  }

  lemma FaultsAdd(cache: BlockCache, before: nat)
    ensures forall n: nat :: n >= before && cache.Excused(n) ==> cache.Excused(before)
  {
  }

  lemma AllReady(files: seq<SdFile>, oflag: OpenFlags)
    requires forall i :: 0 <= i < |files| ==> IsReady(files[i], oflag)
    ensures forall i :: 0 <= i < |files| ==> files[i].fileType == Normal
  {
  }

  lemma RoomForOne(room: nat, i: nat, n: nat, step: nat)
    requires i < n && room + n * step < TWO_32
    ensures room + i * step + step < TWO_32 && room + i * step + step == room + (i + 1) * step
  {
    assert (i + 1) * step <= n * step;
  }

  lemma OpenedTogether(g: Layout, s: CacheState, s': CacheState, dir: FileState, dir': FileState, fs: seq<FileState>,
                       names: seq<seq<byte>>, oflag: OpenFlags)
    requires AllOpened(g, s, s', dir, dir', fs, names, oflag) && |fs| == |names|
    requires forall i, j :: 0 <= i < j < |names| ==> names[i] != names[j]
    ensures g.Fits(|s'.disk|) && Together(g, s', fs) && InOrder(g, s'.disk, dir')
    ensures AllFresh(g, s', dir', fs, names)
    ensures !oflag.trunc ==> SameFiles(g, s, s', dir, fs, names)
  {
    hide Fat, Layout.Fits, DirGood, Truthful, Orderly, FreeTail, Together, Fresh, SameBytes;
    HandlesTogether(g, s', dir', fs, names);
    if !oflag.trunc {
      forall i, h | 0 <= i < |fs| && Fresh(g, s, dir, h, names[i])
        ensures OnSameFile(fs[i], h) && SameBytes(g, s.disk, s'.disk, h)
      {
        FreshSameFile(g, s', dir', fs[i], h, names[i]);
      }
    }
  }
}
