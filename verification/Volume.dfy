/** The volume: FAT entries fetched and stored through the cache, and the cluster
    allocator on top of them (Modules/SD/SdVolume.cpp:31-103, 149-228). */
module Volume {
  import opened Bytes
  import opened Layouts
  import opened Chains
  import opened Cache

  /** The source reports both kinds of failure as `false`. */
  datatype Outcome = Done | Refused | DeviceError

  /** The most that FAT accesses do: blocks outside the two FATs are the same, and a block
      that is dirty now is a FAT block or was the dirty block before. A stranded cache stays
      stranded, and nothing changes. */
  ghost predicate FatOnly(g: Layout, s: CacheState, s': CacheState)
    ensures s == s' ==> FatOnly(g, s, s')
    ensures FatOnly(g, s, s') && s.Stranded() ==> s' == s
  {
    && |s'.disk| == |s.disk|
    && (forall b :: 0 <= b < |s.disk| && !g.IsFatBlock(b) ==> s'.disk[b] == s.disk[b])
    && (s'.dirty ==> g.IsFatBlock(s'.number) || (s.dirty && s'.number == s.number))
    && (s.Stranded() ==> s' == s)
  }

  lemma FatOnlyTrans(g: Layout, s: CacheState, s1: CacheState, s2: CacheState)
    requires FatOnly(g, s, s1) && FatOnly(g, s1, s2)
    ensures FatOnly(g, s, s2)
  {
  }

  /** What an allocation that stops half way leaves behind: nothing, or the back part of a
      run of clusters that were free, already linked to its end. */
  ghost predicate OrphanRun(fat: seq<nat>, fat': seq<nat>, mark: nat) {
    fat' == fat || exists b: nat, n: nat :: n > 0 && AllFree(fat, b, n) && fat' == LinkRun(fat, b, n, mark)
  }

  lemma OrphanNone(fat: seq<nat>, mark: nat)
    ensures OrphanRun(fat, fat, mark)
  {
  }

  lemma OrphanBack(fat: seq<nat>, b: nat, n: nat, end: nat, mark: nat)
    requires AllFree(fat, b, n) && b <= end < b + n
    ensures OrphanRun(fat, LinkRun(fat, end, b + n - end, mark), mark)
  {
    assert AllFree(fat, end, b + n - end);
  }

  lemma LinkRunOne(fat: seq<nat>, b: nat, mark: nat)
    requires b < |fat|
    ensures fat[b := mark] == LinkRun(fat, b, 1, mark)
  {
  }

  /** After an allocation stopped anywhere, the table is still well formed and every chain
      is still there; at most one chain was added that nothing refers to. */
  lemma OrphanWellFormed(fat: seq<nat>, fat': seq<nat>, eoc: nat, mark: nat, ch: seq<nat>)
    requires OrphanRun(fat, fat', mark) && WellFormed(fat, eoc) && eoc <= mark && IsChain(fat, eoc, ch)
    ensures WellFormed(fat', eoc) && IsChain(fat', eoc, ch)
  {
    if fat' != fat {
      var b: nat, n: nat :| n > 0 && AllFree(fat, b, n) && fat' == LinkRun(fat, b, n, mark);
      LinkRunWellFormed(fat, eoc, b, n, mark);
      LinkRunKeeps(fat, eoc, b, n, mark, ch);
    }
  }

  function StoreBoth(d: Disk, lba: nat, mirror: nat, b: Block): Disk
    requires lba < |d| && mirror < |d|
  {
    if mirror == 0 then d[lba := b] else d[lba := b][mirror := b]
  }

  /** Everything the volume's invariant needs to know about storing an entry. */
  lemma PutFacts(g: Layout, d: Disk, c: nat, v: nat, lba: nat, mirror: nat, start: nat)
    requires g.Fits(|d|) && c < g.Clusters() && lba == EntryBlock(g, c)
    requires mirror == if g.fatCount > 1 then lba + g.blocksPerFat else 0
    requires 0 < lba < |d| && mirror < |d|
    ensures PutEntry(g, d, c, v) == StoreBoth(d, lba, mirror, PutInBlock(g, d[lba], c, v))
    ensures Fat(g, PutEntry(g, d, c, v)) == Fat(g, d)[c := Stored(g, v)]
    ensures Mirrored(g, d) ==> Mirrored(g, PutEntry(g, d, c, v))
    ensures forall b :: 0 <= b < |d| && !g.IsFatBlock(b) ==> PutEntry(g, d, c, v)[b] == d[b]
    ensures InUseBelow(Fat(g, d), start) && (start <= c || Stored(g, v) != 0) ==>
              InUseBelow(Fat(g, PutEntry(g, d, c, v)), start)
  {
    hide Fat;
    EntryFits(g, |d|, c);
    FatOfPut(g, d, c, v);
    if Mirrored(g, d) {
      PutKeepsMirror(g, d, c, v);
    }
  }

  /** The bytes in `n` clusters, as a 32-bit number. */
  function Size32(g: Layout, n: nat): nat {
    ClusterBytes(g, n) % TWO_32
  }

  lemma Size32Next(g: Layout, n: nat)
    ensures Size32(g, 0) == 0
    ensures Size32(g, n + 1) == (Size32(g, n) + BLOCK_SIZE * g.blocksPerCluster) % TWO_32
  {
    hide ClusterBytes;
    ClusterBytesNext(g, n);
    AddWraps(ClusterBytes(g, n), BLOCK_SIZE * g.blocksPerCluster);
  }

  lemma AddWraps(a: nat, b: nat)
    ensures (a % TWO_32 + b) % TWO_32 == (a + b) % TWO_32
  {
  }

  class SdVolume {
    const cache: BlockCache
    var g: Layout
    var allocSearchStart: nat
    /** Whether the two FATs agreed when the volume was mounted. */
    ghost const mirrored: bool

    ghost function Repr(): set<object> {
      {this} + cache.Repr()
    }

    ghost predicate Valid()
      reads Repr()
      ensures Valid() ==> g.Fits(|cache.disk|) && cache.Valid() && 2 <= allocSearchStart <= g.Clusters()
    {
      && cache.Valid() && g.Fits(|cache.disk|)
      && (cache.mirrorBlock != 0 ==>
            g.fatCount > 1 && g.fatStart <= cache.blockNumber < g.fatStart + g.blocksPerFat
            && cache.mirrorBlock == cache.blockNumber + g.blocksPerFat)
      && (mirrored ==> Mirrored(g, cache.disk))
      && 2 <= allocSearchStart <= g.Clusters()
      && InUseBelow(Fat(g, cache.disk), allocSearchStart)
    }

    constructor (c: BlockCache, geometry: Layout, ghost agree: bool)
      requires c.Valid()
      ensures cache == c && g == geometry && mirrored == agree && allocSearchStart == 2 && fresh(this)
      ensures c.mirrorBlock == 0 && geometry.Fits(|c.disk|) && (agree ==> Mirrored(geometry, c.disk)) ==> Valid()
    {
      cache, g, allocSearchStart, mirrored := c, geometry, 2, agree;
    }

    /** A pending mirror copy is of a FAT block, for a FAT block. */
    lemma MirrorIsFat()
      requires Valid() && cache.mirrorBlock != 0
      ensures g.IsFatBlock(cache.mirrorBlock) && g.IsFatBlock(cache.blockNumber)
    {
      EntryFits(g, |cache.disk|, 0);
    }

    /** Bring the block with the entry of a cluster into the cache. */
    method CacheEntry(cluster: nat) returns (ok: bool)
      requires Valid() && cluster < g.Clusters()
      modifies cache.Repr()
      ensures Valid() && cache.disk == old(cache.disk) && FatOnly(g, old(cache.State()), cache.State())
      ensures cache.dirty ==> old(cache.dirty)
      ensures ok ==> cache.blockNumber == EntryBlock(g, cluster) < |cache.disk| && g.IsFatBlock(cache.blockNumber)
      ensures ok ==> cache.buffer.Length == BLOCK_SIZE && cache.buffer[..] == cache.disk[cache.blockNumber]
      ensures ok ==> cache.mirrorBlock == 0
                     || (g.fatCount > 1 && cache.mirrorBlock == EntryBlock(g, cluster) + g.blocksPerFat)
      ensures cache.card.faults >= old(cache.card.faults)
      ensures !ok ==> cache.Excused(old(cache.card.faults))
    {
      hide Fat, Layout.Fits, Mirrored;
      EntryFits(g, |cache.disk|, cluster);
      var lba := EntryBlock(g, cluster);
      ok := true;
      if lba != cache.blockNumber {
        ok := cache.RawBlock(lba, false);
      }
    }

    /** Fetch a FAT entry. */
    method FatGet(cluster: nat) returns (ok: bool, value: nat)
      requires Valid()
      modifies cache.Repr()
      ensures Valid() && cache.disk == old(cache.disk) && FatOnly(g, old(cache.State()), cache.State())
      ensures cache.dirty ==> old(cache.dirty)
      ensures ok ==> cluster < g.Clusters() && value == Fat(g, cache.disk)[cluster]
      ensures ok ==> IsEntry(g, cache.disk, cluster, value) && g.IsFatBlock(cache.blockNumber)
      ensures !ok ==> value == cluster
      ensures cluster >= g.Clusters() ==> !ok
      ensures cache.card.faults >= old(cache.card.faults)
      ensures !ok ==> cache.Excused(old(cache.card.faults)) || cluster >= g.Clusters()
    {
      hide Layout.Fits, SdVolume.Valid, BlockCache.Valid, FatOnly, EntryBlock, IsEntry;
      if cluster > g.clusterCount + 1 {
        return false, cluster;
      }
      ok := CacheEntry(cluster);
      value := if ok then EntryIn(g, cache.buffer[..], cluster) else cluster;
      EntryIsBytes(g, cache.disk, cluster, value);
    }

    /** Store a FAT entry. The copy in the second FAT becomes pending with it. */
    method FatPut(cluster: nat, value: nat) returns (ok: bool)
      requires Valid()
      requires Stored(g, value) != 0 || allocSearchStart <= cluster || cluster < 2
      modifies cache.Repr()
      ensures Valid() && FatOnly(g, old(cache.State()), cache.State())
      ensures ok ==> 2 <= cluster < g.Clusters() && cache.disk == PutEntry(g, old(cache.disk), cluster, value)
      ensures ok ==> IsStored(g, old(cache.disk), cache.disk, cluster, value)
      ensures ok ==> Fat(g, cache.disk) == old(Fat(g, cache.disk))[cluster := Stored(g, value)]
      ensures ok ==> g.IsFatBlock(cache.blockNumber)
      ensures !ok ==> cache.disk == old(cache.disk)
      ensures cluster < 2 || cluster >= g.Clusters() ==> !ok
      ensures cache.card.faults >= old(cache.card.faults)
      ensures !ok ==> cache.Excused(old(cache.card.faults)) || cluster < 2 || cluster >= g.Clusters()
    {
      hide Fat, Layout.Fits, SdVolume.Valid, BlockCache.Valid, FatOnly, PutEntry, Stored, IsStored;
      if cluster < 2 {
        return false;
      }
      if cluster > g.clusterCount + 1 {
        return false;
      }
      ok := CacheEntry(cluster);
      if ok {
        ghost var before := cache.State();
        StoredIsBytes(g, cache.disk, cluster, value);
        StoreEntry(cluster, value);
        FatOnlyTrans(g, old(cache.State()), before, cache.State());
      }
    }

    /** Change an entry in the cached block, and note the block that mirrors it. */
    method StoreEntry(cluster: nat, value: nat)
      requires Valid() && 2 <= cluster < g.Clusters()
      requires Stored(g, value) != 0 || allocSearchStart <= cluster
      requires cache.blockNumber == EntryBlock(g, cluster) < |cache.disk|
      requires cache.buffer.Length == BLOCK_SIZE && cache.buffer[..] == cache.disk[cache.blockNumber]
      requires cache.mirrorBlock == 0
               || (g.fatCount > 1 && cache.mirrorBlock == EntryBlock(g, cluster) + g.blocksPerFat)
      modifies cache.Repr()
      ensures Valid() && FatOnly(g, old(cache.State()), cache.State())
      ensures cache.disk == PutEntry(g, old(cache.disk), cluster, value)
      ensures Fat(g, cache.disk) == old(Fat(g, cache.disk))[cluster := Stored(g, value)]
      ensures g.IsFatBlock(cache.blockNumber)
      ensures cache.card.faults == old(cache.card.faults)
    {
      hide Fat, Layout.Fits, Mirrored, PutEntry, PutInBlock, InUseBelow, Stored, BlockCache.Valid;
      EntryFits(g, |cache.disk|, cluster);
      var lba := EntryBlock(g, cluster);
      var mirror := if g.fatCount > 1 then lba + g.blocksPerFat else 0;
      PutFacts(g, cache.disk, cluster, value, lba, mirror, allocSearchStart);
      cache.Replace(PutInBlock(g, cache.buffer[..], cluster, value), mirror);
    }

    /** Look for `count` consecutive free clusters: from `start` to the end of the FAT, then
        from its beginning up to `start`. A run across `start` is not found. */
    method FindRun(count: nat, start: nat) returns (r: Outcome, b: nat)
      requires Valid() && count >= 1 && 2 <= start <= g.Clusters()
      modifies cache.Repr()
      ensures Valid() && cache.disk == old(cache.disk) && FatOnly(g, old(cache.State()), cache.State())
      ensures r == Done ==> FirstRun(Fat(g, cache.disk), start, count, b) && g.IsFatBlock(cache.blockNumber)
      ensures r == Refused ==> NoRunFrom(Fat(g, cache.disk), start, count)
      ensures cache.card.faults >= old(cache.card.faults)
      ensures r == DeviceError ==> cache.Excused(old(cache.card.faults))
    {
      hide Fat, Layout.Fits, SdVolume.Valid, BlockCache.Valid, Searched, FatOnly;
      ghost var fat := Fat(g, cache.disk);
      b := start;
      var end := start;
      var n := 0;
      ghost var wrapped := false;
      SearchStarts(fat, start, count);
      while true
        invariant Valid() && cache.disk == old(cache.disk)
        invariant Searched(fat, start, count, wrapped, b, end) && 2 <= end <= g.Clusters() && n <= g.clusterCount
        invariant n == if wrapped then g.Clusters() - start + end - 2 else end - start
        invariant FatOnly(g, old(cache.State()), cache.State()) && cache.card.faults >= old(cache.card.faults)
        decreases g.clusterCount - n
      {
        if n >= g.clusterCount {
          SearchFails(fat, start, count, wrapped, b, end);
          return Refused, b;
        }
        if end > g.clusterCount + 1 {
          SearchWraps(fat, start, count, b, end);
          b, end := 2, 2;
          wrapped := true;
        }
        ghost var before := cache.State();
        var ok, f := FatGet(end);
        FatOnlyTrans(g, old(cache.State()), before, cache.State());
        if !ok {
          return DeviceError, b;
        }
        SearchNext(fat, start, count, wrapped, b, end);
        if f != 0 {
          // cluster in use: try the next one as the start of the run
          b := end + 1;
        } else if end - b + 1 == count {
          return Done, b;
        }
        n, end := n + 1, end + 1;
      }
    }

    /** Allocate `count` consecutive clusters, and append them to the chain that ends in
        `cur` unless that is 0. */
    method AllocContiguous(count: nat, cur: nat) returns (r: Outcome, first: nat)
      requires Valid() && count >= 1
      requires cur == 0 || (2 <= cur < g.Clusters() && Fat(g, cache.disk)[cur] != 0)
      modifies this`allocSearchStart, cache.Repr()
      ensures Valid() && FatOnly(g, old(cache.State()), cache.State())
      ensures r == Done ==> AllFree(old(Fat(g, cache.disk)), first, count)
                            && Fat(g, cache.disk) == Allocated(old(Fat(g, cache.disk)), cur, first, count, EndMark(g))
      ensures r == Done ==> g.IsFatBlock(cache.blockNumber)
      ensures r != Done ==> first == cur
      ensures r == Done && cur == 0 ==> NoRun(old(Fat(g, cache.disk)), 2, first + count - 1, count)
      ensures r == Done && cur != 0 ==> FirstRun(old(Fat(g, cache.disk)), cur + 1, count, first)
      ensures r == Refused ==> NoRun(old(Fat(g, cache.disk)), 2, g.Clusters(), count) && cache.disk == old(cache.disk)
      ensures r == DeviceError ==> OrphanRun(old(Fat(g, cache.disk)), Fat(g, cache.disk), EndMark(g))
      ensures cache.card.faults >= old(cache.card.faults)
      ensures r == DeviceError ==> cache.Excused(old(cache.card.faults))
      ensures allocSearchStart == if r == Done && cur == 0 && count == 1 then first + 1 else old(allocSearchStart)
    {
      hide Fat, Layout.Fits, Mirrored, BlockCache.Valid, FatOnly, LinkRun, NoRun, Stored;
      NothingMissed(Fat(g, cache.disk), if cur == 0 then allocSearchStart else cur + 1, count);
      first := cur;
      var setStart := cur == 0 && count == 1;
      var b;
      r, b := FindRun(count, if cur == 0 then allocSearchStart else cur + 1);
      if r != Done {
        return;
      }
      ghost var fat := Fat(g, cache.disk);
      ghost var mark := EndMark(g);
      FirstFit(fat, allocSearchStart, count);
      ghost var found := cache.State();
      r := LinkBack(b, count);
      FatOnlyTrans(g, old(cache.State()), found, cache.State());
      if r != Done {
        return;
      }
      if cur != 0 {
        ghost var before := cache.State();
        StoredSmall(g, b);
        var ok := FatPut(cur, b);
        FatOnlyTrans(g, old(cache.State()), before, cache.State());
        if !ok {
          return DeviceError, cur;
        }
      }
      assert Fat(g, cache.disk) == Allocated(fat, cur, b, count, mark);
      first := b;
      if setStart {
        AllocatedInUse(fat, b, mark);
        allocSearchStart := b + 1;
      }
    }

    /** Link `count` free clusters from `b` on: end mark first, then from back to front. */
    method LinkBack(b: nat, count: nat) returns (r: Outcome)
      requires Valid() && count >= 1 && AllFree(Fat(g, cache.disk), b, count)
      modifies cache.Repr()
      ensures Valid() && FatOnly(g, old(cache.State()), cache.State())
      ensures r == Done ==>
                Fat(g, cache.disk) == LinkRun(old(Fat(g, cache.disk)), b, count, EndMark(g))
                && g.IsFatBlock(cache.blockNumber)
      ensures r == Done || r == DeviceError
      ensures r == DeviceError ==> OrphanRun(old(Fat(g, cache.disk)), Fat(g, cache.disk), EndMark(g))
      ensures cache.card.faults >= old(cache.card.faults)
      ensures r == DeviceError ==> cache.Excused(old(cache.card.faults))
    {
      hide Fat, Layout.Fits, Mirrored, SdVolume.Valid, BlockCache.Valid, FatOnly, Stored, LinkRun, OrphanRun;
      ghost var fat := Fat(g, cache.disk);
      var end := b + count - 1;
      assert EndMark(g) == Stored(g, EOC);
      var ok := FatPut(end, EOC);
      if !ok {
        OrphanNone(fat, EndMark(g));
        return DeviceError;
      }
      LinkRunOne(fat, end, EndMark(g));
      while end > b
        invariant Valid() && b <= end < b + count && FatOnly(g, old(cache.State()), cache.State())
        invariant Fat(g, cache.disk) == LinkRun(fat, end, b + count - end, EndMark(g))
        invariant g.IsFatBlock(cache.blockNumber) && cache.card.faults >= old(cache.card.faults)
        decreases end
      {
        ghost var before := cache.State();
        StoredSmall(g, end);
        ok := FatPut(end - 1, end);
        FatOnlyTrans(g, old(cache.State()), before, cache.State());
        if !ok {
          OrphanBack(fat, b, count, end, EndMark(g));
          return DeviceError;
        }
        LinkRunStep(fat, end, b + count - end, EndMark(g));
        end := end - 1;
      }
      r := Done;
    }

    /** Free the clusters that follow from `cluster`. On any table this ends, and does what
        `FreeWalk` says; `k` counts the clusters freed, which is less if the device fails on the
        way. */
    method FreeChain(cluster: nat) returns (r: Outcome, ghost k: nat)
      requires Valid()
      modifies this`allocSearchStart, cache.Repr()
      ensures Valid() && FatOnly(g, old(cache.State()), cache.State()) && allocSearchStart == 2
      ensures r != DeviceError ==>
                FreeWalk(old(Fat(g, cache.disk)), g.EocMin(), cluster) == (Fat(g, cache.disk), r == Done)
      ensures Fat(g, cache.disk) == FreedAfter(old(Fat(g, cache.disk)), cluster, k).0
      ensures FreedPart(old(Fat(g, cache.disk)), g.EocMin(), cluster, Fat(g, cache.disk), k, r == Done)
      ensures r == Done ==> g.IsFatBlock(cache.blockNumber)
      ensures cache.card.faults >= old(cache.card.faults)
      ensures r == DeviceError ==> cache.Excused(old(cache.card.faults))
    {
      hide Fat, Layout.Fits, Mirrored, SdVolume.Valid, BlockCache.Valid, FatOnly, FreedSome, FreedPart, FreeWalk, Used,
        FreedAfter;
      ResetSearch();
      ghost var fat := Fat(g, cache.disk);
      ghost var eoc := g.EocMin();
      var c: nat := cluster;
      k := 0;
      FreedNone(fat, eoc, c);
      FreedAtFirst(fat, c);
      while true
        invariant Valid() && FatOnly(g, old(cache.State()), cache.State())
                  && cache.card.faults >= old(cache.card.faults)
        invariant allocSearchStart == 2 && FreeWalk(fat, eoc, cluster) == FreeWalk(Fat(g, cache.disk), eoc, c)
        invariant FreedSome(fat, eoc, cluster, Fat(g, cache.disk), k, c)
        invariant FreedAfter(fat, cluster, k) == (Fat(g, cache.disk), c)
        decreases Used(Fat(g, cache.disk)), if c < 2 then 0 else 1
      {
        ghost var before, table := cache.State(), Fat(g, cache.disk);
        FreeWalkStep(table, eoc, c);
        FreedSoFar(fat, eoc, cluster, table, k, c);
        var next;
        r, next := FreeOne(c);
        FatOnlyTrans(g, old(cache.State()), before, cache.State());
        if r != Done {
          return;
        }
        FreedOneMore(fat, eoc, cluster, table, k, c);
        FreedAfterNext(fat, cluster, k, table, c);
        k := k + 1;
        if g.IsEoc(next) {
          return;
        }
        c := next;
      }
    }

    /** Make the next search start at the first cluster. */
    method ResetSearch()
      requires Valid()
      modifies this`allocSearchStart
      ensures Valid() && allocSearchStart == 2
    {
      hide Fat, Layout.Fits, Mirrored;
      allocSearchStart := 2;
    }

    /** One step of freeing: fetch the link of a cluster, then clear its entry. */
    method FreeOne(c: nat) returns (r: Outcome, next: nat)
      requires Valid() && allocSearchStart == 2
      modifies cache.Repr()
      ensures Valid() && FatOnly(g, old(cache.State()), cache.State())
      ensures r == Done ==>
                2 <= c < g.Clusters() && next == old(Fat(g, cache.disk))[c]
                && Fat(g, cache.disk) == old(Fat(g, cache.disk))[c := 0]
      ensures r == Done ==> g.IsFatBlock(cache.blockNumber)
      ensures r != Done ==> cache.disk == old(cache.disk)
      ensures r == Refused <==> c < 2 || c >= g.Clusters()
      ensures cache.card.faults >= old(cache.card.faults)
      ensures r == DeviceError ==> cache.Excused(old(cache.card.faults))
    {
      hide Fat, Layout.Fits, Mirrored, SdVolume.Valid, BlockCache.Valid, FatOnly;
      var ok;
      ok, next := FatGet(c);
      if !ok {
        return if c > g.clusterCount + 1 || c < 2 then Refused else DeviceError, next;
      }
      ghost var before := cache.State();
      ok := FatPut(c, 0);
      FatOnlyTrans(g, old(cache.State()), before, cache.State());
      r := if ok then Done else if c < 2 then Refused else DeviceError;
    }

    /** The size in bytes of a chain, as a 32-bit number. It fails if the links lead out of the
        table; if they lead nowhere but round and round, the source loops for ever. */
    method ChainSize(cluster: nat, ghost ch: seq<nat>) returns (ok: bool, size: nat)
      requires Valid() && Leads(Fat(g, cache.disk), g.EocMin(), ch) && ch[0] == cluster
      modifies cache.Repr()
      ensures Valid() && cache.disk == old(cache.disk) && FatOnly(g, old(cache.State()), cache.State())
      ensures ok ==> ch[|ch| - 1] < g.Clusters() && size == Size32(g, |ch|)
      ensures cache.card.faults >= old(cache.card.faults)
      ensures !ok ==> cache.Excused(old(cache.card.faults)) || ch[|ch| - 1] >= g.Clusters()
    {
      hide Fat, Layout.Fits, Mirrored, BlockCache.Valid, SdVolume.Valid, FatOnly, Size32, Leads;
      ghost var fat := Fat(g, cache.disk);
      var c := cluster;
      ghost var i := 0;
      size := 0;
      Size32Next(g, 0);
      while true
        invariant Valid() && cache.disk == old(cache.disk)
        invariant i < |ch| && c == ch[i] && size == Size32(g, i)
        invariant FatOnly(g, old(cache.State()), cache.State()) && cache.card.faults >= old(cache.card.faults)
        decreases |ch| - i
      {
        ghost var before := cache.State();
        LeadsOn(fat, g.EocMin(), ch, i);
        ok, c := FatGet(c);
        FatOnlyTrans(g, old(cache.State()), before, cache.State());
        if !ok {
          return;
        }
        Size32Next(g, i);
        size := (size + BLOCK_SIZE * g.blocksPerCluster) % TWO_32;
        i := i + 1;
        if g.IsEoc(c) {
          return;
        }
      }
    }

    /** Flush the cache. Both FATs agree on the card afterwards, if they did at the start. */
    method FlushAll() returns (ok: bool)
      requires Valid()
      modifies cache.Repr()
      ensures Valid() && cache.disk == old(cache.disk) && cache.blockNumber == old(cache.blockNumber)
      ensures cache.dirty ==> old(cache.dirty)
      ensures ok ==> !cache.dirty && cache.card.blocks == cache.disk && (mirrored ==> Mirrored(g, cache.card.blocks))
      ensures old(cache.Stranded()) ==> !ok && cache.Stranded()
      ensures cache.card.faults >= old(cache.card.faults)
      ensures !ok ==> cache.Excused(old(cache.card.faults))
    {
      hide Fat, Layout.Fits, Mirrored, BlockCache.Valid;
      ok := cache.Flush();
    }

    /** Cache a block of zeros for a block outside the FAT. */
    method ZeroBlockOf(block: nat) returns (ok: bool)
      requires Valid() && 0 < block < |cache.disk| && !g.IsFatBlock(block)
      modifies cache.Repr()
      ensures Valid()
      ensures cache.disk == if ok then old(cache.disk)[block := ZeroBlock()] else old(cache.disk)
      ensures if ok then cache.blockNumber == block && cache.dirty && !old(cache.Stranded())
              else cache.blockNumber == old(cache.blockNumber) && (cache.dirty ==> old(cache.dirty))
      ensures old(cache.Stranded()) ==> cache.Stranded()
      ensures cache.card.faults >= old(cache.card.faults)
      ensures !ok ==> cache.Excused(old(cache.card.faults))
    {
      hide Fat, Layout.Fits, Mirrored, BlockCache.Valid;
      ghost var d := cache.disk;
      ok := cache.ZeroCached(block);
      DataKeepsFat(g, d, cache.disk, block);
    }

    /** Fill a cluster with zeros, last block first, so that its first block ends up in the
        cache. When it fails, the `left` first blocks are as they were. */
    method ZeroCluster(start: nat) returns (ok: bool, ghost left: nat)
      requires Valid() && 0 < start && start + g.blocksPerCluster <= |cache.disk|
      requires forall b :: start <= b < start + g.blocksPerCluster ==> !g.IsFatBlock(b)
      modifies cache.Repr()
      ensures Valid() && |cache.disk| == |old(cache.disk)|
      ensures forall b :: 0 <= b < |cache.disk| && !(start <= b < start + g.blocksPerCluster) ==>
                cache.disk[b] == old(cache.disk)[b]
      ensures left <= g.blocksPerCluster && (ok <==> left == 0)
      ensures forall b :: start <= b < start + g.blocksPerCluster ==>
                cache.disk[b] == if b < start + left then old(cache.disk)[b] else ZeroBlock()
      ensures ok ==> cache.blockNumber == start && cache.dirty && !old(cache.Stranded())
      ensures cache.dirty ==>
                start <= cache.blockNumber < start + g.blocksPerCluster
                || (old(cache.dirty) && cache.blockNumber == old(cache.blockNumber))
      ensures old(cache.Stranded()) ==> cache.Stranded()
      ensures cache.card.faults >= old(cache.card.faults)
      ensures !ok ==> cache.Excused(old(cache.card.faults))
    {
      hide Fat, Layout.Fits, SdVolume.Valid, BlockCache.Valid, Layout.IsFatBlock;
      var i := g.blocksPerCluster;
      while i != 0
        invariant 0 <= i <= g.blocksPerCluster && Valid() && |cache.disk| == |old(cache.disk)|
        invariant forall b :: 0 <= b < |cache.disk| && !(start + i <= b < start + g.blocksPerCluster) ==>
                    cache.disk[b] == old(cache.disk)[b]
        invariant forall b :: start + i <= b < start + g.blocksPerCluster ==> cache.disk[b] == ZeroBlock()
        invariant if i < g.blocksPerCluster then cache.blockNumber == start + i && cache.dirty && !old(cache.Stranded())
                  else cache.State() == old(cache.State())
        invariant cache.card.faults >= old(cache.card.faults)
      {
        ok := ZeroBlockOf(start + i - 1);
        if !ok {
          left := i;
          return;
        }
        i := i - 1;
      }
      ok, left := true, 0;
    }
  }
}
