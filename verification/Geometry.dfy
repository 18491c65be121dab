/** Finding a volume on a card and working out its layout from the boot sector
    (Modules/SD/SdVolume.cpp:245-313; fatgen103, "FAT Type Determination"). */
module Geometry {
  import opened Bytes
  import opened Layouts
  import opened SdCard
  import opened Cache
  import opened Volume

  const PARTITION_TABLE: nat := 446
  const PARTITION_SIZE: nat := 16
  const MIN_PARTITION: nat := 100

  /** The fields of a partition table entry that are looked at. */
  datatype Partition = Partition(boot: nat, firstSector: nat, totalSectors: nat)

  function PartitionAt(b: Block, part: nat): Partition
    requires 1 <= part <= 4
  {
    var p := PARTITION_TABLE + PARTITION_SIZE * (part - 1);
    Partition(b[p] as int, Word32(b, p + 8), Word32(b, p + 12))
  }

  predicate UsablePartition(p: Partition) {
    p.boot % 0x80 == 0 && p.totalSectors >= MIN_PARTITION && p.firstSector != 0
  }

  /** A cluster is 1, 2, 4 or up to 128 blocks. */
  predicate IsClusterSize(n: nat) {
    exists k :: 0 <= k <= 7 && n == Pow2(k)
  }

  /** The BIOS parameter block, which is at byte 11 of the boot sector. */
  datatype Bpb = Bpb(bytesPerSector: nat, sectorsPerCluster: nat, reserved: nat, fatCount: nat,
                     rootEntries: nat, sectors16: nat, fatSize16: nat, sectors32: nat, fatSize32: nat, rootCluster: nat)
  {
    function FatSize(): nat {
      if fatSize16 != 0 then fatSize16 else fatSize32
    }

    function Sectors(): nat {
      if sectors16 != 0 then sectors16 else sectors32
    }

    /** Blocks of a root directory of fixed size. The product is a 16-bit number. */
    function RootBlocks(): nat {
      (32 * rootEntries + 511) % TWO_16 / 512
    }

    /** Blocks before the data region. */
    function Metadata(): nat {
      reserved + fatCount * FatSize() + RootBlocks()
    }

    predicate Accepted() {
      bytesPerSector == BLOCK_SIZE && fatCount != 0 && reserved != 0
      && IsClusterSize(sectorsPerCluster)
    }
  }

  function BpbOf(b: Block): (p: Bpb)
    ensures p.sectorsPerCluster < 256 && p.fatCount < 256 && p.rootEntries < TWO_16
    ensures p.reserved < TWO_16 && p.Sectors() < TWO_32 && p.FatSize() < TWO_32
  {
    Bpb(Word16(b, 11), b[13] as int, Word16(b, 14), b[16] as int, Word16(b, 17),
        Word16(b, 19), Word16(b, 22), Word32(b, 32), Word32(b, 36), Word32(b, 44))
  }

  /** The fields of `SdVolume` that `init` sets. */
  datatype Fields = Fields(fatType: nat, fatCount: nat, fatStart: nat, blocksPerFat: nat, rootStart: nat,
                           rootEntries: nat, dataStart: nat, blocksPerCluster: nat, shift: nat, clusterCount: nat)

  function Wrap32(x: int): (r: nat) {
    x % TWO_32
  }

  function Quotient(a: nat, b: nat): nat
    requires b > 0
  {
    a / b
  }

  /** What a boot sector at block `start` makes of them, in the source's 32-bit arithmetic. */
  function FieldsOf(p: Bpb, start: nat, shift: nat): (v: Fields)
    ensures v.shift == shift
  {
    var fatStart := Wrap32(start + p.reserved);
    var rootStart := Wrap32(fatStart + p.fatCount * p.FatSize());
    var dataStart := Wrap32(rootStart + p.RootBlocks());
    var clusters := Quotient(Wrap32(p.Sectors() - (dataStart - start)), Pow2(shift));
    Fields(if clusters < 4085 then 12 else if clusters < 65525 then 16 else 32,
           p.fatCount, fatStart, p.FatSize(), if clusters < 65525 then rootStart else p.rootCluster,
           p.rootEntries, dataStart, p.sectorsPerCluster, shift, clusters)
  }

  function LayoutOf(v: Fields): Layout {
    Layout(if v.fatType == 16 then Fat16 else Fat32, v.fatCount, v.fatStart, v.blocksPerFat, v.rootStart,
           v.rootEntries, v.dataStart, v.blocksPerCluster, v.shift, v.clusterCount)
  }

  /** What the specification of FAT asks of a boot sector: the volume has room for its own
      metadata, the FAT has an entry for every cluster, and no cluster number looks like an
      end-of-chain mark. */
  predicate Consistent(p: Bpb, v: Fields) {
    && p.Metadata() <= p.Sectors()
    && v.clusterCount + 1 < (if v.fatType == 16 then 256 * v.blocksPerFat else 128 * v.blocksPerFat)
    && v.clusterCount + 2 < (if v.fatType == 16 then 0xFFF8 else 0x0FFF_FFF8)
  }

  /** The size in bytes of a root directory of fixed size is a 16-bit number, rounding included. */
  predicate RootFits(p: Bpb, v: Fields) {
    v.fatType == 16 ==> 32 * p.rootEntries + 511 < TWO_16
  }

  /** For a volume that lies within the card, the layout that comes out fits the card exactly
      if the boot sector is consistent and the size of a fixed root directory does not overflow:
      FAT, root directory and data follow one another, a cluster is a power of two of blocks, and
      all clusters are on the card. Other boot sectors are accepted all the same. */
  lemma LayoutFits(p: Bpb, start: nat, shift: nat, total: nat)
    requires p.Accepted() && p.sectorsPerCluster == Pow2(shift) && shift <= 7
    requires start + p.Sectors() <= total <= TWO_32 - 128 && start + p.Metadata() < TWO_32
    requires FieldsOf(p, start, shift).fatType != 12
    ensures LayoutOf(FieldsOf(p, start, shift)).Fits(total) <==>
            Consistent(p, FieldsOf(p, start, shift)) && RootFits(p, FieldsOf(p, start, shift))
  {
    hide Pow2;
    Starts(p, start, shift);
    SmallPower(shift);
    FatsBefore(p);
    var v := FieldsOf(p, start, shift);
    var g := LayoutOf(v);
    ClustersEnd(if p.Metadata() <= p.Sectors() then p.Sectors() - p.Metadata() else TWO_32 + p.Sectors() - p.Metadata(),
                Pow2(shift));
    OnCard(start, p.Metadata(), p.Sectors(), v.clusterCount * v.blocksPerCluster, v.blocksPerCluster, total);
    Regions(p, v, total);
  }

  /** The data region ends on the card exactly if the metadata leaves room for one. */
  lemma OnCard(start: nat, metadata: nat, sectors: nat, data: nat, cluster: nat, total: nat)
    requires start + sectors <= total <= TWO_32 - 128 && start + metadata < TWO_32 && cluster <= 128
    requires
      var blocks := if metadata <= sectors then sectors - metadata else TWO_32 + sectors - metadata;
      blocks - cluster < data <= blocks
    ensures start + metadata + data <= total <==> metadata <= sectors
  {
  }

  lemma Regions(p: Bpb, v: Fields, total: nat)
    requires p.reserved > 0 && p.fatCount > 0 && total < NO_BLOCK
    requires v.fatCount == p.fatCount && v.blocksPerFat == p.FatSize() && v.rootEntries == p.rootEntries
    requires v.fatStart >= p.reserved && v.dataStart == v.fatStart + p.fatCount * p.FatSize() + p.RootBlocks()
    requires v.fatType == 16 ==> v.rootStart == v.fatStart + p.fatCount * p.FatSize()
    requires v.blocksPerCluster == Pow2(v.shift)
    requires p.FatSize() <= p.fatCount * p.FatSize() && (p.fatCount > 1 ==> 2 * p.FatSize() <= p.fatCount * p.FatSize())
    ensures LayoutOf(v).Fits(total) <==>
            && v.dataStart + v.clusterCount * v.blocksPerCluster <= total
            && v.clusterCount + 1 < (if v.fatType == 16 then 256 * v.blocksPerFat else 128 * v.blocksPerFat)
            && v.clusterCount + 2 < (if v.fatType == 16 then 0xFFF8 else 0x0FFF_FFF8)
            && RootFits(p, v)
  {
    hide Pow2;
  }

  /** Where the regions start when nothing overflows. */
  lemma Starts(p: Bpb, start: nat, shift: nat)
    requires start + p.Metadata() < TWO_32 && start + p.Sectors() < TWO_32
    ensures
      var v := FieldsOf(p, start, shift);
      && v.fatStart == start + p.reserved && v.dataStart == start + p.Metadata()
      && (v.clusterCount < 65525 ==> v.rootStart == start + p.reserved + p.fatCount * p.FatSize())
      && v.clusterCount == (if p.Metadata() <= p.Sectors() then p.Sectors() - p.Metadata()
                            else TWO_32 + p.Sectors() - p.Metadata()) / Pow2(shift)
  {
    hide Pow2, Wrap32;
    NoOverflow(start, p.reserved, p.fatCount * p.FatSize(), p.RootBlocks(), p.Sectors());
  }

  /** The layout as the specification of FAT gives it, in the words of the boot sector: reserved
      blocks, the FATs, a root directory of fixed size, and the data in whole clusters. The count of
      clusters alone makes the type: FAT12 up to 4084, FAT16 from 4085 to 65524, FAT32 from 65525. */
  lemma LayoutAsSpecified(p: Bpb, start: nat, shift: nat)
    requires p.sectorsPerCluster == Pow2(shift) && 32 * p.rootEntries + 511 < 0x1_0000
    requires
      var fatSize := if p.fatSize16 != 0 then p.fatSize16 else p.fatSize32;
      var sectors := if p.sectors16 != 0 then p.sectors16 else p.sectors32;
      p.reserved + p.fatCount * fatSize + (32 * p.rootEntries + 511) / 512 <= sectors && start + sectors < 0x1_0000_0000
    ensures
      var fatSize := if p.fatSize16 != 0 then p.fatSize16 else p.fatSize32;
      var sectors := if p.sectors16 != 0 then p.sectors16 else p.sectors32;
      var rootStart := start + p.reserved + p.fatCount * fatSize;
      var dataStart := rootStart + (32 * p.rootEntries + 511) / 512;
      var clusters := (sectors - (dataStart - start)) / p.sectorsPerCluster;
      var v := FieldsOf(p, start, shift);
      && v.fatCount == p.fatCount && v.fatStart == start + p.reserved && v.blocksPerFat == fatSize
      && v.rootEntries == p.rootEntries && v.dataStart == dataStart && v.clusterCount == clusters
      && v.blocksPerCluster == p.sectorsPerCluster && v.shift == shift
      && (v.fatType == 12 <==> clusters <= 4084) && (v.fatType == 16 <==> 4085 <= clusters <= 65524)
      && (v.fatType == 32 <==> 65525 <= clusters)
      && v.rootStart == if v.fatType == 32 then p.rootCluster else rootStart
  {
    hide Pow2, Wrap32;
    Starts(p, start, shift);
  }

  /** Which boot sectors and partitions are acceptable. */
  lemma AcceptedIs(p: Bpb)
    ensures p.Accepted() <==>
            p.bytesPerSector == 512 && p.fatCount != 0 && p.reserved != 0
            && p.sectorsPerCluster in {1, 2, 4, 8, 16, 32, 64, 128}
  {
    hide Pow2;
    Powers();
    forall k | 0 <= k <= 7
      ensures Pow2(k) in {1, 2, 4, 8, 16, 32, 64, 128}
    {
      assert k == 0 || k == 1 || k == 2 || k == 3 || k == 4 || k == 5 || k == 6 || k == 7;
    }
    forall n | n in {1, 2, 4, 8, 16, 32, 64, 128}
      ensures IsClusterSize(n)
    {
      assert n == Pow2(0) || n == Pow2(1) || n == Pow2(2) || n == Pow2(3) || n == Pow2(4) || n == Pow2(5)
             || n == Pow2(6) || n == Pow2(7);
    }
  }

  lemma UsableIs(p: Partition)
    requires p.boot < 256
    ensures UsablePartition(p) <==> (p.boot == 0x00 || p.boot == 0x80) && p.totalSectors >= 100 && p.firstSector != 0
  {
  }

  lemma NoOverflow(start: nat, reserved: nat, fats: nat, root: nat, sectors: nat)
    requires start + reserved + fats + root < TWO_32 && sectors < TWO_32
    ensures
      var fatStart := Wrap32(start + reserved);
      var rootStart := Wrap32(fatStart + fats);
      var dataStart := Wrap32(rootStart + root);
      var meta := reserved + fats + root;
      && fatStart == start + reserved && rootStart == start + reserved + fats && dataStart == start + meta
      && Wrap32(sectors - (dataStart - start)) == if meta <= sectors then sectors - meta else TWO_32 + sectors - meta
  {
    assert (start + reserved) % TWO_32 == start + reserved;
    assert (start + reserved + fats) % TWO_32 == start + reserved + fats;
    assert (start + reserved + fats + root) % TWO_32 == start + reserved + fats + root;
  }

  lemma Powers()
    ensures Pow2(0) == 1 && Pow2(1) == 2 && Pow2(2) == 4 && Pow2(3) == 8 && Pow2(4) == 16
    ensures Pow2(5) == 32 && Pow2(6) == 64 && Pow2(7) == 128 && Pow2(8) == 256
  {
    assert Pow2(4) == 16;
    assert Pow2(6) == 64;
  }

  lemma SmallPower(shift: nat)
    requires shift <= 7
    ensures Pow2(shift) <= 128
  {
    hide Pow2;
    Powers();
    assert shift == 0 || shift == 1 || shift == 2 || shift == 3 || shift == 4 || shift == 5 || shift == 6 || shift == 7;
  }

  lemma FatsBefore(p: Bpb)
    requires p.fatCount != 0
    ensures p.FatSize() <= p.fatCount * p.FatSize()
    ensures p.fatCount > 1 ==> 2 * p.FatSize() <= p.fatCount * p.FatSize()
  {
  }

  /** Whole clusters take up no more than the blocks there are, and leave less than one over. */
  lemma ClustersEnd(blocks: nat, n: nat)
    requires n > 0
    ensures blocks - n < (blocks / n) * n <= blocks
  {
  }

  /** No block belongs to two clusters. */
  lemma ClustersApart(g: Layout, total: nat, c: nat, r: nat, c': nat, r': nat)
    requires g.Fits(total) && 2 <= c < g.Clusters() && 2 <= c' < g.Clusters()
    requires r < g.blocksPerCluster && r' < g.blocksPerCluster
    requires ClusterStart(g, c) + r == ClusterStart(g, c') + r'
    ensures c == c' && r == r'
  {
    hide ClusterStart;
    ClusterBlocks(g, total, c, r);
    ClusterBlocks(g, total, c', r');
  }

  /** The block where the volume starts: block 0, or the start of a partition. */
  function VolumeStart(d: Disk, part: nat): nat
    requires |d| > 0 && part <= 4
  {
    if part == 0 then 0 else PartitionAt(d[0], part).firstSector
  }

  /** These are the fields of the volume in that partition of a card. */
  ghost predicate Initialized(d: Disk, part: nat, v: Fields) {
    && part <= 4 && 0 < |d| && VolumeStart(d, part) < |d| && (part > 0 ==> UsablePartition(PartitionAt(d[0], part)))
    && var start := VolumeStart(d, part);
       var p := BpbOf(d[start]);
       p.Accepted() && p.sectorsPerCluster == Pow2(v.shift) && v.shift <= 7 && v == FieldsOf(p, start, v.shift)
  }

  /** There is no such partition, or it is not one to use, or its boot sector is not acceptable. */
  ghost predicate Refusable(d: Disk, part: nat) {
    part > 4
    || (0 < |d|
        && ((part > 0 && !UsablePartition(PartitionAt(d[0], part)))
            || (VolumeStart(d, part) < |d| && !BpbOf(d[VolumeStart(d, part)]).Accepted())))
  }

  /** The partition starts behind the end of the card. */
  ghost predicate OffCard(d: Disk, part: nat) {
    |d| == 0 || (part <= 4 && VolumeStart(d, part) >= |d|)
  }

  /** Initialize a volume: read the partition table if a partition is asked for, then the
      boot sector. It is refused exactly if either is not acceptable. */
  method Init(cache: BlockCache, part: nat) returns (r: Outcome, v: Fields)
    requires cache.Valid()
    modifies cache.Repr()
    ensures cache.Valid() && cache.disk == old(cache.disk)
    ensures cache.mirrorBlock != 0 ==> cache.mirrorBlock == old(cache.mirrorBlock)
    ensures cache.dirty ==> old(cache.dirty)
    ensures part > 4 ==> r == Refused
    ensures r == Done ==> Initialized(cache.disk, part, v)
    ensures r == Refused ==> Refusable(cache.disk, part)
    ensures r == DeviceError ==> cache.Excused(old(cache.card.faults)) || OffCard(cache.disk, part)
  {
    hide BlockCache.Valid, Pow2, IsClusterSize, BpbOf, PartitionAt, FieldsOf, Word16, Word32, UsablePartition;
    v := Fields(0, 0, 0, 0, 0, 0, 0, 0, 0, 0);
    var start := 0;
    if part != 0 {
      if part > 4 {
        return Refused, v;
      }
      var ok := cache.RawBlock(start, false);
      if !ok {
        return DeviceError, v;
      }
      var p := PartitionAt(cache.buffer[..], part);
      if !UsablePartition(p) {
        return Refused, v;
      }
      start := p.firstSector;
    }
    var ok := cache.RawBlock(start, false);
    if !ok {
      return DeviceError, v;
    }
    var p := BpbOf(cache.buffer[..]);
    NoEmptyClusters();
    if p.bytesPerSector != BLOCK_SIZE || p.fatCount == 0 || p.reserved == 0 || p.sectorsPerCluster == 0 {
      return Refused, v;
    }
    var isPower, shift := ShiftOf(p.sectorsPerCluster);
    if !isPower {
      return Refused, v;
    }
    v := FieldsOf(p, start, shift);
    r := Done;
  }

  lemma NoEmptyClusters()
    ensures !IsClusterSize(0)
  {
  }

  /** The shift that is the same as multiplying by `n`, if there is one. */
  method ShiftOf(n: nat) returns (isPower: bool, shift: nat)
    requires n < 256
    ensures isPower <==> IsClusterSize(n)
    ensures isPower ==> shift <= 7 && n == Pow2(shift)
  {
    hide Pow2;
    Powers();
    shift := 0;
    while n != Pow2(shift)
      invariant shift <= 8
      invariant forall k :: 0 <= k < shift ==> n != Pow2(k)
      decreases 9 - shift
    {
      if shift > 7 {
        return false, shift;
      }
      shift := shift + 1;
    }
    isPower := true;
  }

  /** Whatever boot sector is found on this card is consistent, is not that of a FAT12 volume,
      and describes a volume that lies on the card. */
  predicate IsSound(d: Disk, part: nat)
    requires 0 < |d| && part <= 4
  {
    |d| <= TWO_32 - 128 &&
    (VolumeStart(d, part) < |d| ==>
      var start := VolumeStart(d, part);
      var p := BpbOf(d[start]);
      && start + p.Sectors() <= |d| && start + p.Metadata() < TWO_32
      && forall k :: 0 <= k <= 7 && p.sectorsPerCluster == Pow2(k) ==>
           FieldsOf(p, start, k).fatType != 12 && Consistent(p, FieldsOf(p, start, k))
           && RootFits(p, FieldsOf(p, start, k)))
  }

  /** Mount a volume: initialize it, and search its FAT from the start. If the card is sound the
      invariant of the volume holds. A FAT12 volume is recognized and not used. */
  method Mount(card: Sd2Card, part: nat) returns (r: Outcome, v: Fields, vol: SdVolume?)
    requires card.Valid() && |card.blocks| < NO_BLOCK
    modifies card
    ensures r == Done ==> Initialized(old(card.blocks), part, v)
    ensures r == Refused ==> Refusable(old(card.blocks), part)
    ensures r == DeviceError ==> card.faults > old(card.faults) || OffCard(old(card.blocks), part)
    ensures vol != null <==> r == Done && v.fatType != 12
    ensures vol != null ==>
      && fresh(vol) && fresh(vol.cache) && vol.cache.Valid() && vol.cache.disk == old(card.blocks)
      && vol.cache.card == card && !vol.cache.dirty && vol.g == LayoutOf(v) && vol.allocSearchStart == 2
      && (LayoutOf(v).Fits(|old(card.blocks)|) ==>
            vol.Valid() && (vol.mirrored <==> Mirrored(vol.g, old(card.blocks))))
    ensures r == Done && IsSound(old(card.blocks), part) ==>
              vol != null && vol.Valid() && RootFits(BpbOf(old(card.blocks)[VolumeStart(old(card.blocks), part)]), v)
  {
    hide Pow2, BpbOf, PartitionAt, FieldsOf, Consistent, Layout.Fits, BlockCache.Valid, Mirrored, IsSound, RootFits,
      Refusable, OffCard;
    vol := null;
    var cache := new BlockCache(card);
    r, v := Init(cache, part);
    if r == Done && v.fatType != 12 {
      ghost var g := LayoutOf(v);
      vol := new SdVolume(cache, LayoutOf(v), if g.Fits(|cache.disk|) then Mirrored(g, cache.disk) else false);
    }
    if r == Done && IsSound(cache.disk, part) {
      SoundFits(cache.disk, part, v);
    }
  }

  lemma SoundFits(d: Disk, part: nat, v: Fields)
    requires 0 < |d| && part <= 4 && IsSound(d, part) && Initialized(d, part, v)
    ensures LayoutOf(v).Fits(|d|) && v.fatType != 12 && RootFits(BpbOf(d[VolumeStart(d, part)]), v)
  {
    hide Pow2, BpbOf, PartitionAt, FieldsOf, Consistent, Layout.Fits;
    LayoutFits(BpbOf(d[VolumeStart(d, part)]), VolumeStart(d, part), v.shift, |d|);
  }
}
