/** Where things are on a FAT volume: FAT entries, data clusters and the blocks of a
    file (Modules/SD/SdVolume.cpp:161-208 and Modules/SD/SdFat.h:505-526). */
module Layouts {
  import opened Bytes
  import opened Chains

  type Disk = seq<Block>

  /** The value of `cacheBlockNumber_` that stands for "no block". No card is so large
      that it has a block of this number. */
  const NO_BLOCK: nat := 0xFFFF_FFFF
  const EOC: nat := 0x0FFF_FFFF
  const FAT32_ENTRIES: nat := 0x1000_0000

  datatype FatType = Fat16 | Fat32

  function Pow2(n: nat): (p: nat)
    ensures p >= 1
  {
    if n == 0 then 1 else 2 * Pow2(n - 1)
  }

  /** The geometry fields of `SdVolume`, fixed once the volume is initialized. */
  datatype Layout = Layout(
    fatType: FatType, fatCount: nat, fatStart: nat, blocksPerFat: nat,
    rootStart: nat, rootEntries: nat, dataStart: nat,
    blocksPerCluster: nat, clusterSizeShift: nat, clusterCount: nat)
  {
    function EocMin(): nat {
      if fatType == Fat16 then 0xFFF8 else 0x0FFF_FFF8
    }

    predicate IsEoc(v: nat) {
      v >= EocMin()
    }

    /** One more than the largest cluster number. */
    function Clusters(): nat {
      clusterCount + 2
    }

    /** Blocks of the first FAT and of the copy that is kept in step with it. */
    function FatBlocks(): nat {
      if fatCount > 1 then 2 * blocksPerFat else blocksPerFat
    }

    predicate IsFatBlock(b: int) {
      fatStart <= b < fatStart + FatBlocks()
    }

    /** The volume lies within the first `total` blocks, its regions follow one another,
        and every cluster has a FAT entry below the end-of-chain marks. */
    predicate Fits(total: nat)
      ensures Fits(total) ==>
                && blocksPerCluster > 0 && total < NO_BLOCK && Clusters() < EocMin()
                && 1 <= fatStart && fatStart + FatBlocks() <= dataStart <= total
    {
      && fatStart >= 1 && fatCount >= 1 && blocksPerCluster == Pow2(clusterSizeShift)
      && (fatType == Fat16 ==> fatStart + FatBlocks() <= rootStart
                               && rootStart + (32 * rootEntries + 511) / 512 == dataStart)
      && (fatType == Fat32 ==> fatStart + FatBlocks() <= dataStart)
      && (if fatType == Fat16 then clusterCount + 1 < 256 * blocksPerFat else clusterCount + 1 < 128 * blocksPerFat)
      && dataStart + clusterCount * blocksPerCluster <= total < NO_BLOCK
      && clusterCount + 2 < EocMin()
    }
  }

  // ---- Division by the cluster size ----------------------------------------

  lemma DivBound(k: nat, b: nat, n: nat)
    requires b > 0
    ensures k < n * b <==> k / b < n
  {
    assert k == (k / b) * b + k % b;
    if k / b < n {
      assert (k / b + 1) * b <= n * b;
    } else {
      assert n * b <= (k / b) * b;
    }
  }

  lemma DivUnique(k: nat, b: nat, q: nat, r: nat)
    requires b > 0 && r < b && k == q * b + r
    ensures k / b == q && k % b == r
  {
    DivBound(k, b, q + 1);
    if k / b < q {
      DivBound(k, b, q);
    }
    assert k == (k / b) * b + k % b;
  }

  /** Moving back one block stays in the cluster unless the block starts it. */
  lemma DivPred(k: nat, b: nat)
    requires b > 0 && k > 0
    ensures k % b == 0 ==> k / b > 0 && (k - 1) / b == k / b - 1
    ensures k % b != 0 ==> (k - 1) / b == k / b
  {
    var q, r := k / b, k % b;
    assert k == q * b + r;
    if r == 0 {
      assert q > 0;
      assert k - 1 == (q - 1) * b + (b - 1) by {
        assert q * b == (q - 1) * b + b;
      }
      DivUnique(k - 1, b, q - 1, b - 1);
    } else {
      DivUnique(k - 1, b, q, r - 1);
    }
  }

  // ---- FAT entries -----------------------------------------------------------

  function EntryBlock(g: Layout, c: nat): nat {
    g.fatStart + if g.fatType == Fat16 then c / 256 else c / 128
  }

  function EntryIndex(g: Layout, c: nat): nat {
    if g.fatType == Fat16 then c % 256 else c % 128
  }

  /** The entry of cluster `c`; of a 32-bit entry only 28 bits count. */
  function Entry(g: Layout, d: Disk, c: nat): (v: nat)
    requires g.Fits(|d|) && c < g.Clusters()
  {
    EntryFits(g, |d|, c);
    EntryIn(g, d[EntryBlock(g, c)], c)
  }

  function EntryIn(g: Layout, b: Block, c: nat): nat {
    if g.fatType == Fat16 then WordOf(b, c % 256) else LongOf(b, c % 128)
  }

  lemma EntryFits(g: Layout, total: nat, c: nat)
    requires g.Fits(total) && c < g.Clusters()
    ensures g.fatStart <= EntryBlock(g, c) < g.fatStart + g.blocksPerFat
    ensures EntryBlock(g, c) + (g.FatBlocks() - g.blocksPerFat) < total
    ensures 1 <= g.fatStart && g.fatStart + g.FatBlocks() <= g.dataStart <= total < NO_BLOCK
  {
  }

  /** What a value reads back as after it was stored in the FAT. */
  function Stored(g: Layout, v: nat): nat {
    if g.fatType == Fat16 then v % TWO_16 else v % FAT32_ENTRIES
  }

  /** The end-of-chain mark as it reads back: it ends a chain on either type of FAT,
      although a 16-bit entry keeps only its low half. */
  function EndMark(g: Layout): (m: nat)
    ensures m >= g.EocMin()
  {
    Stored(g, EOC)
  }

  /** The end marks are 0xFFF8 to 0xFFFF on FAT16, 0x0FFFFFF8 to 0x0FFFFFFF on FAT32, and the last of
      them is stored. */
  lemma EndMarks(g: Layout, v: nat)
    requires v < if g.fatType == Fat16 then 0x1_0000 else 0x1000_0000
    ensures g.IsEoc(v) <==> v / 8 == if g.fatType == Fat16 then 0x1FFF else 0x1FF_FFFF
    ensures EndMark(g) == if g.fatType == Fat16 then 0xFFFF else 0xFFF_FFFF
  {
  }

  lemma StoredSmall(g: Layout, v: nat)
    requires v < g.EocMin()
    ensures Stored(g, v) == v
  {
  }

  function PutInBlock(g: Layout, b: Block, c: nat, v: nat): Block {
    if g.fatType == Fat16 then PutWord(b, c % 256, v) else PutLong(b, c % 128, v)
  }

  function WordOf(b: Block, i: nat): nat
    requires i < 256
  {
    Word16(b, 2 * i)
  }

  function LongOf(b: Block, i: nat): nat
    requires i < 128
  {
    Word32(b, 4 * i) % FAT32_ENTRIES
  }

  function PutWord(b: Block, i: nat, v: nat): (r: Block)
    requires i < 256
    ensures forall j :: 0 <= j < 256 ==> WordOf(r, j) == if i == j then v % TWO_16 else WordOf(b, j)
  {
    Put16(b, 2 * i, v)
  }

  function PutLong(b: Block, i: nat, v: nat): (r: Block)
    requires i < 128
    ensures forall j :: 0 <= j < 128 ==> LongOf(r, j) == if i == j then v % FAT32_ENTRIES else LongOf(b, j)
  {
    LowBits(v);
    var r := Put32(b, 4 * i, v);
    assert forall j :: 0 <= j < 128 && j != i ==> Word32(r, 4 * j) == Word32(b, 4 * j);
    r
  }

  lemma LowBits(v: nat)
    ensures v % TWO_32 % FAT32_ENTRIES == v % FAT32_ENTRIES
  {
  }

  /** The disk after an entry is stored, the copy of its block in the second FAT included. */
  function PutEntry(g: Layout, d: Disk, c: nat, v: nat): (d': Disk)
    requires g.Fits(|d|) && c < g.Clusters()
    ensures |d'| == |d|
  {
    EntryFits(g, |d|, c);
    var lba := EntryBlock(g, c);
    var b := PutInBlock(g, d[lba], c, v);
    if g.fatCount > 1 then d[lba := b][lba + g.blocksPerFat := b] else d[lba := b]
  }

  /** The file allocation table as a sequence of entries, one for each cluster number. */
  function Fat(g: Layout, d: Disk): (fat: seq<nat>)
    requires g.Fits(|d|)
    ensures |fat| == g.Clusters() <= g.EocMin()
    ensures forall c :: 0 <= c < g.Clusters() ==> fat[c] == Entry(g, d, c)
  {
    seq(g.Clusters(), c requires 0 <= c < g.Clusters() => Entry(g, d, c))
  }

  // ---- The same, said of the bytes alone ---------------------------------------------------

  /** The bytes of the card that are the entry of cluster `c`: on FAT16 two bytes, low byte first;
      on FAT32 four, of which the top four bits do not count. */
  ghost predicate IsEntry(g: Layout, d: Disk, c: nat, v: nat)
    requires g.Fits(|d|) && c < g.Clusters()
  {
    EntryFits(g, |d|, c);
    if g.fatType == Fat16 then
      var b, p := d[g.fatStart + c / 256], 2 * (c % 256);
      v == b[p] as int + 0x100 * b[p + 1] as int
    else
      var b, p := d[g.fatStart + c / 128], 4 * (c % 128);
      v == b[p] as int + 0x100 * b[p + 1] as int + 0x1_0000 * b[p + 2] as int + 0x100_0000 * (b[p + 3] as int % 16)
  }

  lemma EntryIsBytes(g: Layout, d: Disk, c: nat, v: nat)
    requires g.Fits(|d|) && c < g.Clusters()
    ensures Fat(g, d)[c] == v <==> IsEntry(g, d, c, v)
  {
    EntryFits(g, |d|, c);
    if g.fatType == Fat32 {
      var b, p := d[g.fatStart + c / 128], 4 * (c % 128);
      TopNibble(b[p] as int + 0x100 * b[p + 1] as int + 0x1_0000 * b[p + 2] as int, b[p + 3] as int);
    }
  }

  lemma TopNibble(low: nat, high: nat)
    requires low < 0x100_0000 && high < 0x100
    ensures (low + 0x100_0000 * high) % 0x1000_0000 == low + 0x100_0000 * (high % 16)
  {
  }

  /** The block with the bytes of a value in the place of an entry, and no other byte changed. */
  function WithBytes(g: Layout, b: Block, c: nat, v: nat): Block {
    if g.fatType == Fat16 then
      var p := 2 * (c % 256);
      b[p := v % 0x100][p + 1 := v / 0x100 % 0x100]
    else
      var p := 4 * (c % 128);
      b[p := v % 0x100][p + 1 := v / 0x100 % 0x100][p + 2 := v / 0x1_0000 % 0x100][p + 3 := v / 0x100_0000 % 0x100]
  }

  /** The card with that block in the first FAT, and in the second if there is one. */
  ghost predicate IsStored(g: Layout, d: Disk, d': Disk, c: nat, v: nat)
    requires g.Fits(|d|) && c < g.Clusters()
  {
    EntryFits(g, |d|, c);
    var lba := g.fatStart + if g.fatType == Fat16 then c / 256 else c / 128;
    var b := WithBytes(g, d[lba], c, v);
    && |d'| == |d| && d'[lba] == b && (g.fatCount > 1 ==> d'[lba + g.blocksPerFat] == b)
    && forall i :: 0 <= i < |d| && i != lba && !(g.fatCount > 1 && i == lba + g.blocksPerFat) ==> d'[i] == d[i]
  }

  lemma StoredIsBytes(g: Layout, d: Disk, c: nat, v: nat)
    requires g.Fits(|d|) && c < g.Clusters()
    ensures IsStored(g, d, PutEntry(g, d, c, v), c, v)
  {
    EntryFits(g, |d|, c);
    var b := d[EntryBlock(g, c)];
    FourBytes(v);
    assert PutInBlock(g, b, c, v) == WithBytes(g, b, c, v);
  }

  lemma FourBytes(v: nat)
    ensures v % TWO_16 % 0x100 == v % 0x100 && v % TWO_16 / 0x100 % 0x100 == v / 0x100 % 0x100
    ensures v / TWO_16 % 0x100 == v / 0x1_0000 % 0x100 && v / TWO_16 / 0x100 % 0x100 == v / 0x100_0000 % 0x100
  {
    assert v / 0x100 == v / TWO_16 * 0x100 + v % TWO_16 / 0x100;
  }

  lemma PutInBlockReads(g: Layout, b: Block, c: nat, v: nat, e: nat)
    ensures EntryIn(g, PutInBlock(g, b, c, v), e) ==
            if EntryIndex(g, e) == EntryIndex(g, c) then Stored(g, v) else EntryIn(g, b, e)
  {
  }

  lemma PutEntryReads(g: Layout, d: Disk, c: nat, v: nat, e: nat)
    requires g.Fits(|d|) && c < g.Clusters() && e < g.Clusters()
    ensures Entry(g, PutEntry(g, d, c, v), e) == if e == c then Stored(g, v) else Entry(g, d, e)
  {
    EntryFits(g, |d|, c);
    EntryFits(g, |d|, e);
    PutInBlockReads(g, d[EntryBlock(g, c)], c, v, e);
    assert EntryBlock(g, e) == EntryBlock(g, c) && EntryIndex(g, e) == EntryIndex(g, c) ==> e == c;
  }

  /** Storing an entry changes that entry of the table and no other. */
  lemma FatOfPut(g: Layout, d: Disk, c: nat, v: nat)
    requires g.Fits(|d|) && c < g.Clusters()
    ensures Fat(g, PutEntry(g, d, c, v)) == Fat(g, d)[c := Stored(g, v)]
  {
    forall e | 0 <= e < g.Clusters()
      ensures Fat(g, PutEntry(g, d, c, v))[e] == Fat(g, d)[c := Stored(g, v)][e]
    {
      PutEntryReads(g, d, c, v, e);
    }
  }

  /** The table depends on the blocks of the first FAT only. */
  lemma FatOfOther(g: Layout, d: Disk, d': Disk)
    requires g.Fits(|d|) && |d'| == |d|
    requires forall b :: 0 <= b < |d| && g.IsFatBlock(b) ==> d'[b] == d[b]
    ensures Fat(g, d') == Fat(g, d)
  {
    forall e | 0 <= e < g.Clusters()
      ensures Entry(g, d', e) == Entry(g, d, e)
    {
      EntryFits(g, |d|, e);
    }
  }

  /** The two copies of the FAT hold the same blocks. */
  predicate Mirrored(g: Layout, d: Disk)
    requires g.Fits(|d|)
  {
    EntryFits(g, |d|, 0);
    g.fatCount > 1 ==>
      forall b :: g.fatStart <= b < g.fatStart + g.blocksPerFat ==> d[b + g.blocksPerFat] == d[b]
  }

  lemma PutKeepsMirror(g: Layout, d: Disk, c: nat, v: nat)
    requires g.Fits(|d|) && c < g.Clusters() && Mirrored(g, d)
    ensures Mirrored(g, PutEntry(g, d, c, v))
  {
    EntryFits(g, |d|, c);
  }

  /** Changing a block outside the FATs changes neither of them. */
  lemma DataKeepsFat(g: Layout, d: Disk, d': Disk, block: nat)
    requires g.Fits(|d|) && |d'| == |d| && !g.IsFatBlock(block)
    requires forall b :: 0 <= b < |d| && b != block ==> d'[b] == d[b]
    ensures Fat(g, d') == Fat(g, d)
    ensures Mirrored(g, d) ==> Mirrored(g, d')
  {
    FatOfOther(g, d, d');
    EntryFits(g, |d|, 0);
  }

  // ---- Data blocks -------------------------------------------------------------

  function ClusterStart(g: Layout, c: nat): (b: nat)
    requires c >= 2
    ensures b >= g.dataStart
  {
    g.dataStart + (c - 2) * g.blocksPerCluster
  }

  /** The cluster a data block belongs to: the inverse of `ClusterStart`. */
  function ClusterOf(g: Layout, b: nat): (c: nat)
    requires g.dataStart <= b && g.blocksPerCluster > 0
    ensures c >= 2
  {
    2 + (b - g.dataStart) / g.blocksPerCluster
  }

  lemma RunBounds(start: nat, n: nat, b: nat, total: nat, c: nat, r: nat)
    requires c < n && r < b && start + n * b <= total
    ensures start + c * b + r < total
    ensures (c * b + r) / b == c && (c * b + r) % b == r
  {
    DivUnique(c * b + r, b, c, r);
    DivBound(c * b + r, b, n);
  }

  /** Cluster numbers map to disjoint runs of blocks inside the volume. */
  lemma ClusterBlocks(g: Layout, total: nat, c: nat, r: nat)
    requires g.Fits(total) && 2 <= c < g.Clusters() && r < g.blocksPerCluster
    ensures g.dataStart <= ClusterStart(g, c) + r < total
    ensures ClusterOf(g, ClusterStart(g, c) + r) == c
    ensures (ClusterStart(g, c) + r - g.dataStart) % g.blocksPerCluster == r
  {
    RunBounds(g.dataStart, g.clusterCount, g.blocksPerCluster, total, c - 2, r);
    assert ClusterStart(g, c) + r - g.dataStart == (c - 2) * g.blocksPerCluster + r;
  }

  /** A run of clusters is a run of blocks. */
  lemma RunBlocks(g: Layout, b: nat, n: nat)
    requires b >= 2 && n > 0
    ensures ClusterStart(g, b + n - 1) + g.blocksPerCluster == ClusterStart(g, b) + n * g.blocksPerCluster
  {
    var k := g.blocksPerCluster;
    assert (b + n - 3) * k == (b - 2) * k + (n - 1) * k;
    assert n * k == (n - 1) * k + k;
  }

  /** Every element of a chain is the number of a data cluster. */
  predicate InRange(g: Layout, ch: seq<nat>) {
    forall i :: 0 <= i < |ch| ==> 2 <= ch[i] < g.Clusters()
  }

  function Blocks(g: Layout, ch: seq<nat>): nat {
    |ch| * g.blocksPerCluster
  }

  /** The bytes in `n` clusters. */
  function ClusterBytes(g: Layout, n: nat): nat {
    n * g.blocksPerCluster * BLOCK_SIZE
  }

  lemma ClusterBytesNext(g: Layout, n: nat)
    ensures ClusterBytes(g, 0) == 0
    ensures ClusterBytes(g, n + 1) == ClusterBytes(g, n) + BLOCK_SIZE * g.blocksPerCluster
  {
  }

  /** The place in its chain of the cluster that holds block `k` of a file. */
  function ClusterIx(g: Layout, ch: seq<nat>, k: nat): (i: nat)
    requires g.blocksPerCluster > 0 && k < Blocks(g, ch)
    ensures i < |ch|
  {
    DivBound(k, g.blocksPerCluster, |ch|);
    k / g.blocksPerCluster
  }

  /** The number of the `k`th block of the file stored in chain `ch`. */
  function BlockAt(g: Layout, ch: seq<nat>, k: nat): (b: nat)
    requires g.blocksPerCluster > 0 && InRange(g, ch) && k < Blocks(g, ch)
    ensures b >= g.dataStart
  {
    ClusterStart(g, ch[ClusterIx(g, ch, k)]) + k % g.blocksPerCluster
  }

  predicate Owns(g: Layout, ch: seq<nat>, b: nat)
    requires g.blocksPerCluster > 0
  {
    g.dataStart <= b && ClusterOf(g, b) in ch
  }

  lemma BlockAtOwned(g: Layout, total: nat, ch: seq<nat>, k: nat)
    requires g.Fits(total) && InRange(g, ch) && k < Blocks(g, ch)
    ensures ClusterOf(g, BlockAt(g, ch, k)) == ch[ClusterIx(g, ch, k)]
    ensures Owns(g, ch, BlockAt(g, ch, k))
    ensures g.fatStart + g.FatBlocks() <= g.dataStart <= BlockAt(g, ch, k) < total
    ensures !g.IsFatBlock(BlockAt(g, ch, k))
  {
    var i, r := BlockIndex(g, ch, k);
    ClusterBlocks(g, total, ch[i], r);
    EntryFits(g, total, 0);
  }

  /** The place of block `k` in its chain: which cluster, and which block of it. */
  lemma BlockIndex(g: Layout, ch: seq<nat>, k: nat) returns (i: nat, r: nat)
    requires g.blocksPerCluster > 0 && InRange(g, ch) && k < Blocks(g, ch)
    ensures i == ClusterIx(g, ch, k) == k / g.blocksPerCluster && r == k % g.blocksPerCluster < g.blocksPerCluster
    ensures BlockAt(g, ch, k) == ClusterStart(g, ch[i]) + r
    ensures k == i * g.blocksPerCluster + r
  {
    DivBound(k, g.blocksPerCluster, |ch|);
    i, r := k / g.blocksPerCluster, k % g.blocksPerCluster;
  }

  /** Different blocks of a file are different blocks of the card. */
  lemma BlockAtInjective(g: Layout, total: nat, ch: seq<nat>, k: nat, l: nat)
    requires g.Fits(total) && InRange(g, ch) && Unique(ch)
    requires k < Blocks(g, ch) && l < Blocks(g, ch) && BlockAt(g, ch, k) == BlockAt(g, ch, l)
    ensures k == l
  {
    var i, r := BlockIndex(g, ch, k);
    var j, t := BlockIndex(g, ch, l);
    ClusterBlocks(g, total, ch[i], r);
    ClusterBlocks(g, total, ch[j], t);
    assert i == j && r == t;
  }

  /** Lengthening a chain leaves the blocks it already had in place. */
  lemma BlockAtPrefix(g: Layout, ch: seq<nat>, ch': seq<nat>, k: nat)
    requires g.blocksPerCluster > 0 && InRange(g, ch) && InRange(g, ch')
    requires ch <= ch' && k < Blocks(g, ch)
    ensures k < Blocks(g, ch') && BlockAt(g, ch', k) == BlockAt(g, ch, k)
  {
    DivBound(k, g.blocksPerCluster, |ch|);
    DivBound(k, g.blocksPerCluster, |ch'|);
  }

  // ---- File contents -------------------------------------------------------------

  predicate Room(g: Layout, ch: seq<nat>, size: nat) {
    size <= Blocks(g, ch) * BLOCK_SIZE
  }

  function ByteAt(g: Layout, d: Disk, ch: seq<nat>, p: nat): byte
    requires g.Fits(|d|) && InRange(g, ch) && p / BLOCK_SIZE < Blocks(g, ch)
  {
    BlockAtOwned(g, |d|, ch, p / BLOCK_SIZE);
    d[BlockAt(g, ch, p / BLOCK_SIZE)][p % BLOCK_SIZE]
  }

  /** The first `size` bytes stored in the clusters of a chain, in chain order. */
  function FileBytes(g: Layout, d: Disk, ch: seq<nat>, size: nat): (s: seq<byte>)
    requires g.Fits(|d|) && InRange(g, ch) && Room(g, ch, size)
    ensures |s| == size
    ensures forall p :: 0 <= p < size ==> s[p] == ByteAt(g, d, ch, p)
  {
    seq(size, p requires 0 <= p < size => ByteAt(g, d, ch, p))
  }

  /** Where byte `p` of a file is, said of the card's blocks alone: if that is block `r` of the file's
      cluster number `i`, then it is in the card's block `b`, where clusters follow one another from
      the start of the data on, and the first is number 2. */
  lemma FileByteIs(g: Layout, d: Disk, ch: seq<nat>, size: nat, p: nat, i: nat, r: nat, b: nat)
    requires g.Fits(|d|) && InRange(g, ch) && Room(g, ch, size) && p < size
    requires i < |ch| && r < g.blocksPerCluster && p / 512 == i * g.blocksPerCluster + r
    requires b == g.dataStart + (ch[i] - 2) * g.blocksPerCluster + r
    ensures b < |d| && FileBytes(g, d, ch, size)[p] == d[b][p % 512]
  {
    hide Layout.Fits, Pow2, ClusterOf, Room;
    DivUnique(p / 512, g.blocksPerCluster, i, r);
    ClusterBlocks(g, |d|, ch[i], r);
    DivBound(p / 512, g.blocksPerCluster, |ch|);
    assert FileBytes(g, d, ch, size)[p] == ByteAt(g, d, ch, p);
  }

  /** File contents depend on the blocks of the file's own clusters only. */
  lemma FileBytesOther(g: Layout, d: Disk, d': Disk, ch: seq<nat>, size: nat)
    requires g.Fits(|d|) && |d'| == |d| && InRange(g, ch) && Room(g, ch, size)
    requires forall b :: 0 <= b < |d| && Owns(g, ch, b) ==> d'[b] == d[b]
    ensures FileBytes(g, d', ch, size) == FileBytes(g, d, ch, size)
  {
    forall p | 0 <= p < size
      ensures ByteAt(g, d', ch, p) == ByteAt(g, d, ch, p)
    {
      BlockAtOwned(g, |d|, ch, p / BLOCK_SIZE);
    }
  }

  /** Lengthening the chain, or asking for fewer bytes, keeps the bytes that are there. */
  lemma FileBytesPrefix(g: Layout, d: Disk, ch: seq<nat>, ch': seq<nat>, size: nat, size': nat)
    requires g.Fits(|d|) && InRange(g, ch) && InRange(g, ch') && Room(g, ch, size) && Room(g, ch', size')
    requires size' <= size && (ch <= ch' || ch' <= ch)
    ensures FileBytes(g, d, ch', size') == FileBytes(g, d, ch, size)[..size']
  {
    forall p | 0 <= p < size'
      ensures ByteAt(g, d, ch', p) == ByteAt(g, d, ch, p)
    {
      if ch <= ch' {
        BlockAtPrefix(g, ch, ch', p / BLOCK_SIZE);
      } else {
        BlockAtPrefix(g, ch', ch, p / BLOCK_SIZE);
      }
    }
  }

  /** Patching block `k` of a file is a splice of its contents. The file may grow within
      that block, up to the end of the patch. */
  lemma FileBytesPatch(g: Layout, d: Disk, ch: seq<nat>, size: nat, p: nat, src: seq<byte>, blk: Block)
    requires g.Fits(|d|) && InRange(g, ch) && Unique(ch) && Room(g, ch, size)
    requires p <= size && p / BLOCK_SIZE < Blocks(g, ch) && p % BLOCK_SIZE + |src| <= BLOCK_SIZE
    requires
      var was := d[BlockBounded(g, |d|, ch, p / BLOCK_SIZE)];
      blk == Patch(was, p % BLOCK_SIZE, src)
      || (p == size && p % BLOCK_SIZE == 0 && blk[..|src|] == src)
    ensures
      var size' := if p + |src| <= size then size else p + |src|;
      Room(g, ch, size') &&
      FileBytes(g, d[BlockBounded(g, |d|, ch, p / BLOCK_SIZE) := blk], ch, size') ==
      Splice(FileBytes(g, d, ch, size), p, src)
  {
    var k := p / BLOCK_SIZE;
    var b := BlockBounded(g, |d|, ch, k);
    var d' := d[b := blk];
    var size' := if p + |src| <= size then size else p + |src|;
    var want := Splice(FileBytes(g, d, ch, size), p, src);
    forall q | 0 <= q < size'
      ensures ByteAt(g, d', ch, q) == want[q]
    {
      var l := q / BLOCK_SIZE;
      BlockAtOwned(g, |d|, ch, l);
      if l == k {
        assert d'[b] == blk;
      } else {
        if BlockAt(g, ch, l) == b {
          BlockAtInjective(g, |d|, ch, l, k);
        }
        assert q < p || p + |src| <= q;
      }
    }
    assert FileBytes(g, d', ch, size') == want;
  }

  /** `BlockAt`, known to be a block of the disk. */
  function BlockBounded(g: Layout, total: nat, ch: seq<nat>, k: nat): (b: nat)
    requires g.Fits(total) && InRange(g, ch) && k < Blocks(g, ch)
    ensures b == BlockAt(g, ch, k) && b < total
  {
    BlockAtOwned(g, total, ch, k);
    BlockAt(g, ch, k)
  }
}
