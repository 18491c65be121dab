/** What an open file is, on values: its chain, its cursor and its directory entry, and
    what an operation on one file may do to the volume. `SdFile` is proved against it. */
module FileModel {
  import opened Bytes
  import opened Layouts
  import opened Chains
  import opened Cache

  /** The fields of a handle, with the chain of its clusters. The root directory of a FAT16
      volume is `fixed`: it has no clusters but a region of its own. */
  datatype FileState = FileState(fixed: bool, first: nat, chain: seq<nat>, size: nat, pos: nat, cur: nat,
                                 block: nat, index: nat, dirDirty: bool)

  ghost predicate HasChain(fat: seq<nat>, eoc: nat, first: nat, ch: seq<nat>) {
    if first == 0 then ch == [] else IsChain(fat, eoc, ch) && ch[0] == first
  }

  /** `ch` is the chain of a file and has room for `size` bytes. */
  ghost predicate Stores(g: Layout, d: Disk, first: nat, ch: seq<nat>, size: nat)
    requires g.Fits(|d|)
  {
    HasChain(Fat(g, d), g.EocMin(), first, ch) && InRange(g, ch) && Unique(ch) && Room(g, ch, size)
  }

  // ---- The directory entry of a file -----------------------------------------------

  const ENTRY_SIZE: nat := 32
  const NAME_SIZE: nat := 11
  const OFF_ATTR: nat := 11
  const OFF_CLUSTER_HIGH: nat := 20
  const OFF_CLUSTER_LOW: nat := 26
  const OFF_SIZE: nat := 28

  function EntryFirst(b: Block, index: nat): nat
    requires index < 16
  {
    TWO_16 * Word16(b, ENTRY_SIZE * index + OFF_CLUSTER_HIGH) + Word16(b, ENTRY_SIZE * index + OFF_CLUSTER_LOW)
  }

  function EntrySize(b: Block, index: nat): nat
    requires index < 16
  {
    Word32(b, ENTRY_SIZE * index + OFF_SIZE)
  }

  /** A directory block after the first-cluster and size fields of an entry were set. */
  function SetFields(b: Block, index: nat, first: nat, size: nat): (b': Block)
    requires index < 16 && first < TWO_32 && size < TWO_32
  {
    var e := ENTRY_SIZE * index;
    Put16(Put16(Put32(b, e + OFF_SIZE, size), e + OFF_CLUSTER_LOW, first % TWO_16), e + OFF_CLUSTER_HIGH,
          first / TWO_16)
  }

  lemma SetFieldsReads(b: Block, index: nat, first: nat, size: nat)
    requires index < 16 && first < TWO_32 && size < TWO_32
    ensures EntryFirst(SetFields(b, index, first, size), index) == first
    ensures EntrySize(SetFields(b, index, first, size), index) == size
  {
    hide Put16, Put32, Word16, Word32;
    var e := ENTRY_SIZE * index;
    var b1 := Put32(b, e + OFF_SIZE, size);
    var b2 := Put16(b1, e + OFF_CLUSTER_LOW, first % TWO_16);
    var b3 := Put16(b2, e + OFF_CLUSTER_HIGH, first / TWO_16);
    WordsKept(b2, b3, e + OFF_CLUSTER_LOW);
    WordsKept(b1, b2, e + OFF_SIZE);
    WordsKept(b2, b3, e + OFF_SIZE);
  }

  lemma WordsKept(b: Block, b': Block, p: nat)
    requires p + 2 <= BLOCK_SIZE && b'[p] == b[p] && b'[p + 1] == b[p + 1]
    ensures Word16(b', p) == Word16(b, p)
    ensures p + 4 <= BLOCK_SIZE && b'[p + 2] == b[p + 2] && b'[p + 3] == b[p + 3] ==> Word32(b', p) == Word32(b, p)
  {
  }

  lemma SetFieldsElsewhere(b: Block, index: nat, first: nat, size: nat)
    requires index < 16 && first < TWO_32 && size < TWO_32
    ensures SameButFields(b, SetFields(b, index, first, size), index)
  {
    hide Put16, Put32;
    var e := ENTRY_SIZE * index;
    var b' := SetFields(b, index, first, size);
    forall i | 0 <= i < BLOCK_SIZE && !(i / ENTRY_SIZE == index && IsField(i % ENTRY_SIZE))
      ensures b'[i] == b[i]
    {
      assert i - e != i % ENTRY_SIZE ==> i < e || e + ENTRY_SIZE <= i;
    }
  }

  /** `b'` differs from `b` at most in the first-cluster and size fields of one entry. */
  ghost predicate SameButFields(b: Block, b': Block, index: nat) {
    forall i :: 0 <= i < BLOCK_SIZE && !(i / ENTRY_SIZE == index && IsField(i % ENTRY_SIZE)) ==> b'[i] == b[i]
  }

  predicate IsField(i: nat) {
    OFF_CLUSTER_HIGH <= i < OFF_CLUSTER_HIGH + 2 || OFF_CLUSTER_LOW <= i < ENTRY_SIZE
  }

  /** The entry is in a directory block that this file's data can never occupy: outside the
      FAT, and in no cluster or in one that is in use by somebody else. */
  ghost predicate SlotPlaced(g: Layout, d: Disk, ch: seq<nat>, block: nat, index: nat)
    requires g.Fits(|d|)
  {
    && 0 < block < |d| && index < 16 && !g.IsFatBlock(block)
    && (g.dataStart <= block ==>
          ClusterOf(g, block) < g.Clusters() && Entry(g, d, ClusterOf(g, block)) != 0 && ClusterOf(g, block) !in ch)
  }

  ghost predicate SlotHolds(d: Disk, f: FileState)
    requires 0 < f.block < |d| && f.index < 16
  {
    EntryFirst(d[f.block], f.index) == f.first && EntrySize(d[f.block], f.index) == f.size
  }

  // ---- The cursor ----------------------------------------------------------------------

  /** The current cluster holds the byte before the current position. */
  ghost predicate CursorOn(g: Layout, ch: seq<nat>, pos: nat, cur: nat)
    requires g.blocksPerCluster > 0
  {
    if pos == 0 then cur == 0
    else (pos - 1) / BLOCK_SIZE < Blocks(g, ch) && cur == ch[ClusterIx(g, ch, (pos - 1) / BLOCK_SIZE)]
  }

  /** The current cluster holds the byte at the current position. */
  ghost predicate CursorAt(g: Layout, ch: seq<nat>, pos: nat, cur: nat)
    requires g.blocksPerCluster > 0
  {
    pos / BLOCK_SIZE < Blocks(g, ch) && cur == ch[ClusterIx(g, ch, pos / BLOCK_SIZE)]
  }

  predicate AtBoundary(g: Layout, pos: nat)
    requires g.blocksPerCluster > 0
  {
    pos % BLOCK_SIZE == 0 && pos / BLOCK_SIZE % g.blocksPerCluster == 0
  }

  /** All that is known about the current cluster after an operation failed half way: it is
      some cluster of the file, or the link that ends the chain. */
  ghost predicate CursorLoose(g: Layout, ch: seq<nat>, pos: nat, cur: nat) {
    cur in ch || g.IsEoc(cur) || (pos == 0 && cur == 0)
  }

  /** The place in the chain of the cluster that holds the byte before position `pos`. */
  function ClusterBefore(g: Layout, pos: nat): nat
    requires g.blocksPerCluster > 0 && pos > 0
  {
    (pos - 1) / BLOCK_SIZE / g.blocksPerCluster
  }

  /** Whether a seek reaches the right cluster although the cursor was off. */
  predicate SeekHeals(g: Layout, from: nat, to: nat)
    requires g.blocksPerCluster > 0
  {
    to == 0 || from == 0 || ClusterBefore(g, to) < ClusterBefore(g, from)
  }

  // ---- The invariant of an open file ------------------------------------------------------

  /** A dirty block of the file holds bytes of the file. */
  ghost predicate TailClean(g: Layout, s: CacheState, ch: seq<nat>, extent: nat)
    requires g.blocksPerCluster > 0 && InRange(g, ch)
  {
    s.dirty ==> forall k :: 0 <= k < Blocks(g, ch) && BlockAt(g, ch, k) == s.number ==> BLOCK_SIZE * k < extent
  }

  /** The chain of the handle is there, and has room for `extent` bytes. */
  ghost predicate Chained(g: Layout, d: Disk, f: FileState, extent: nat)
    requires g.Fits(|d|)
  {
    !f.fixed && Stores(g, d, f.first, f.chain, extent) && f.size <= extent < TWO_32
  }

  /** All but the cursor and the cache: the chain has room for `extent` bytes, `f.size` of
      which belong to the file for good, and the directory entry is where it should be and
      up to date unless noted otherwise. */
  ghost predicate Sound(g: Layout, d: Disk, f: FileState, extent: nat)
    requires g.Fits(|d|)
    ensures Sound(g, d, f, extent) ==> InRange(g, f.chain) && Room(g, f.chain, extent) && f.size <= extent < TWO_32
  {
    && Chained(g, d, f, extent)
    && SlotPlaced(g, d, f.chain, f.block, f.index)
    && (!f.dirDirty ==> SlotHolds(d, f))
  }

  /** The invariant: sound, with the cursor on the byte before the position. */
  ghost predicate Good(g: Layout, s: CacheState, f: FileState)
    requires g.Fits(|s.disk|)
    ensures Good(g, s, f) ==> InRange(g, f.chain) && Room(g, f.chain, f.size) && f.pos <= f.size < TWO_32
  {
    && Sound(g, s.disk, f, f.size) && TailClean(g, s, f.chain, f.size)
    && f.pos <= f.size && CursorOn(g, f.chain, f.pos, f.cur)
  }

  // ---- Contents ------------------------------------------------------------------------------

  function HomeBlocks(g: Layout, fixed: bool, ch: seq<nat>): nat {
    if fixed then (if g.rootStart <= g.dataStart then g.dataStart - g.rootStart else 0) else Blocks(g, ch)
  }

  /** The file or directory has blocks for `size` bytes. */
  ghost predicate HasBytes(g: Layout, fixed: bool, ch: seq<nat>, size: nat) {
    && g.blocksPerCluster > 0 && InRange(g, ch) && (fixed ==> g.fatType == Fat16)
    && size <= HomeBlocks(g, fixed, ch) * BLOCK_SIZE
  }

  /** The block that holds block `k` of a file or directory. */
  function Home(g: Layout, fixed: bool, ch: seq<nat>, k: nat): nat
    requires g.blocksPerCluster > 0 && InRange(g, ch) && k < HomeBlocks(g, fixed, ch)
  {
    if fixed then g.rootStart + k else BlockAt(g, ch, k)
  }

  lemma HomeFits(g: Layout, total: nat, fixed: bool, ch: seq<nat>, k: nat)
    requires g.Fits(total) && InRange(g, ch) && k < HomeBlocks(g, fixed, ch) && (fixed ==> g.fatType == Fat16)
    ensures 0 < Home(g, fixed, ch, k) < total && !g.IsFatBlock(Home(g, fixed, ch, k))
  {
    if !fixed {
      BlockAtOwned(g, total, ch, k);
    }
  }

  /** What reading a file or directory needs. */
  ghost predicate Readable(g: Layout, d: Disk, f: FileState)
    requires g.Fits(|d|)
    ensures Readable(g, d, f) ==> HasBytes(g, f.fixed, f.chain, f.size) && f.pos <= f.size < TWO_32
    ensures Readable(g, d, f) && !f.fixed ==> CursorOn(g, f.chain, f.pos, f.cur)
  {
    && (if f.fixed then g.fatType == Fat16 && f.chain == [] && f.size <= HomeBlocks(g, true, []) * BLOCK_SIZE
        else Stores(g, d, f.first, f.chain, f.size) && CursorOn(g, f.chain, f.pos, f.cur))
    && f.pos <= f.size < TWO_32
  }

  function HomeByte(g: Layout, d: Disk, fixed: bool, ch: seq<nat>, p: nat): byte
    requires g.Fits(|d|) && InRange(g, ch) && p / BLOCK_SIZE < HomeBlocks(g, fixed, ch)
             && (fixed ==> g.fatType == Fat16)
  {
    HomeFits(g, |d|, fixed, ch, p / BLOCK_SIZE);
    d[Home(g, fixed, ch, p / BLOCK_SIZE)][p % BLOCK_SIZE]
  }

  /** The bytes of a file or directory. */
  ghost function Contents(g: Layout, d: Disk, fixed: bool, ch: seq<nat>, size: nat): (s: seq<byte>)
    requires g.Fits(|d|) && HasBytes(g, fixed, ch, size)
    ensures |s| == size
    ensures !fixed ==> s == FileBytes(g, d, ch, size)
  {
    if fixed then seq(size, p requires 0 <= p < size => HomeByte(g, d, fixed, ch, p))
    else FileBytes(g, d, ch, size)
  }

  /** The part of the contents that lies in one block. */
  lemma ContentsPiece(g: Layout, d: Disk, fixed: bool, ch: seq<nat>, size: nat, p: nat, n: nat)
    requires g.Fits(|d|) && HasBytes(g, fixed, ch, size) && p + n <= size && 0 < n && p % BLOCK_SIZE + n <= BLOCK_SIZE
    ensures p / BLOCK_SIZE < HomeBlocks(g, fixed, ch)
    ensures 0 < Home(g, fixed, ch, p / BLOCK_SIZE) < |d| && !g.IsFatBlock(Home(g, fixed, ch, p / BLOCK_SIZE))
    ensures Contents(g, d, fixed, ch, size)[p..p + n] ==
            d[Home(g, fixed, ch, p / BLOCK_SIZE)][p % BLOCK_SIZE..p % BLOCK_SIZE + n]
  {
    var k := p / BLOCK_SIZE;
    HomeFits(g, |d|, fixed, ch, k);
    forall i | p <= i < p + n
      ensures Contents(g, d, fixed, ch, size)[i] == d[Home(g, fixed, ch, k)][i - BLOCK_SIZE * k]
    {
      assert i / BLOCK_SIZE == k && i % BLOCK_SIZE == i - BLOCK_SIZE * k;
    }
  }

  /** After a piece was read the handle is readable from where the piece ended. */
  lemma ReadableAdvances(g: Layout, d: Disk, f: FileState, f': FileState, n: nat)
    requires g.Fits(|d|) && Readable(g, d, f)
    requires 0 < n && f.pos + n <= f.size && f.pos % BLOCK_SIZE + n <= BLOCK_SIZE
    requires f' == f.(pos := f.pos + n, cur := f'.cur)
    requires !f.fixed ==> CursorAt(g, f.chain, f.pos, f'.cur)
    ensures Readable(g, d, f')
  {
    if !f.fixed {
      CursorAdvances(g, f.chain, f.pos, f'.cur, n);
    }
  }

  // ---- Moving the cursor ------------------------------------------------------------------------

  /** From the byte before the position to the byte at it: the same cluster, unless the
      position starts a cluster. */
  lemma CursorStays(g: Layout, ch: seq<nat>, pos: nat, cur: nat)
    requires g.blocksPerCluster > 0 && CursorOn(g, ch, pos, cur) && !AtBoundary(g, pos)
    ensures CursorAt(g, ch, pos, cur)
  {
    var k := pos / BLOCK_SIZE;
    var b := g.blocksPerCluster;
    if pos % BLOCK_SIZE == 0 {
      assert k > 0 by {
        assert 0 % b == 0;
      }
      DivPred(k, b);
      assert (pos - 1) / BLOCK_SIZE == k - 1;
      DivBound(k - 1, b, |ch|);
      DivBound(k, b, |ch|);
    } else {
      assert (pos - 1) / BLOCK_SIZE == k;
    }
  }

  /** At a cluster boundary the cluster before is the last one, or its link leads on. */
  lemma CursorCrosses(g: Layout, fat: seq<nat>, ch: seq<nat>, pos: nat, cur: nat)
    requires g.blocksPerCluster > 0 && CursorOn(g, ch, pos, cur) && AtBoundary(g, pos) && pos > 0
    requires IsChain(fat, g.EocMin(), ch) && |fat| <= g.EocMin()
    ensures 2 <= cur < |fat| && cur in ch
    ensures g.IsEoc(fat[cur]) ==> cur == ch[|ch| - 1] && pos / BLOCK_SIZE == Blocks(g, ch)
    ensures !g.IsEoc(fat[cur]) ==> CursorAt(g, ch, pos, fat[cur])
  {
    var k := pos / BLOCK_SIZE;
    var b := g.blocksPerCluster;
    DivPred(k, b);
    var i := ClusterIx(g, ch, k - 1);
    assert cur == ch[i] && k / b == i + 1 && k == (k / b) * b + k % b;
    if i + 1 < |ch| {
      assert fat[ch[i]] == ch[i + 1];
      DivBound(k, b, |ch|);
    }
  }

  lemma CursorFirst(g: Layout, ch: seq<nat>)
    requires g.blocksPerCluster > 0 && ch != []
    ensures CursorAt(g, ch, 0, ch[0])
  {
    DivBound(0, g.blocksPerCluster, |ch|);
    assert ClusterIx(g, ch, 0) == 0;
  }

  /** After bytes of the current block were read or written. */
  lemma CursorAdvances(g: Layout, ch: seq<nat>, pos: nat, cur: nat, n: nat)
    requires g.blocksPerCluster > 0 && CursorAt(g, ch, pos, cur) && 0 < n && pos % BLOCK_SIZE + n <= BLOCK_SIZE
    ensures CursorOn(g, ch, pos + n, cur)
  {
    assert (pos + n - 1) / BLOCK_SIZE == pos / BLOCK_SIZE;
  }

  /** The current cluster and the position give the current block. */
  lemma CursorBlock(g: Layout, ch: seq<nat>, pos: nat, cur: nat)
    requires g.blocksPerCluster > 0 && InRange(g, ch) && CursorAt(g, ch, pos, cur)
    ensures cur >= 2 && ClusterStart(g, cur) + pos / BLOCK_SIZE % g.blocksPerCluster == BlockAt(g, ch, pos / BLOCK_SIZE)
  {
  }

  // ---- What an operation on one file may change ---------------------------------------------

  /** From `s` to `s'` an operation on a file with chain `ch`, then `ch'`, and the directory
      entry `index` of `block` touched only that file: the blocks of its clusters, the two
      fields of its entry, the FAT entries of its clusters and of clusters that were free. */
  ghost predicate Isolated(g: Layout, s: CacheState, s': CacheState, ch: seq<nat>, ch': seq<nat>, block: nat,
                           index: nat)
    requires g.Fits(|s.disk|)
    ensures Isolated(g, s, s', ch, ch', block, index) ==> |s'.disk| == |s.disk| && (s.Stranded() ==> s'.Stranded())
  {
    && |s'.disk| == |s.disk|
    && (forall b :: 0 <= b < |s.disk| && !g.IsFatBlock(b) && b != block && !Owns(g, ch, b) && !Owns(g, ch', b) ==>
          s'.disk[b] == s.disk[b])
    && (0 < block < |s.disk| && !g.IsFatBlock(block) && !Owns(g, ch, block) && !Owns(g, ch', block) ==>
          SameButFields(s.disk[block], s'.disk[block], index))
    && FatConfined(Fat(g, s.disk), Fat(g, s'.disk), ch, ch')
    && (s'.dirty && s'.number != NO_BLOCK ==>
          g.IsFatBlock(s'.number) || Owns(g, ch, s'.number) || Owns(g, ch', s'.number) || s'.number == block
          || (s.dirty && s'.number == s.number))
    && (s.Stranded() ==> s'.Stranded())
  }

  /** The operation moreover kept the table well formed and the file's chain a root in it. */
  ghost predicate Confined(g: Layout, s: CacheState, s': CacheState, ch: seq<nat>, ch': seq<nat>, block: nat,
                           index: nat)
    requires g.Fits(|s.disk|)
    ensures Confined(g, s, s', ch, ch', block, index) ==> |s'.disk| == |s.disk| && (s.Stranded() ==> s'.Stranded())
    ensures Confined(g, s, s', ch, ch', block, index) ==> Isolated(g, s, s', ch, ch', block, index)
  {
    Isolated(g, s, s', ch, ch', block, index) && FormKept(Fat(g, s.disk), Fat(g, s'.disk), g.EocMin(), ch, ch')
  }

  lemma ConfinedQuiet(g: Layout, s: CacheState, s': CacheState, ch: seq<nat>, block: nat, index: nat)
    requires g.Fits(|s.disk|) && s'.disk == s.disk && (s.Stranded() ==> s'.Stranded())
    requires s'.dirty ==> g.IsFatBlock(s'.number) || (s.dirty && s'.number == s.number)
    ensures Confined(g, s, s', ch, ch, block, index)
  {
    hide Fat, Layout.Fits, WellFormed, IsHead;
  }

  /** Nothing links to the first cluster of a chain. */
  predicate Rooted(fat: seq<nat>, ch: seq<nat>) {
    ch != [] ==> IsHead(fat, ch[0])
  }

  ghost predicate FormKept(fat: seq<nat>, fat': seq<nat>, eoc: nat, ch: seq<nat>, ch': seq<nat>) {
    WellFormed(fat, eoc) && Rooted(fat, ch) ==> WellFormed(fat', eoc) && Rooted(fat', ch')
  }

  /** The link of cluster `d` is the old one, none, or leads to a cluster of the file itself
      or to one that was free. */
  predicate NewLink(fat: seq<nat>, fat': seq<nat>, ch: seq<nat>, d: nat)
    requires d < |fat| == |fat'|
  {
    fat'[d] == fat[d] || fat'[d] < 2 || fat'[d] >= |fat| || fat'[d] in ch || fat[fat'[d]] == 0
  }

  ghost predicate FatConfined(fat: seq<nat>, fat': seq<nat>, ch: seq<nat>, ch': seq<nat>) {
    && |fat'| == |fat|
    && (forall c :: 2 <= c < |fat| && fat[c] != 0 && c !in ch ==> fat'[c] == fat[c])
    && (forall c :: 2 <= c < |fat| && c in ch' && c !in ch ==> fat[c] == 0)
    && (forall d :: 2 <= d < |fat| ==> NewLink(fat, fat', ch, d))
  }

  lemma FatConfinedTrans(f0: seq<nat>, f1: seq<nat>, f2: seq<nat>, c0: seq<nat>, c1: seq<nat>, c2: seq<nat>)
    requires FatConfined(f0, f1, c0, c1) && FatConfined(f1, f2, c1, c2)
    ensures FatConfined(f0, f2, c0, c2)
  {
    forall d | 2 <= d < |f0|
      ensures NewLink(f0, f2, c0, d)
    {
      assert NewLink(f0, f1, c0, d) && NewLink(f1, f2, c1, d);
    }
  }

  lemma SameButFieldsTrans(b0: Block, b1: Block, b2: Block, index: nat)
    requires SameButFields(b0, b1, index) && SameButFields(b1, b2, index)
    ensures SameButFields(b0, b2, index)
  {
  }

  /** Operations on one file compose. */
  lemma IsolatedTrans(g: Layout, s0: CacheState, s1: CacheState, s2: CacheState,
                      c0: seq<nat>, c1: seq<nat>, c2: seq<nat>, block: nat, index: nat)
    requires g.Fits(|s0.disk|) && |s1.disk| == |s0.disk|
    requires Isolated(g, s0, s1, c0, c1, block, index) && Isolated(g, s1, s2, c1, c2, block, index)
    requires forall c :: c in c1 ==> c in c0 || c in c2
    ensures Isolated(g, s0, s2, c0, c2, block, index)
  {
    hide Fat, Layout.Fits, FatConfined, SameButFields;
    FatConfinedTrans(Fat(g, s0.disk), Fat(g, s1.disk), Fat(g, s2.disk), c0, c1, c2);
    forall b | 0 <= b < |s0.disk| && !g.IsFatBlock(b) && b != block && !Owns(g, c0, b) && !Owns(g, c2, b)
      ensures s2.disk[b] == s0.disk[b]
    {
      assert !Owns(g, c1, b);
    }
    if 0 < block < |s0.disk| && !g.IsFatBlock(block) && !Owns(g, c0, block) && !Owns(g, c2, block) {
      SameButFieldsTrans(s0.disk[block], s1.disk[block], s2.disk[block], index);
    }
  }

  lemma ConfinedTrans(g: Layout, s0: CacheState, s1: CacheState, s2: CacheState,
                      c0: seq<nat>, c1: seq<nat>, c2: seq<nat>, block: nat, index: nat)
    requires g.Fits(|s0.disk|) && |s1.disk| == |s0.disk|
    requires Confined(g, s0, s1, c0, c1, block, index) && Confined(g, s1, s2, c1, c2, block, index)
    requires forall c :: c in c1 ==> c in c0 || c in c2
    ensures Confined(g, s0, s2, c0, c2, block, index)
  {
    hide Fat, Layout.Fits, Isolated, WellFormed, Rooted;
    IsolatedTrans(g, s0, s1, s2, c0, c1, c2, block, index);
  }

  // ---- Isolation ---------------------------------------------------------------------------

  /** Two open files do not share clusters or directory entries, and neither keeps its data
      where the other's directory entry is. */
  ghost predicate Separate(g: Layout, f: FileState, h: FileState)
    requires g.blocksPerCluster > 0
  {
    && Disjoint(f.chain, h.chain)
    && (f.block != h.block || f.index != h.index)
    && !Owns(g, f.chain, h.block) && !Owns(g, h.chain, f.block)
  }

  lemma OtherChainKept(fat: seq<nat>, fat': seq<nat>, eoc: nat, c0: seq<nat>, c1: seq<nat>, first: nat, ch: seq<nat>)
    requires |fat| <= eoc && FatConfined(fat, fat', c0, c1) && HasChain(fat, eoc, first, ch) && Disjoint(c0, ch)
    requires forall i :: 0 <= i < |c1| ==> 2 <= c1[i] < |fat|
    ensures HasChain(fat', eoc, first, ch) && Disjoint(c1, ch)
  {
    if first != 0 {
      ChainAvoidsFree(fat, eoc, ch);
      forall i | 0 <= i < |ch|
        ensures fat'[ch[i]] == fat[ch[i]]
      {
        assert ch[i] !in c0;
      }
      ChainKept(fat, fat', eoc, ch);
      forall i, j | 0 <= i < |c1| && 0 <= j < |ch|
        ensures c1[i] != ch[j]
      {
        assert c1[i] in c1;
        if c1[i] in c0 {
          var k :| 0 <= k < |c0| && c0[k] == c1[i];
        }
      }
    }
  }

  /** A cluster that is in use by somebody else stays in use, and no chain takes it. */
  lemma OtherClusterKept(g: Layout, d: Disk, d': Disk, c0: seq<nat>, c1: seq<nat>, block: nat)
    requires g.Fits(|d|) && |d'| == |d| && FatConfined(Fat(g, d), Fat(g, d'), c0, c1)
    requires g.dataStart <= block && ClusterOf(g, block) < g.Clusters()
    requires Entry(g, d, ClusterOf(g, block)) != 0 && ClusterOf(g, block) !in c0
    ensures Entry(g, d', ClusterOf(g, block)) != 0 && ClusterOf(g, block) !in c1
  {
    var c := ClusterOf(g, block);
    assert Fat(g, d)[c] == Entry(g, d, c) && Fat(g, d')[c] == Entry(g, d', c);
  }

  lemma OtherEntryKept(b: Block, b': Block, index: nat, other: nat)
    requires SameButFields(b, b', index) && index != other && other < 16
    ensures EntryFirst(b', other) == EntryFirst(b, other) && EntrySize(b', other) == EntrySize(b, other)
  {
    forall i | ENTRY_SIZE * other <= i < ENTRY_SIZE * (other + 1)
      ensures b'[i] == b[i]
    {
      assert i / ENTRY_SIZE == other;
    }
  }

  lemma OtherTailClean(g: Layout, s: CacheState, s': CacheState, f: FileState, f': FileState, h: FileState)
    requires g.Fits(|s.disk|) && |s'.disk| == |s.disk| && InRange(g, h.chain)
    requires TailClean(g, s, h.chain, h.size)
    requires Isolated(g, s, s', f.chain, f'.chain, f.block, f.index)
    requires Disjoint(f.chain, h.chain) && Disjoint(f'.chain, h.chain) && !Owns(g, h.chain, f.block)
    ensures TailClean(g, s', h.chain, h.size)
  {
    hide Fat, Layout.Fits, FatConfined, SameButFields, BlockAt;
    forall k | s'.dirty && 0 <= k < Blocks(g, h.chain) && BlockAt(g, h.chain, k) == s'.number
      ensures BLOCK_SIZE * k < h.size
    {
      BlockAtOwned(g, |s.disk|, h.chain, k);
      assert !Owns(g, f.chain, s'.number) && !Owns(g, f'.chain, s'.number);
    }
  }

  /** Isolation: an operation on file `f` that is confined to it leaves every other open
      file as it was, contents included. */
  lemma OtherFileKept(g: Layout, s: CacheState, s': CacheState, f: FileState, f': FileState, h: FileState)
    requires g.Fits(|s.disk|) && |s'.disk| == |s.disk|
    requires Good(g, s, h) && Separate(g, f, h) && InRange(g, f'.chain)
    requires Isolated(g, s, s', f.chain, f'.chain, f.block, f.index)
    requires f'.block == f.block && f'.index == f.index
    ensures Good(g, s', h) && Separate(g, f', h)
    ensures FileBytes(g, s'.disk, h.chain, h.size) == FileBytes(g, s.disk, h.chain, h.size)
    ensures Rooted(Fat(g, s.disk), h.chain) ==> Rooted(Fat(g, s'.disk), h.chain)
  {
    hide Fat, Layout.Fits, FatConfined, SameButFields, FileBytes, TailClean, HasChain, Rooted;
    if Rooted(Fat(g, s.disk), h.chain) {
      ChainInUse(Fat(g, s.disk), g.EocMin(), h.first, h.chain);
      OtherHeadKept(Fat(g, s.disk), Fat(g, s'.disk), f.chain, f'.chain, h.chain);
    }
    OtherChainKept(Fat(g, s.disk), Fat(g, s'.disk), g.EocMin(), f.chain, f'.chain, h.first, h.chain);
    if g.dataStart <= h.block {
      OtherClusterKept(g, s.disk, s'.disk, f.chain, f'.chain, h.block);
    }
    OtherTailClean(g, s, s', f, f', h);
    if h.block == f.block {
      OtherEntryKept(s.disk[h.block], s'.disk[h.block], f.index, h.index);
    }
    assert !Owns(g, h.chain, f.block);
    forall b | 0 <= b < |s.disk| && Owns(g, h.chain, b)
      ensures s'.disk[b] == s.disk[b]
    {
      assert !Owns(g, f.chain, b) && !Owns(g, f'.chain, b);
    }
    FileBytesOther(g, s.disk, s'.disk, h.chain, h.size);
  }

  lemma ChainInUse(fat: seq<nat>, eoc: nat, first: nat, ch: seq<nat>)
    requires |fat| <= eoc && HasChain(fat, eoc, first, ch)
    ensures ch != [] ==> 2 <= ch[0] < |fat| && fat[ch[0]] != 0
  {
    if ch != [] {
      ChainAvoidsFree(fat, eoc, ch);
    }
  }

  /** A cluster in use that nothing linked to is still not linked to. */
  lemma OtherHeadKept(fat: seq<nat>, fat': seq<nat>, c0: seq<nat>, c1: seq<nat>, ch: seq<nat>)
    requires FatConfined(fat, fat', c0, c1) && Disjoint(c0, ch) && Rooted(fat, ch)
    requires ch != [] ==> 2 <= ch[0] < |fat| && fat[ch[0]] != 0
    ensures Rooted(fat', ch)
  {
    if ch != [] {
      forall d | 2 <= d < |fat'|
        ensures fat'[d] != ch[0]
      {
        assert NewLink(fat, fat', c0, d);
      }
    }
  }

  /** From `s` to `s'` every open file that shares nothing with file `f` stayed as it was:
      its invariant, its bytes, and that no other chain runs into it. */
  ghost predicate Spares(g: Layout, s: CacheState, s': CacheState, f: FileState)
    requires g.Fits(|s.disk|)
    ensures Spares(g, s, s', f) ==> |s'.disk| == |s.disk|
  {
    && |s'.disk| == |s.disk|
    && forall h: FileState {:trigger Spared(g, s, s', h)} :: Good(g, s, h) && Separate(g, f, h) ==> Spared(g, s, s', h)
  }

  ghost predicate Spared(g: Layout, s: CacheState, s': CacheState, h: FileState)
    requires g.Fits(|s.disk|) && |s'.disk| == |s.disk| && Good(g, s, h)
  {
    && Good(g, s', h) && FileBytes(g, s'.disk, h.chain, h.size) == FileBytes(g, s.disk, h.chain, h.size)
    && (Rooted(Fat(g, s.disk), h.chain) ==> Rooted(Fat(g, s'.disk), h.chain))
  }

  /** Isolation, said of all other files at once. */
  lemma IsolatedSpares(g: Layout, s: CacheState, s': CacheState, f: FileState, f': FileState)
    requires g.Fits(|s.disk|) && |s'.disk| == |s.disk| && InRange(g, f'.chain)
    requires Isolated(g, s, s', f.chain, f'.chain, f.block, f.index)
    requires f'.block == f.block && f'.index == f.index
    ensures Spares(g, s, s', f)
  {
    hide Fat, Layout.Fits, Isolated, FileBytes, Rooted, Good, Separate;
    forall h: FileState | Good(g, s, h) && Separate(g, f, h)
      ensures Spared(g, s, s', h)
    {
      OtherFileKept(g, s, s', f, f', h);
    }
  }

  lemma SparesTrans(g: Layout, s0: CacheState, s1: CacheState, s2: CacheState, f: FileState)
    requires g.Fits(|s0.disk|) && |s1.disk| == |s0.disk| && Spares(g, s0, s1, f) && Spares(g, s1, s2, f)
    ensures Spares(g, s0, s2, f)
  {
    hide Fat, Layout.Fits, FileBytes, Rooted, Good, Separate;
    forall h: FileState | Good(g, s0, h) && Separate(g, f, h)
      ensures Spared(g, s0, s2, h)
    {
      assert Spared(g, s0, s1, h);
      assert Spared(g, s1, s2, h);
    }
  }

  /** Where the current cluster is when reading failed: where it was, or already at the
      cluster that was to be read. */
  ghost predicate CursorNear(g: Layout, ch: seq<nat>, pos: nat, cur: nat)
    requires g.blocksPerCluster > 0
  {
    CursorOn(g, ch, pos, cur) || (AtBoundary(g, pos) && CursorAt(g, ch, pos, cur))
  }

  /** The 16-bit signed number that a count becomes. */
  function Int16(n: nat): (r: int)
    ensures -0x8000 <= r < 0x8000 && (r - n) % TWO_16 == 0
    ensures n < 0x8000 <==> r == n
  {
    if n % TWO_16 < 0x8000 then n % TWO_16 else n % TWO_16 - TWO_16
  }

  /** After a read that failed at a cluster boundary, the link that a second try follows leads to
      the cluster that was to be read exactly if the first try left the current cluster where it
      was. Otherwise it leads to the cluster behind that one, or to the end of the chain. */
  lemma RetryIsRight(g: Layout, fat: seq<nat>, ch: seq<nat>, pos: nat, cur: nat)
    requires g.blocksPerCluster > 0 && |fat| <= g.EocMin() && IsChain(fat, g.EocMin(), ch) && Unique(ch)
    requires AtBoundary(g, pos) && pos > 0 && pos / BLOCK_SIZE < Blocks(g, ch) && CursorNear(g, ch, pos, cur)
    ensures cur < |fat| && (CursorAt(g, ch, pos, fat[cur]) <==> CursorOn(g, ch, pos, cur))
    ensures !CursorOn(g, ch, pos, cur) ==>
              g.IsEoc(fat[cur]) || CursorAt(g, ch, pos + BLOCK_SIZE * g.blocksPerCluster, fat[cur])
  {
    hide IsChain;
    if CursorOn(g, ch, pos, cur) {
      CursorCrosses(g, fat, ch, pos, cur);
    } else {
      AheadCrosses(g, fat, ch, pos, cur);
    }
  }

  /** A handle whose cursor is on a cluster of its file reads and writes blocks of that file only,
      and within a cluster it is the block of the position exactly if the cursor is on the cluster
      of the byte before it. */
  lemma StrayBlock(g: Layout, total: nat, ch: seq<nat>, pos: nat, cur: nat)
    requires g.Fits(total) && InRange(g, ch) && Unique(ch) && cur in ch
    requires !AtBoundary(g, pos) && pos / BLOCK_SIZE < Blocks(g, ch)
    ensures
      var b := ClusterStart(g, cur) + pos / BLOCK_SIZE % g.blocksPerCluster;
      b < total && Owns(g, ch, b) && (b == BlockAt(g, ch, pos / BLOCK_SIZE) <==> CursorOn(g, ch, pos, cur))
  {
    hide Layout.Fits, ClusterStart;
    var k := pos / BLOCK_SIZE;
    ClusterBlocks(g, total, cur, k % g.blocksPerCluster);
    BlockAtOwned(g, total, ch, k);
    assert CursorAt(g, ch, pos, cur) <==> ClusterOf(g, BlockAt(g, ch, k)) == cur;
    if pos > 0 {
      assert (pos - 1) / BLOCK_SIZE <= k;
      CursorStays(g, ch, pos, ch[ClusterIx(g, ch, (pos - 1) / BLOCK_SIZE)]);
    }
  }

  lemma AheadCrosses(g: Layout, fat: seq<nat>, ch: seq<nat>, pos: nat, cur: nat)
    requires g.blocksPerCluster > 0 && |fat| <= g.EocMin() && IsChain(fat, g.EocMin(), ch) && Unique(ch)
    requires AtBoundary(g, pos) && CursorAt(g, ch, pos, cur)
    ensures cur < |fat| && !CursorAt(g, ch, pos, fat[cur])
    ensures g.IsEoc(fat[cur]) || CursorAt(g, ch, pos + BLOCK_SIZE * g.blocksPerCluster, fat[cur])
  {
    var b, k := g.blocksPerCluster, pos / BLOCK_SIZE;
    var i := ClusterIx(g, ch, k);
    assert cur == ch[i] && 2 <= cur < |fat|;
    if i + 1 < |ch| {
      assert fat[ch[i]] == ch[i + 1] && ch[i] != ch[i + 1];
      NextCluster(g, ch, pos);
    } else {
      assert fat[cur] >= g.EocMin();
    }
  }

  lemma NextCluster(g: Layout, ch: seq<nat>, pos: nat)
    requires g.blocksPerCluster > 0 && AtBoundary(g, pos) && pos / BLOCK_SIZE < Blocks(g, ch)
    requires ClusterIx(g, ch, pos / BLOCK_SIZE) + 1 < |ch|
    ensures
      var i := ClusterIx(g, ch, pos / BLOCK_SIZE);
      CursorAt(g, ch, pos + BLOCK_SIZE * g.blocksPerCluster, ch[i + 1])
  {
    var b, k := g.blocksPerCluster, pos / BLOCK_SIZE;
    var i := k / b;
    DivUnique(k, b, i, 0) by {
      assert k == i * b + k % b;
    }
    assert (pos + BLOCK_SIZE * b) / BLOCK_SIZE == k + b;
    assert k + b == (i + 1) * b + 0;
    DivUnique(k + b, b, i + 1, 0);
    DivBound(k + b, b, |ch|);
  }

  // ---- Walking a chain -----------------------------------------------------------------------

  /** `cur` is what `i` steps along the links from the first cluster lead to. */
  ghost predicate Walked(g: Layout, ch: seq<nat>, i: nat, cur: nat) {
    if i < |ch| then cur == ch[i] else i == |ch| && g.IsEoc(cur)
  }

  /** Along the links from where the cursor was at position `from`, it moved on by as many
      clusters as `to` is behind it. */
  ghost predicate Shifted(g: Layout, ch: seq<nat>, from: nat, cur: nat, to: nat, cur': nat)
    requires g.blocksPerCluster > 0 && 0 < from && 0 < to && ClusterBefore(g, from) <= ClusterBefore(g, to)
  {
    exists i: nat, j: nat ::
      Walked(g, ch, i, cur) && Walked(g, ch, j, cur') && j == i + ClusterBefore(g, to) - ClusterBefore(g, from)
  }

  /** The links that a seek follows. */
  function SeekSteps(g: Layout, from: nat, to: nat): (n: nat)
    requires g.blocksPerCluster > 0 && to > 0
  {
    if SeekHeals(g, from, to) then ClusterBefore(g, to) else ClusterBefore(g, to) - ClusterBefore(g, from)
  }

  /** A seek that stopped on the way: the cursor is where some of the links lead to, fewer than were
      to be followed, from the first cluster on if the walk restarted there. */
  ghost predicate Stopped(g: Layout, ch: seq<nat>, first: nat, from: nat, cur: nat, to: nat, cur': nat)
    requires g.blocksPerCluster > 0 && to > 0
  {
    var start := if SeekHeals(g, from, to) then first else cur;
    exists i: nat, j: nat ::
      && Walked(g, ch, i, start) && Walked(g, ch, j, cur') && i <= j < i + SeekSteps(g, from, to)
      && (SeekHeals(g, from, to) ==> i == 0)
  }

  /** The position was not changed, so a cursor that was right is right after that exactly if the
      walk did not restart and no link was followed. */
  lemma StoppedCursor(g: Layout, ch: seq<nat>, first: nat, from: nat, cur: nat, to: nat, cur': nat)
    requires g.blocksPerCluster > 0 && InRange(g, ch) && Unique(ch) && g.Clusters() <= g.EocMin()
    requires 0 < from && 0 < to && Room(g, ch, from)
    requires CursorOn(g, ch, from, cur) && Stopped(g, ch, first, from, cur, to, cur')
    ensures CursorOn(g, ch, from, cur') <==> !SeekHeals(g, from, to) && cur' == cur
  {
    hide ClusterBefore, CursorOn;
    var start := if SeekHeals(g, from, to) then first else cur;
    var i: nat, j: nat :|
      && Walked(g, ch, i, start) && Walked(g, ch, j, cur') && i <= j < i + SeekSteps(g, from, to)
      && (SeekHeals(g, from, to) ==> i == 0);
    WalkEnd(g, ch, j, cur', from);
    if SeekHeals(g, from, to) {
      assert j < ClusterBefore(g, to) < ClusterBefore(g, from);
    } else {
      WalkEnd(g, ch, i, cur, from);
    }
  }

  lemma WalkLoose(g: Layout, ch: seq<nat>, i: nat, cur: nat, pos: nat)
    requires Walked(g, ch, i, cur)
    ensures CursorLoose(g, ch, pos, cur)
  {
  }

  lemma WalkStep(g: Layout, fat: seq<nat>, ch: seq<nat>, i: nat, cur: nat)
    requires IsChain(fat, g.EocMin(), ch) && Walked(g, ch, i, cur) && cur < |fat| <= g.EocMin()
    ensures i < |ch| && Walked(g, ch, i + 1, fat[cur])
  {
    assert i < |ch| - 1 ==> fat[ch[i]] == ch[i + 1];
  }

  /** A walk gets stuck only on the link that ends the chain. */
  lemma WalkStuck(g: Layout, fat: seq<nat>, ch: seq<nat>, i: nat, cur: nat)
    requires IsChain(fat, g.EocMin(), ch) && Walked(g, ch, i, cur)
    ensures cur >= |fat| ==> i == |ch|
  {
  }

  lemma WalkFirst(g: Layout, fat: seq<nat>, first: nat, ch: seq<nat>)
    requires HasChain(fat, g.EocMin(), first, ch) && first != 0
    ensures Walked(g, ch, 0, first)
  {
  }

  lemma WalkStart(g: Layout, ch: seq<nat>, pos: nat, cur: nat) returns (i: nat)
    requires CursorLoose(g, ch, pos, cur) && (pos > 0 || cur != 0)
    ensures Walked(g, ch, i, cur)
  {
    if cur in ch {
      i :| 0 <= i < |ch| && ch[i] == cur;
    } else {
      i := |ch|;
    }
  }

  lemma OnIsLoose(g: Layout, ch: seq<nat>, pos: nat, cur: nat)
    requires g.blocksPerCluster > 0 && (CursorOn(g, ch, pos, cur) || CursorAt(g, ch, pos, cur))
    ensures CursorLoose(g, ch, pos, cur)
  {
  }

  /** Where a walk ended is where the cursor belongs exactly if it took the right number of
      steps. */
  lemma WalkEnd(g: Layout, ch: seq<nat>, i: nat, cur: nat, pos: nat)
    requires g.blocksPerCluster > 0 && InRange(g, ch) && Unique(ch) && g.Clusters() <= g.EocMin()
    requires Walked(g, ch, i, cur) && 0 < pos && Room(g, ch, pos)
    ensures ClusterBefore(g, pos) < |ch|
    ensures CursorOn(g, ch, pos, cur) <==> i == ClusterBefore(g, pos)
    ensures CursorLoose(g, ch, pos, cur)
  {
    var k := (pos - 1) / BLOCK_SIZE;
    assert k < Blocks(g, ch);
    assert ClusterIx(g, ch, k) == ClusterBefore(g, pos);
  }

  lemma FatOnlyTail(g: Layout, total: nat, s: CacheState, s': CacheState, ch: seq<nat>, extent: nat)
    requires g.Fits(total) && InRange(g, ch) && TailClean(g, s, ch, extent)
    requires s'.dirty ==> g.IsFatBlock(s'.number) || (s.dirty && s'.number == s.number)
    ensures TailClean(g, s', ch, extent)
  {
    hide Layout.Fits, BlockAt;
    forall k | s'.dirty && 0 <= k < Blocks(g, ch) && BlockAt(g, ch, k) == s'.number
      ensures BLOCK_SIZE * k < extent
    {
      BlockAtOwned(g, total, ch, k);
    }
  }

  /** Soundness does not depend on the cursor, and asks for less room when fewer bytes count. */
  lemma SoundMoves(g: Layout, d: Disk, f: FileState, extent: nat, f': FileState, extent': nat)
    requires g.Fits(|d|) && Sound(g, d, f, extent) && f.size <= extent' <= extent
    requires f' == f.(pos := f'.pos, cur := f'.cur)
    ensures Sound(g, d, f', extent')
  {
  }

  lemma SoundFacts(g: Layout, d: Disk, f: FileState, extent: nat)
    requires g.Fits(|d|) && Sound(g, d, f, extent)
    ensures HasChain(Fat(g, d), g.EocMin(), f.first, f.chain)
    ensures f.first != 0 ==> IsChain(Fat(g, d), g.EocMin(), f.chain)
    ensures f.first == 0 ==> f.chain == []
    ensures InRange(g, f.chain) && Unique(f.chain) && Room(g, f.chain, extent)
    ensures f.size <= extent < TWO_32
    ensures extent > 0 ==> f.first != 0
  {
  }

  /** The start of the walk of a seek to `pos`: the steps to take, and from where. */
  lemma SeekStart(g: Layout, d: Disk, f: FileState, extent: nat, pos: nat) returns (i: nat)
    requires g.Fits(|d|) && Chained(g, d, f, extent) && 0 < pos <= f.size && f.pos <= extent
    requires CursorLoose(g, f.chain, f.pos, f.cur)
    ensures SeekHeals(g, f.pos, pos) ==> i == 0 && Walked(g, f.chain, i, f.first)
    ensures !SeekHeals(g, f.pos, pos) ==>
              Walked(g, f.chain, i, f.cur) && f.pos > 0
              && (CursorOn(g, f.chain, f.pos, f.cur) <==> i == ClusterBefore(g, f.pos))
    ensures IsChain(Fat(g, d), g.EocMin(), f.chain) && ClusterBefore(g, pos) < |f.chain|
  {
    hide Fat, Layout.Fits, SlotPlaced, SlotHolds, CursorOn, ClusterBefore;
    WalkFirst(g, Fat(g, d), f.first, f.chain);
    WalkEnd(g, f.chain, 0, f.first, pos);
    if SeekHeals(g, f.pos, pos) {
      i := 0;
      WalkFirst(g, Fat(g, d), f.first, f.chain);
    } else {
      i := WalkStart(g, f.chain, f.pos, f.cur);
      WalkEnd(g, f.chain, i, f.cur, f.pos);
    }
  }

  /** The end of the walk of a seek. */
  lemma SeekEnd(g: Layout, d: Disk, f: FileState, extent: nat, j: nat, f': FileState)
    requires g.Fits(|d|) && Chained(g, d, f, extent) && f'.pos <= extent
    requires f' == f.(pos := f'.pos, cur := f'.cur)
    requires Walked(g, f.chain, j, f'.cur)
    ensures CursorLoose(g, f.chain, f'.pos, f'.cur)
    ensures f'.pos > 0 ==> (CursorOn(g, f.chain, f'.pos, f'.cur) <==> j == ClusterBefore(g, f'.pos))
  {
    hide Fat, Layout.Fits, SlotPlaced, SlotHolds, CursorOn, ClusterBefore;
    WalkLoose(g, f.chain, j, f'.cur, f'.pos);
    if f'.pos > 0 {
      WalkEnd(g, f.chain, j, f'.cur, f'.pos);
    }
  }

  lemma CursorAtStart(g: Layout, ch: seq<nat>)
    requires g.blocksPerCluster > 0
    ensures CursorOn(g, ch, 0, 0) && CursorLoose(g, ch, 0, 0)
  {
  }

  // ---- What is on the card --------------------------------------------------------------------

  /** The blocks of a card, without any cache, hold a file with this entry and these bytes. */
  ghost predicate OnCard(g: Layout, blocks: Disk, block: nat, index: nat, data: seq<byte>)
    requires g.Fits(|blocks|) && block < |blocks| && index < 16
  {
    && EntrySize(blocks[block], index) == |data|
    && exists ch :: Stores(g, blocks, EntryFirst(blocks[block], index), ch, |data|)
                    && FileBytes(g, blocks, ch, |data|) == data
  }

  /** The entry of a file was updated: it is up to date, and nobody else was touched. */
  lemma EntryUpdated(g: Layout, s: CacheState, s': CacheState, f: FileState, f': FileState, extent: nat)
    requires g.Fits(|s.disk|) && Sound(g, s.disk, f, extent) && f.first < TWO_32
    requires s'.disk == s.disk[f.block := SetFields(s.disk[f.block], f.index, f.first, f.size)]
    requires s'.number == f.block && !s.Stranded() && f' == f.(dirDirty := f'.dirDirty)
    ensures Sound(g, s'.disk, f', extent) && SlotHolds(s'.disk, f') && Fat(g, s'.disk) == Fat(g, s.disk)
    ensures FileBytes(g, s'.disk, f.chain, extent) == FileBytes(g, s.disk, f.chain, extent)
    ensures Confined(g, s, s', f.chain, f.chain, f.block, f.index)
    ensures forall e: nat :: TailClean(g, s', f.chain, e)
  {
    hide Fat, Layout.Fits, FileBytes, HasChain, SetFields, SameButFields, Entry, BlockAt, EntryFirst, EntrySize;
    SetFieldsReads(s.disk[f.block], f.index, f.first, f.size);
    SetFieldsElsewhere(s.disk[f.block], f.index, f.first, f.size);
    assert !Owns(g, f.chain, f.block);
    DataKeepsFat(g, s.disk, s'.disk, f.block);
    FileBytesOther(g, s.disk, s'.disk, f.chain, extent);
    if g.dataStart <= f.block {
      OtherClusterKept(g, s.disk, s'.disk, f.chain, f.chain, f.block);
    }
    forall k | 0 <= k < Blocks(g, f.chain)
      ensures BlockAt(g, f.chain, k) != s'.number
    {
      BlockAtOwned(g, |s.disk|, f.chain, k);
    }
  }

  lemma FirstFits(g: Layout, d: Disk, f: FileState, extent: nat)
    requires g.Fits(|d|) && Sound(g, d, f, extent)
    ensures f.first < TWO_32 && 0 < f.block < |d| && f.index < 16 && !g.IsFatBlock(f.block)
  {
    if f.first != 0 {
      assert f.first == f.chain[0] < g.Clusters();
    }
  }

  /** Once everything is written out, the card alone holds the file. */
  lemma SyncedIsOnCard(g: Layout, d: Disk, f: FileState, extent: nat)
    requires g.Fits(|d|) && Sound(g, d, f, extent) && !f.dirDirty
    ensures f.block < |d| && f.index < 16
    ensures OnCard(g, d, f.block, f.index, FileBytes(g, d, f.chain, f.size))
  {
    hide Fat, Layout.Fits, FileBytes, HasChain, EntryFirst, EntrySize;
    var data := FileBytes(g, d, f.chain, f.size);
    assert Stores(g, d, f.first, f.chain, |data|);
  }

  /** Nothing new is dirty, so dirty blocks are where they were. */
  lemma QuietTail(g: Layout, s: CacheState, s': CacheState, ch: seq<nat>, extent: nat)
    requires g.blocksPerCluster > 0 && InRange(g, ch) && s'.number == s.number && (s'.dirty ==> s.dirty)
    ensures TailClean(g, s, ch, extent) ==> TailClean(g, s', ch, extent)
  {
  }

  lemma GoodIsUsable(g: Layout, s: CacheState, f: FileState)
    requires g.Fits(|s.disk|) && Good(g, s, f)
    ensures Sound(g, s.disk, f, f.size) && CursorLoose(g, f.chain, f.pos, f.cur)
  {
    OnIsLoose(g, f.chain, f.pos, f.cur);
  }

  lemma GoodIsReadable(g: Layout, s: CacheState, f: FileState)
    requires g.Fits(|s.disk|) && Good(g, s, f)
    ensures Readable(g, s.disk, f) && !f.fixed
  {
  }

  /** The file now has all the bytes that count. */
  lemma SoundResizes(g: Layout, d: Disk, f: FileState, extent: nat)
    requires g.Fits(|d|) && Sound(g, d, f, extent)
    ensures Sound(g, d, f.(size := extent, dirDirty := true), extent)
  {
  }
}
