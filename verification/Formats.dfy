/** What is on a card, byte by byte: the packed structs of the repository, in the order of their
    fields, and the byte values that have a meaning (Modules/SD/FatStructs.h). No operation uses
    them. They say which bytes the accessors read and write that the operations share with their
    contracts. */
module Formats {
  import opened Bytes
  import opened Layouts
  import opened Cache
  import opened FileModel
  import opened Slots
  import opened Entries
  import opened DirModel
  import opened Geometry

  // ---- Numbers ---------------------------------------------------------------------------------

  /** Numbers are stored with the low byte first. */
  function Le16(v: nat): (s: seq<byte>)
    requires v < 0x1_0000
    ensures |s| == 2
  {
    [v % 0x100, v / 0x100]
  }

  function Le32(v: nat): (s: seq<byte>)
    requires v < 0x1_0000_0000
    ensures |s| == 4
  {
    [v % 0x100, v / 0x100 % 0x100, v / 0x1_0000 % 0x100, v / 0x100_0000]
  }

  lemma Le16Reads(b: seq<byte>, off: nat, v: nat)
    requires off + 2 <= |b| && v < 0x1_0000 && b[off] == Le16(v)[0] && b[off + 1] == Le16(v)[1]
    ensures Word16(b, off) == v
  {
  }

  lemma Le32Reads(b: seq<byte>, off: nat, v: nat)
    requires off + 4 <= |b| && v < 0x1_0000_0000 && forall i :: 0 <= i < 4 ==> b[off + i] == Le32(v)[i]
    ensures Word32(b, off) == v
  {
    var w := Le32(v);
    assert b[off] == w[0] && b[off + 1] == w[1] && b[off + 2] == w[2] && b[off + 3] == w[3];
    assert v / 0x100 == v / 0x1_0000 * 0x100 + v / 0x100 % 0x100;
    assert v / 0x1_0000 == v / 0x100_0000 * 0x100 + v / 0x1_0000 % 0x100;
  }

  lemma Le16Back(b: seq<byte>, off: nat)
    requires off + 2 <= |b|
    ensures Le16(Word16(b, off)) == b[off..off + 2]
  {
  }

  lemma Le32Back(b: seq<byte>, off: nat)
    requires off + 4 <= |b|
    ensures Le32(Word32(b, off)) == b[off..off + 4]
  {
    Digits(b[off] as int, b[off + 1] as int, b[off + 2] as int, b[off + 3] as int);
  }

  lemma Digits(d0: nat, d1: nat, d2: nat, d3: nat)
    requires d0 < 0x100 && d1 < 0x100 && d2 < 0x100 && d3 < 0x100
    ensures
      var v := d0 + 0x100 * d1 + 0x1_0000 * (d2 + 0x100 * d3);
      v % 0x100 == d0 && v / 0x100 % 0x100 == d1 && v / 0x1_0000 % 0x100 == d2 && v / 0x100_0000 == d3
  {
    var v := d0 + 0x100 * d1 + 0x1_0000 * (d2 + 0x100 * d3);
    assert v / 0x100 == d1 + 0x100 * d2 + 0x1_0000 * d3;
  }

  // ---- The boot sector ---------------------------------------------------------------------------

  /** `biosParmBlock`. */
  datatype BiosParmBlock = BiosParmBlock(
    bytesPerSector: nat, sectorsPerCluster: byte, reservedSectorCount: nat, fatCount: byte,
    rootDirEntryCount: nat, totalSectors16: nat, mediaType: byte, sectorsPerFat16: nat,
    sectorsPerTrack: nat, headCount: nat, hiddenSectors: nat, totalSectors32: nat,
    sectorsPerFat32: nat, fat32Flags: nat, fat32Version: nat, fat32RootCluster: nat, rest: seq<byte>)
  {
    predicate Valid() {
      && bytesPerSector < 0x1_0000 && reservedSectorCount < 0x1_0000 && rootDirEntryCount < 0x1_0000
      && totalSectors16 < 0x1_0000 && sectorsPerFat16 < 0x1_0000 && sectorsPerTrack < 0x1_0000
      && headCount < 0x1_0000 && hiddenSectors < 0x1_0000_0000 && totalSectors32 < 0x1_0000_0000
      && sectorsPerFat32 < 0x1_0000_0000 && fat32Flags < 0x1_0000 && fat32Version < 0x1_0000
      && fat32RootCluster < 0x1_0000_0000 && |rest| == 16
    }

    function Bytes(): (s: seq<byte>)
      requires Valid()
      ensures |s| == 53
    {
      Common() + Drive() + Fat32()
    }

    function Common(): (s: seq<byte>)
      requires Valid()
      ensures |s| == 13
    {
      Le16(bytesPerSector) + [sectorsPerCluster] + Le16(reservedSectorCount) + [fatCount]
      + Le16(rootDirEntryCount) + Le16(totalSectors16) + [mediaType] + Le16(sectorsPerFat16)
    }

    function Drive(): (s: seq<byte>)
      requires Valid()
      ensures |s| == 12
    {
      Le16(sectorsPerTrack) + Le16(headCount) + Le32(hiddenSectors) + Le32(totalSectors32)
    }

    function Fat32(): (s: seq<byte>)
      requires Valid()
      ensures |s| == 28
    {
      Le32(sectorsPerFat32) + Le16(fat32Flags) + Le16(fat32Version) + Le32(fat32RootCluster) + rest
    }
  }

  /** `fat32BootSector`, with all that comes behind the parameter block as one. */
  datatype BootSector = BootSector(jmpToBootCode: seq<byte>, oemName: seq<byte>, bpb: BiosParmBlock, boot: seq<byte>)
  {
    predicate Valid() {
      |jmpToBootCode| == 3 && |oemName| == 8 && bpb.Valid() && |boot| == 448
    }

    function Bytes(): (b: Block)
      requires Valid()
    {
      jmpToBootCode + oemName + bpb.Bytes() + boot
    }
  }

  /** The boot sector is read as it was written. */
  lemma BootSectorReads(f: BootSector)
    requires f.Valid()
    ensures
      var p := f.bpb;
      BpbOf(f.Bytes()) == Bpb(p.bytesPerSector, p.sectorsPerCluster as nat, p.reservedSectorCount, p.fatCount as nat,
                              p.rootDirEntryCount, p.totalSectors16, p.sectorsPerFat16, p.totalSectors32,
                              p.sectorsPerFat32, p.fat32RootCluster)
  {
    hide Le16, Le32, Word16, Word32, BiosParmBlock.Common, BiosParmBlock.Drive, BiosParmBlock.Fat32;
    var b, p := f.Bytes(), f.bpb;
    InBoot(f);
    CommonFields(b[11..24], p);
    DriveFields(b[24..36], p);
    Fat32Fields(b[36..64], p);
    WordsOfPart(b, 11, 13);
    WordsOfPart(b, 24, 12);
    WordsOfPart(b, 36, 28);
  }

  lemma InBoot(f: BootSector)
    requires f.Valid()
    ensures
      var b, p := f.Bytes(), f.bpb;
      b[11..24] == p.Common() && b[24..36] == p.Drive() && b[36..64] == p.Fat32()
  {
    hide Le16, Le32, BiosParmBlock.Common, BiosParmBlock.Drive, BiosParmBlock.Fat32;
  }

  lemma CommonFields(s: seq<byte>, p: BiosParmBlock)
    requires p.Valid() && s == p.Common()
    ensures Word16(s, 0) == p.bytesPerSector && s[2] == p.sectorsPerCluster && Word16(s, 3) == p.reservedSectorCount
    ensures s[5] == p.fatCount && Word16(s, 6) == p.rootDirEntryCount && Word16(s, 8) == p.totalSectors16
    ensures Word16(s, 11) == p.sectorsPerFat16
  {
    hide Le16, Word16;
    Le16Reads(s, 0, p.bytesPerSector);
    Le16Reads(s, 3, p.reservedSectorCount);
    Le16Reads(s, 6, p.rootDirEntryCount);
    Le16Reads(s, 8, p.totalSectors16);
    Le16Reads(s, 11, p.sectorsPerFat16);
  }

  lemma DriveFields(s: seq<byte>, p: BiosParmBlock)
    requires p.Valid() && s == p.Drive()
    ensures Word32(s, 8) == p.totalSectors32
  {
    hide Le16, Le32, Word32;
    Le32Reads(s, 8, p.totalSectors32);
  }

  lemma Fat32Fields(s: seq<byte>, p: BiosParmBlock)
    requires p.Valid() && s == p.Fat32()
    ensures Word32(s, 0) == p.sectorsPerFat32 && Word32(s, 8) == p.fat32RootCluster
  {
    hide Le16, Le32, Word32;
    Le32Reads(s, 0, p.sectorsPerFat32);
    Le32Reads(s, 8, p.fat32RootCluster);
  }

  /** Numbers in part of a block are numbers of the block. */
  lemma WordsOfPart(b: seq<byte>, from: nat, len: nat)
    requires from + len <= |b|
    ensures forall off {:trigger Word16(b[from..from + len], off)} :: 0 <= off && off + 2 <= len ==>
              Word16(b[from..from + len], off) == Word16(b, from + off)
    ensures forall off {:trigger Word32(b[from..from + len], off)} :: 0 <= off && off + 4 <= len ==>
              Word32(b[from..from + len], off) == Word32(b, from + off)
  {
  }

  // ---- The partition table ------------------------------------------------------------------------

  /** `partitionTable`. The fields of 6 and 2 bits share a byte. */
  datatype PartitionTable = PartitionTable(
    boot: byte, beginHead: byte, beginSector: byte, beginCylinderLow: byte, partType: byte,
    endHead: byte, endSector: byte, endCylinderLow: byte, firstSector: nat, totalSectors: nat)
  {
    predicate Valid() {
      firstSector < 0x1_0000_0000 && totalSectors < 0x1_0000_0000
    }

    function Bytes(): (s: seq<byte>)
      requires Valid()
      ensures |s| == 16
    {
      [boot, beginHead, beginSector, beginCylinderLow, partType, endHead, endSector, endCylinderLow]
      + Le32(firstSector) + Le32(totalSectors)
    }
  }

  /** `masterBootRecord`. */
  datatype MasterBootRecord = MasterBootRecord(
    codeArea: seq<byte>, diskSignature: nat, usuallyZero: nat,
    part1: PartitionTable, part2: PartitionTable, part3: PartitionTable, part4: PartitionTable,
    mbrSig0: byte, mbrSig1: byte)
  {
    predicate Valid() {
      && |codeArea| == 440 && diskSignature < 0x1_0000_0000 && usuallyZero < 0x1_0000
      && part1.Valid() && part2.Valid() && part3.Valid() && part4.Valid()
    }

    function Bytes(): (b: Block)
      requires Valid()
    {
      codeArea + Le32(diskSignature) + Le16(usuallyZero)
      + part1.Bytes() + part2.Bytes() + part3.Bytes() + part4.Bytes() + [mbrSig0, mbrSig1]
    }
  }

  /** So is the partition table. */
  lemma PartitionTableReads(m: MasterBootRecord, part: nat)
    requires m.Valid() && 1 <= part <= 4
    ensures
      var p := if part == 1 then m.part1 else if part == 2 then m.part2 else if part == 3 then m.part3 else m.part4;
      PartitionAt(m.Bytes(), part) == Partition(p.boot as nat, p.firstSector, p.totalSectors)
  {
    hide Le16, Le32, Word16, Word32, PartitionTable.Bytes, MasterBootRecord.Bytes;
    var b, at := m.Bytes(), 430 + 16 * part;
    var p := if part == 1 then m.part1 else if part == 2 then m.part2 else if part == 3 then m.part3 else m.part4;
    InRecord(m);
    PartitionFields(b[at..at + 16], p);
    WordsOfPart(b, at, 16);
  }

  lemma InRecord(m: MasterBootRecord)
    requires m.Valid()
    ensures
      var b := m.Bytes();
      && b[446..462] == m.part1.Bytes() && b[462..478] == m.part2.Bytes()
      && b[478..494] == m.part3.Bytes() && b[494..510] == m.part4.Bytes()
  {
    hide Le16, Le32, PartitionTable.Bytes;
  }

  lemma PartitionFields(s: seq<byte>, p: PartitionTable)
    requires p.Valid() && s == p.Bytes()
    ensures s[0] == p.boot && Word32(s, 8) == p.firstSector && Word32(s, 12) == p.totalSectors
  {
    hide Le32, Word32;
    Le32Reads(s, 8, p.firstSector);
    Le32Reads(s, 12, p.totalSectors);
  }

  // ---- Directory entries ---------------------------------------------------------------------------

  /** `directoryEntry`. */
  datatype DirectoryEntry = DirectoryEntry(
    name: seq<byte>, attributes: byte, reservedNT: byte, creationTimeTenths: byte,
    creationTime: nat, creationDate: nat, lastAccessDate: nat, firstClusterHigh: nat,
    lastWriteTime: nat, lastWriteDate: nat, firstClusterLow: nat, fileSize: nat)
  {
    predicate Valid() {
      && |name| == 11 && creationTime < 0x1_0000 && creationDate < 0x1_0000 && lastAccessDate < 0x1_0000
      && firstClusterHigh < 0x1_0000 && lastWriteTime < 0x1_0000 && lastWriteDate < 0x1_0000
      && firstClusterLow < 0x1_0000 && fileSize < 0x1_0000_0000
    }

    function Bytes(): (s: seq<byte>)
      requires Valid()
      ensures |s| == 32
    {
      name + [attributes, reservedNT, creationTimeTenths] + Le16(creationTime) + Le16(creationDate)
      + Le16(lastAccessDate) + Le16(firstClusterHigh) + Le16(lastWriteTime) + Le16(lastWriteDate)
      + Le16(firstClusterLow) + Le32(fileSize)
    }
  }

  /** What is read of entry `k` of a block. */
  lemma EntryReads(b: Block, k: nat, e: DirectoryEntry)
    requires k < 16 && e.Valid() && b[32 * k..32 * k + 32] == e.Bytes()
    ensures NameAt(b, k) == e.name && EntryByte(b, k, OFF_ATTR) == Attributes(b, k) == e.attributes
    ensures EntryFirst(b, k) == 0x1_0000 * e.firstClusterHigh + e.firstClusterLow && EntrySize(b, k) == e.fileSize
    ensures EntryBytes(b, k) == e.Bytes()
  {
    hide Le16, Le32, Word16, Word32, DirectoryEntry.Bytes;
    EntryFields(b[32 * k..32 * k + 32], e);
    WordsOfPart(b, 32 * k, 32);
    assert Word16(b, 32 * k + 20) == e.firstClusterHigh && Word16(b, 32 * k + 26) == e.firstClusterLow;
    assert b[32 * k..32 * k + 32][11] == b[32 * k + 11];
    assert b[32 * k..32 * k + 32][..11] == b[32 * k..32 * k + 11];
  }

  lemma EntryFields(s: seq<byte>, e: DirectoryEntry)
    requires e.Valid() && s == e.Bytes()
    ensures s[..11] == e.name && s[11] == e.attributes && Word16(s, 20) == e.firstClusterHigh
    ensures Word16(s, 26) == e.firstClusterLow && Word32(s, 28) == e.fileSize
  {
    hide Le16, Le32, Word16, Word32;
    Le16Reads(s, 20, e.firstClusterHigh);
    Le16Reads(s, 26, e.firstClusterLow);
    Le32Reads(s, 28, e.fileSize);
  }

  /** Writing first cluster and size of a file out changes these fields of its entry. */
  lemma EntryWritten(b: Block, k: nat, e: DirectoryEntry, first: nat, size: nat)
    requires k < 16 && e.Valid() && b[32 * k..32 * k + 32] == e.Bytes() && first < TWO_32 && size < TWO_32
    ensures
      var e' := e.(firstClusterHigh := first / 0x1_0000, firstClusterLow := first % 0x1_0000, fileSize := size);
      e'.Valid() && SetFields(b, k, first, size)[32 * k..32 * k + 32] == e'.Bytes()
  {
    hide Le16, Le32, Word16, Word32, DirectoryEntry.Bytes, SetFields, EntryFirst, EntrySize;
    var e' := e.(firstClusterHigh := first / 0x1_0000, firstClusterLow := first % 0x1_0000, fileSize := size);
    var b' := SetFields(b, k, first, size);
    var s, s' := b[32 * k..32 * k + 32], b'[32 * k..32 * k + 32];
    SetFieldsReads(b, k, first, size);
    SetFieldsElsewhere(b, k, first, size);
    FieldBytes(b', k, first, size);
    FieldPlaces(e);
    FieldPlaces(e');
    forall i | 0 <= i < 32 && !IsField(i)
      ensures s'[i] == s[i]
    {
      assert (32 * k + i) / 32 == k && (32 * k + i) % 32 == i;
      assert s'[i] == b'[32 * k + i] && s[i] == b[32 * k + i];
    }
    assert s'[..20] == s[..20] && s'[22..26] == s[22..26];
    assert s' == s'[..20] + s'[20..22] + s'[22..26] + s'[26..28] + s'[28..];
  }

  lemma FieldPlaces(e: DirectoryEntry)
    requires e.Valid()
    ensures
      var s := e.Bytes();
      && s[..20] == e.name + [e.attributes, e.reservedNT, e.creationTimeTenths] + Le16(e.creationTime)
                    + Le16(e.creationDate) + Le16(e.lastAccessDate)
      && s[20..22] == Le16(e.firstClusterHigh) && s[22..26] == Le16(e.lastWriteTime) + Le16(e.lastWriteDate)
      && s[26..28] == Le16(e.firstClusterLow) && s[28..] == Le32(e.fileSize)
  {
    hide Le16, Le32;
  }

  lemma FieldBytes(b: Block, k: nat, first: nat, size: nat)
    requires k < 16 && first < TWO_32 && size < TWO_32 && EntryFirst(b, k) == first && EntrySize(b, k) == size
    ensures
      var s := b[32 * k..32 * k + 32];
      && s[20..22] == Le16(first / 0x1_0000) && s[26..28] == Le16(first % 0x1_0000) && s[28..] == Le32(size)
  {
    hide Le16, Le32, Word16, Word32;
    var at := 32 * k;
    Le16Back(b, at + 20);
    Le16Back(b, at + 26);
    Le32Back(b, at + 28);
    assert first / 0x1_0000 == Word16(b, at + 20) && first % 0x1_0000 == Word16(b, at + 26);
    PartOfPart(b, at, 20, 22);
    PartOfPart(b, at, 26, 28);
    PartOfPart(b, at, 28, 32);
    assert b[at..at + 32][28..] == b[at..at + 32][28..32];
  }

  lemma PartOfPart(b: seq<byte>, at: nat, i: nat, j: nat)
    requires i <= j <= 32 && at + 32 <= |b|
    ensures b[at..at + 32][i..j] == b[at + i..at + j]
  {
    var s, t := b[at..at + 32][i..j], b[at + i..at + j];
    assert |s| == |t| && forall k :: 0 <= k < j - i ==> s[k] == b[at + i + k] == t[k];
  }

  /** The entry of a new file: no attributes, the default time 01:00:00 on 2000-01-01 as that of its
      creation and of the last write, no cluster and no bytes. */
  lemma NewEntryIs(name: seq<byte>)
    requires |name| == 11
    ensures
      var time, date := 2048 * 1 + 32 * 0 + 0, 512 * (2000 - 1980) + 32 * 1 + 1;
      var e := DirectoryEntry(name, 0, 0, 0, time, date, date, 0, time, date, 0, 0);
      e.Valid() && NewEntry(name) == e.Bytes()
  {
  }

  /** What the first byte of an entry says: 0x00 is a free one behind which there is nothing, 0xE5
      a deleted one, and 0x2E, a dot, "." or "..". */
  lemma MarkIs(b: seq<byte>, k: nat)
    requires 32 * (k + 1) <= |b|
    ensures k < Count(b) && (IsFree(b, k) <==> b[32 * k] == 0x00)
    ensures IsLive(b, k) <==> b[32 * k] != 0x00 && b[32 * k] != 0xE5
    ensures IsName(NameAt(b, k)) <==> b[32 * k] != 0x00 && b[32 * k] != 0xE5 && b[32 * k] != 0x2E
  {
  }

  /** A removed file leaves a deleted entry. */
  lemma RemovedIsDeleted(g: Layout, s: CacheState, s': CacheState, f: FileState)
    requires g.Fits(|s.disk|) && f.block < |s.disk| && f.index < 16 && Removed(g, s, s', f)
    ensures s'.disk[f.block][32 * f.index] == 0xE5
  {
    hide Fat, Layout.Fits;
  }

  /** The bytes of a fixed root directory are those of the blocks from its start on. */
  lemma RootByteIs(g: Layout, d: Disk, dir: FileState, p: nat)
    requires g.Fits(|d|) && DirGood(g, d, dir) && dir.fixed && p < dir.size
    ensures g.rootStart + p / 512 < |d| && DirBytes(g, d, dir)[p] == d[g.rootStart + p / 512][p % 512]
  {
    hide Fat, Layout.Fits, DirBytes, DirGood;
    DirByte(g, d, dir, p);
  }
}
