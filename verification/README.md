# The SD file system and the UART receive ring, verified

This project models two parts of the repository in Dafny and proves what they are for.

**The FAT16/FAT32 file system of `Modules/SD`**, from the wire to the file name:

| file | layer |
|---|---|
| `Bytes.dfy`, `Layouts.dfy` | blocks and words; where FAT entries, clusters and file bytes are on a volume |
| `Formats.dfy` | the packed structs of `FatStructs.h` and the meaning of single bytes, written down apart from the accessors |
| `Chains.dfy` | the FAT as a table of links: well-formed tables, allocating a run, freeing and cutting a chain |
| `SdCard.dfy` | `Sd2Card`: partial block reads over a byte stream, block writes that may fail |
| `Cache.dfy` | the one-block write-back cache with the pending copy for the second FAT |
| `Volume.dfy`, `Geometry.dfy` | `SdVolume`: FAT access, the allocator, `init` |
| `FileModel.dfy`, `WriteModel.dfy`, `TruncateModel.dfy`, `Slots.dfy` | what the file operations mean, on values |
| `File.dfy` | `SdFile`: `seekSet`, `read`, `write`, `sync`, `truncate`, `remove`, `contiguousRange`, directory growth |
| `Entries.dfy`, `Names.dfy`, `DirModel.dfy`, `DirInvariant.dfy`, `Directory.dfy` | directories, 8.3 names, `open` by name, `createContiguous` |
| `Scripts.dfy`, `Session.dfy`, `Handles.dfy` | whole runs: files as byte sequences with a position; handles opened by name are what a run starts from |
| `Example.dfy` | a volume that meets all invariants, with two open files, an empty root directory and a subdirectory with `.`, `..`, a long name and a file; cards given by their bytes; and concrete inputs that go wrong |

**The receive ring of `Drivers/HardwareSerial`** (`SerialRing.dfy`): an interrupt and a program that share a
buffer without a lock.

The classes keep the source's fields and its loops. A card may refuse any command and any write, and a
write that fails may still have changed its block. The ghost field `BlockCache.disk` is the plain array of
blocks that card and cache stand for together; everything above the cache is stated about it. Where a method
fails, its contract says what is still true, and for what reason it may fail: the ghost counter
`Sd2Card.faults` goes up whenever the card fails, `BlockCache.Excused` says that it went up or that the cache
is stranded (see below), and a method may fail for no other reason than this, a full volume
(`Chains.AllInUse`), or a request that is not allowed.

## The main results

- `Session.Program.Run`: any script of reads, writes, seeks, truncations, syncs and removals on any number of
  open files, over a card that may fail at any point, gives back what the same script gives on byte sequences
  with positions; a file that is removed leaves the list, and all others stay as they are. It stops before the
  end only if the card failed, the cache is stranded, every cluster is in use, or the command is not one for that
  file in that state (`Scripts.Allowed`); all other files are then as they should be. A script that only appends
  never strands the cache, whatever it truncates and removes. After a final sync, a write to a file that was
  opened with `O_SYNC`, or a truncation, the card alone, without the cache, holds the file. `Handles.OpenAll` opens files by name, one after the other, and ends in a program that
  can run, with the access asked for and, without truncation, with the bytes that were there;
  `Example.TwoFiles` shows that what a run asks for can be met.
- Isolation (`FileModel.OtherFileKept`, `FileModel.IsolatedSpares`): what an operation does to one file, even
  one that fails half way, leaves the invariant, the bytes and the chain of every other file alone.
- The FAT stays well formed after every single store of an allocation, after truncating and after removing:
  every entry in use is on a chain that ends, and no two chains meet.
- An allocation of any number of clusters takes the lowest free run there is, or the first one going round from
  the cluster it extends, and refuses if and only if there is no such run anywhere
  (`Volume.SdVolume.AllocContiguous`): the search starts behind a cluster that is in use, so no run crosses its
  start (`Chains.NothingMissed`). This goes up to `createContiguous`, which removes the new file again only if
  there is no run.
- `freeChain` ends on every table, cyclic ones included; it succeeds exactly if it was given a chain, and then
  it clears exactly that chain.
- Both FATs agree after any successful flush, whatever failed before.
- A search by name misses nothing, no name is created that is there, no two entries ever come to have the same
  name that did not have it before, and nothing gets behind the first free entry.
- A directory whose live entries describe chains that exist (`DirInvariant.Truthful`), each with a chain to
  itself (`DirInvariant.Orderly`), stays so when files are opened, truncated or created in it, when it grows,
  when one of its files is removed, and when an operation on one of its files ends with the entry up to date.
  This is said of all live entries but `.` and `..`, which no 8.3 name is equal to, and volume labels and long
  names, which cannot be opened. Handles opened by different names from such a directory share nothing, and a handle stays good
  and up to date while others are opened (`Handles.FreshWhenFound`, `Handles.FreshWhenCreated`).
- Opening and creating spare every file that is not the one asked for, wherever its entry is, and a refusal
  changes nothing and leaves a directory to go on with (`Directory.Open`). If the card fails on the way, the
  directory is the one it was, or has a cluster that was not cleared, or has the new entry.
- In every interleaving of the receive interrupt with the program's memory accesses the port does what
  `SerialRing.After` says of sequences (`SerialRing.SerialPort.Run`), and that is what a bounded queue does on
  which interrupts and calls act one after the other, each in one go, at a point within the call
  (`SerialRing.RunIsAtomic`): the ring needs no lock.

- What is on a card is said of its bytes: which bytes are a FAT entry (`Layouts.EntryIsBytes`,
  `Layouts.StoredIsBytes`), a byte of a file (`Layouts.FileByteIs`), the fields of a boot sector, a partition
  table and a directory entry (`Formats.BootSectorReads`, `Formats.PartitionTableReads`, `Formats.EntryReads`),
  and which bits of an attribute byte count (`Entries.AttributesAreBits`); `Geometry.LayoutAsSpecified` is the
  layout and type that the specification of FAT gives a boot sector.

## Properties that fail, and when

- A write of a whole block over the block that is dirty in the cache forgets the number of the dirty block but
  not that it is dirty (SdFile.cpp:1280-1282). From then on every flush fails. `File.SdFile.Write` states
  exactly when this happens (`WriteModel.Hits`): when the write starts on a block boundary, does not enter its
  first cluster through the FAT, and the dirty block is among the blocks ahead in that cluster that it writes
  whole. `WriteModel.OverwriteHits` gives the family of inputs, `WriteModel.AppendNeverHits` shows that writing
  at the end never does it, and `File.SdFile.Sync` that it is for ever; `Example.OverwriteStrands` is one input, and
  `Example.StrandByWriting` a write that does it.
  Reads and writes that succeed still behave as byte sequences in this state.
- `truncate` frees the clusters behind the new end before it marks the end (SdFile.cpp:1189-1193). If it fails
  in between, the table is well formed if and only if nothing was freed or nothing was to be kept
  (`TruncateModel.CutFailedForm`); otherwise the last cluster kept links to a free one, as in
  `Example.CutLeavesDangling`.
- `truncate` and `remove` of a file of size 0 free nothing, even if it has clusters
  (`Slots.RemovedConserves`: all clusters come back if and only if the size was not 0 or there were none;
  `Example.RemovalLeaks` is an input).
- A read that fails at a cluster boundary may have moved the cursor on. A second try then follows one link too
  many: it reads the right cluster if and only if the cursor was not moved (`FileModel.RetryIsRight`). Away from
  a boundary an operation stays in the file and uses the right block if and only if the cursor is right
  (`FileModel.StrayBlock`).
- A seek that fails after it has followed a link has moved the cursor and not the position. A cursor that was
  right is right after that if and only if the walk did not restart and no link was followed
  (`FileModel.StoppedCursor`).
- `seekSet` does not repair such a cursor. `File.SdFile.SeekSet` states when the cursor is right afterwards: if
  and only if it was right before or the walk restarts at the first cluster. Otherwise it is as many clusters
  off as it was. `Example.SeekDoesNotHeal` is a file of three clusters, and `Example.SeekFromAhead` a seek in it.
- `read` returns its count as a 16-bit signed number: it is the count if and only if that is below 32768, and a
  read of 65535 bytes returns -1 (`FileModel.Int16`, `Example.LongReadLooksFailed`).
- `write` sets its error flag on success, and does not set it when a link cannot be read
  (`File.SdFile.Write`).
- A partial read request that runs past the end of a block deselects the card in the middle of the block; the
  next request succeeds with bytes that are all 0xFF (`SdCard.OverlongRequestGoesDeaf`). A write to block 0,
  which is refused, does the same to a partial read that is under way (`SdCard.ProtectedWriteGoesDeaf`).
- `open` with `O_TRUNC` and without `O_WRITE` fails on a file that is there, but only after it has opened the
  handle (SdFile.cpp:573, 589-590): the handle stays open (`Directory.LeavesOpen`).
- `init` accepts boot sectors that contradict themselves, and root directories whose size does not fit in 16
  bits. The layout fits the card if and only if the boot sector is consistent and the size of a FAT16 root
  directory does not overflow (`Geometry.LayoutFits`). `Example.TooSmallIsAccepted` is one that is not
  consistent; `Example.RootOverlapsData` one that is, and whose root directory starts where the data does.
- `addDirCluster` links the new cluster before it clears it. When clearing fails, the directory on the volume is
  the old one followed by the blocks that were not cleared, and zeros (`File.SdFile.AddDirCluster`). It is in
  order if and only if those blocks are: nothing in them behind a free entry, no name twice and none that was
  there (`DirModel.UnclearedOrder`). `Example.StaleEntryShows` is one that is not.

The documentation of `write` (SdFile.cpp:1219-1222) promises a count of bytes; the code returns nothing. The
comments of `contiguousRange` and `truncate` agree with the code.

## Model

| member | source | states |
|---|---|---|
| SdCard.Sd2Card.ReadEnd | Modules/SD/Sd2Card.cpp:440-461 | after a block that was started the card has sent its 512 bytes and both bytes of its CRC, and has nothing left to send, when the read is ended |
| SdCard.Sd2Card.CardCommand | Modules/SD/Sd2Card.cpp:108-137 | no command is sent while the card still has bytes of a block or its CRC to send, as long as driver and card are in step |
| SdCard.Sd2Card.ReadData | Modules/SD/Sd2Card.cpp:366-437 | a success returns the requested slice of the block as it is now, and outside the partial mode ends the block and deselects the card; driver and card stay in step if and only if the request does not overrun a block half read; a failure stores no byte |
| SdCard.Sd2Card.ReadBlock | Modules/SD/Sd2Card.cpp:352-354 | a success returns the whole block, with the read ended and the card deselected; a failure stores no byte |
| SdCard.Sd2Card.PartialBlockRead | Modules/SD/Sd2Card.cpp:338-341 | changing the mode ends a read that is under way |
| SdCard.Sd2Card.WriteBlock | Modules/SD/Sd2Card.cpp:583-618 | a success replaces that block; a failure changes at most that block; block 0 is never changed, and asking for it only deselects the card; the card is deselected in any case |
| SdCard.OverlongRequestGoesDeaf | Modules/SD/Sd2Card.cpp:366-387 | an input for which a partial read succeeds with bytes that are not those of the block |
| SdCard.ProtectedWriteGoesDeaf | Modules/SD/Sd2Card.cpp:583-589 | a write to block 0 in the middle of a partial read, which then goes on with bytes that are not those of the block |
| Cache.BlockCache.Flush | Modules/SD/SdVolume.cpp:105-120 | a success leaves nothing that is not on the card, both FAT copies included; a failure between the two writes loses neither; a stranded cache never flushes |
| Cache.BlockCache.RawBlock | Modules/SD/SdVolume.cpp:122-132 | the blocks the cache stands for do not change; a failure leaves the cached block in place |
| Cache.BlockCache.ZeroCached | Modules/SD/SdVolume.cpp:135-146 | one block becomes zeros, and no other changes |
| Cache.BlockCache.Adopt | Modules/SD/SdFile.cpp:1287-1292 | a block is taken over without being read, after everything dirty was written |
| Cache.BlockCache.CopyIn | Modules/SD/SdFile.cpp:1299-1302 | the cached block changes exactly in the bytes copied |
| Cache.BlockCache.CopyOut | Modules/SD/SdFile.cpp:772-775 | the destination changes exactly in the bytes copied |
| Cache.BlockCache.WriteThrough | Modules/SD/SdFile.cpp:1277-1284 | a block written past the cache is coherent with it: no other block changes, and a cached copy is forgotten |
| Cache.BlockCache.ReadThrough | Modules/SD/SdFile.cpp:763-766 | a read past the cache sees the current bytes of any block that is not cached |
| Cache.BlockCache.CleanIsOnCard | Modules/SD/SdVolume.cpp:105-120 | with a clean cache the card alone is the array of blocks |
| Layouts.FatOfPut | Modules/SD/SdVolume.cpp:179-208 | storing an entry changes that entry of the table and no other, although it rewrites a block, or two |
| Layouts.EntryIsBytes | Modules/SD/SdVolume.cpp:161-176 | an entry of the table is two bytes of a FAT block, low byte first, or four bytes without the top four bits |
| Layouts.StoredIsBytes | Modules/SD/SdVolume.cpp:179-208 | storing an entry changes exactly these bytes of its block, and the copy of that block in the second FAT |
| Layouts.EndMarks | Modules/SD/SdFat.h:534-538 | the end marks are 0xFFF8 to 0xFFFF and 0x0FFFFFF8 to 0x0FFFFFFF, and the last of them is the one stored |
| Layouts.PutKeepsMirror | Modules/SD/SdVolume.cpp:204-206 | FAT copies that agree still agree once the pending copy is in place |
| Layouts.DataKeepsFat | Modules/SD/SdFat.h:521-523 | changing a block outside the FATs changes no entry of the table |
| Layouts.ClusterBlocks | Modules/SD/SdFat.h:518-526 | cluster numbers and blocks in them map to blocks of the volume, and back |
| Layouts.BlockAtInjective | Modules/SD/SdFat.h:518-526 | different blocks of a file are different blocks of the card |
| Layouts.FileByteIs | Modules/SD/SdFat.h:518-526 | in which block of the card, and at which place in it, a byte of a file is |
| Layouts.FileBytesPatch | Modules/SD/SdFile.cpp:1276-1305 | patching one block of a file is a splice of its contents |
| Bytes.SpliceReads | Modules/SD/SdFile.cpp:1268-1311 | byte by byte, what a write of some bytes at a position makes of a sequence |
| Chains.ChainDistinct | Modules/SD/SdVolume.cpp:161-176 | a chain that reaches its end visits no cluster twice |
| Chains.HeadsDisjoint | Modules/SD/SdVolume.cpp:80-94 | in a well-formed table chains with different roots share no cluster |
| Chains.FreeWalk | Modules/SD/SdVolume.cpp:211-228 | following and clearing links ends on every table, by a measure on the entries in use |
| Chains.FreeWalkOnChain | Modules/SD/SdVolume.cpp:211-228 | on a chain it succeeds and clears exactly the clusters of the chain |
| Chains.FreeWalkOnlyOnChain | Modules/SD/SdVolume.cpp:211-228 | it succeeds only on a chain |
| Chains.ZeroAllFrees | Modules/SD/SdVolume.cpp:220-222 | clearing a chain adds exactly as many free clusters as it has |
| Chains.LinkRunWellFormed | Modules/SD/SdVolume.cpp:80-89 | after each single store that links a run, back to front, the table is well formed |
| Chains.LinkRunKeeps | Modules/SD/SdVolume.cpp:80-89 | and every existing chain is as it was and apart from the run |
| Chains.AllocatedWellFormed | Modules/SD/SdVolume.cpp:80-94 | so it is after the run was joined to a chain |
| Chains.AllocatedKeeps | Modules/SD/SdVolume.cpp:90-94 | joining changes no chain but the one that is extended |
| Chains.AllocatedExtends | Modules/SD/SdVolume.cpp:80-96 | the chain that ended in the given cluster goes on with the run, in order, to its end |
| Chains.FirstFit | Modules/SD/SdVolume.cpp:38-79 | with everything below the hint in use the search finds the lowest run of any length; the hint may then move behind a run of one cluster |
| Chains.NoneIsFree | Modules/SD/SdVolume.cpp:59-79 | there is no run of one cluster if and only if all clusters are in use |
| Chains.NothingMissed | Modules/SD/SdVolume.cpp:52-79 | a search that starts behind a cluster in use misses a run only if there is none anywhere |
| Chains.SearchNext | Modules/SD/SdVolume.cpp:59-79 | the search misses no run in the part it has looked at |
| Chains.CutChain | Modules/SD/SdFile.cpp:1177-1196 | cutting leaves a chain of the clusters kept and gives back exactly the others |
| Chains.CutWellFormed | Modules/SD/SdFile.cpp:1177-1196 | cutting keeps the table well formed and the chain a root |
| Chains.ZeroWellFormed | Modules/SD/SdVolume.cpp:211-228 | freeing a chain that nothing links to keeps the table well formed |
| Chains.PartFreedForm | Modules/SD/SdFile.cpp:1189-1193 | a cut that stopped leaves the table well formed if and only if nothing was freed or nothing is kept |
| Volume.OrphanWellFormed | Modules/SD/SdVolume.cpp:80-94 | an allocation that stops anywhere leaves a well-formed table, every chain, and at most an orphan run |
| Volume.SdVolume.FatGet | Modules/SD/SdVolume.cpp:161-176 | fetches the entry of the table, which is the number in those bytes of the FAT block; fails outside it; nothing changes but what is cached |
| Volume.SdVolume.FatPut | Modules/SD/SdVolume.cpp:179-208 | changes one entry of the table, exactly in its bytes, and keeps the volume's invariant, the mirror and the search hint included; a failure changes nothing |
| Volume.SdVolume.FindRun | Modules/SD/SdVolume.cpp:52-79 | finds the first run of free clusters from the start on, then from 2 up to the start, or proves that there is none in either part |
| Volume.SdVolume.AllocContiguous | Modules/SD/SdVolume.cpp:31-103 | the clusters were free and are linked in order behind the given chain, all other entries are unchanged; for a new chain the run is the lowest there is; the hint moves behind it exactly for one cluster of a new chain, and every cluster below the hint stays in use; it refuses only if the table has no such run anywhere, and then nothing changed; a device failure leaves at most an orphan run, and happens only if the card failed or the cache is stranded |
| Volume.SdVolume.FreeChain | Modules/SD/SdVolume.cpp:211-228 | does what `FreeWalk` says on any table; whatever fails, the table is that with the first `k` clusters of the walk cleared |
| Volume.SdVolume.ChainSize | Modules/SD/SdVolume.cpp:149-158 | the bytes of all clusters that the links lead to, as a 32-bit number; it fails if they lead out of the table |
| Volume.SdVolume.FlushAll | Modules/SD/SdVolume.cpp:105-120 | after a success the two FATs agree on the card, if they did when the volume was mounted |
| Volume.SdVolume.ZeroCluster | Modules/SD/SdFile.cpp:55-60 | all blocks of the cluster are zeros, its first block is cached, no other block changes |
| Geometry.Init | Modules/SD/SdVolume.cpp:245-313 | the fields are those of the boot sector of the chosen partition; it is refused exactly if partition or boot sector is not acceptable |
| Geometry.ShiftOf | Modules/SD/SdVolume.cpp:273-279 | a cluster is a power of two of blocks, up to 128, or it is refused |
| Geometry.LayoutFits | Modules/SD/SdVolume.cpp:270-311 | FAT, root and data regions follow one another on the card if and only if the boot sector is consistent and the size of a FAT16 root directory does not overflow |
| Geometry.LayoutAsSpecified | Modules/SD/SdVolume.cpp:270-311 | where no 32-bit number overflows the fields are those that the specification of FAT gives: the start of FATs, root and data, whole clusters, and FAT16 for 4085 to 65524 clusters, FAT12 below, FAT32 above |
| Geometry.AcceptedIs | Modules/SD/SdVolume.cpp:264-279 | a boot sector is accepted if and only if it has 512 bytes per sector, FATs, reserved sectors, and 1, 2, 4 up to 128 sectors per cluster |
| Geometry.UsableIs | Modules/SD/SdVolume.cpp:255-260 | a partition is used if and only if its boot flag is 0x00 or 0x80, and it has 100 sectors and does not start at 0 |
| Geometry.ClustersApart | Modules/SD/SdFat.h:518-526 | no block belongs to two clusters |
| Geometry.Mount | Modules/SD/SdVolume.cpp:245-313 | a volume with the layout of the boot sector and a clean cache, unless it is FAT12; its invariant holds if the layout fits the card, as it does for a sound boot sector; refused exactly if partition or boot sector is not acceptable, and failing otherwise only if the card fails or is too small |
| Formats.BootSectorReads | Modules/SD/FatStructs.h:128-274 | a boot sector written field by field in the order of the struct is read back as it was written |
| Formats.PartitionTableReads | Modules/SD/FatStructs.h:43-117 | so are the four partitions of a master boot record |
| Formats.EntryReads | Modules/SD/FatStructs.h:321-369 | so are name, attributes, first cluster and size of a directory entry |
| Formats.EntryWritten | Modules/SD/SdFile.cpp:1052-1079 | writing out first cluster and size leaves an entry with these two and all other fields as they were |
| Formats.NewEntryIs | Modules/SD/SdFile.cpp:483-500 | a new entry has its name, the default time stamps, and zeros in all other fields |
| Formats.MarkIs | Modules/SD/FatStructs.h:375-380 | the first bytes 0x00, 0xE5 and 0x2E tell free, deleted and dot entries |
| Formats.RemovedIsDeleted | Modules/SD/SdFile.cpp:850-868 | the entry of a removed file starts with 0xE5 |
| Formats.RootByteIs | Modules/SD/SdFile.cpp:738-741 | in which block of the card a byte of a fixed root directory is |
| FileModel.OtherFileKept | Modules/SD/SdFile.cpp:1157-1207 | an operation confined to one file keeps every other file good, with its bytes, and apart |
| FileModel.IsolatedSpares | Modules/SD/SdFile.cpp:1225-1327 | the same said of all other files at once |
| FileModel.CursorCrosses | Modules/SD/SdFile.cpp:749-752 | at a cluster boundary the link of the current cluster leads to the cluster of the next byte, or the file ends there |
| FileModel.RetryIsRight | Modules/SD/SdFile.cpp:749-752 | after a read that failed at a cluster boundary a second try follows the link to the right cluster if and only if the first did not move the cursor |
| FileModel.StrayBlock | Modules/SD/SdFile.cpp:739-755 | with the cursor on any cluster of the file the block accessed is one of the file, and within a cluster it is that of the position if and only if the cursor is right |
| FileModel.StoppedCursor | Modules/SD/SdFile.cpp:1024-1039 | after a seek that failed a cursor that was right still is if and only if the walk did not restart and followed no link |
| FileModel.SyncedIsOnCard | Modules/SD/SdFile.cpp:1052-1079 | after everything was written out the card alone describes and holds the file |
| FileModel.Int16 | Modules/SD/SdFile.cpp:723-780 | the 16-bit signed number that a count becomes: congruent to it, and equal if and only if it is below 32768 |
| WriteModel.GrowChain | Modules/SD/SdFile.cpp:37-47 | adding a cluster extends the chain, keeps the table well formed, and touches no other chain |
| WriteModel.PieceStored | Modules/SD/SdFile.cpp:1268-1305 | storing a piece is a splice of the bytes that count, and is confined to the file |
| WriteModel.PieceFailed | Modules/SD/SdFile.cpp:1276-1305 | a piece that could not be stored spoils at most the bytes it was to replace |
| WriteModel.OverwriteHits | Modules/SD/SdFile.cpp:1277-1282 | a whole-block write over the dirty block strands the cache, unless the block starts a later cluster |
| WriteModel.AppendNeverHits | Modules/SD/SdFile.cpp:1237-1240 | writing at the end of a file never strands the cache |
| WriteModel.HitsTurn | Modules/SD/SdFile.cpp:1242-1306 | one turn of the write loop neither strands the cache without a hit nor loses a hit that lies ahead |
| TruncateModel.ClustersForIsLeast | Modules/SD/SdFile.cpp:1025-1026 | the number of clusters kept is the least that has room for the bytes |
| TruncateModel.CutIsSound | Modules/SD/SdFile.cpp:1177-1200 | a file whose chain was cut is sound and has its leading bytes |
| TruncateModel.TruncatedConserves | Modules/SD/SdFile.cpp:1157-1207 | a truncation gives back exactly the clusters it takes off |
| TruncateModel.CutFailedForm | Modules/SD/SdFile.cpp:1177-1207 | after a truncation that failed the table is well formed if and only if it is unchanged, completely cut, or nothing was to be kept |
| TruncateModel.ContiguousIsWhole | Modules/SD/SdFile.cpp:100-161 | for a file created in one run the range found is exactly the clusters its size needs |
| Slots.RemovedConserves | Modules/SD/SdFile.cpp:850-868 | a removal gives back all clusters if and only if the size was not 0 or there were none |
| Slots.RemovedWellFormed | Modules/SD/SdFile.cpp:850-868 | a removal keeps the table well formed |
| Slots.SlotSpares | Modules/SD/SdFile.cpp:855-867 | changing a directory entry spares every file that another entry describes |
| File.SdFile.SeekSet | Modules/SD/SdFile.cpp:1009-1041 | a good handle stays good, a directory stays readable; in general the cursor is right afterwards if and only if it was right before or the walk restarted, and otherwise it is as many clusters off as before; a failure leaves it where some of the links lead to, fewer than were to be followed; with a cursor that is right, or with a walk that restarts, it fails only for a position behind the end, a closed file, or a card that failed |
| File.SdFile.ValidAgain | Modules/SD/SdFile.cpp:1018-1023 | a handle left usable by a failure is good again with a cursor that is right, as after a rewind, if and only if the cache holds no dirty block from behind the end of the file |
| File.SdFile.Read | Modules/SD/SdFile.cpp:723-781 | the bytes are those of the file or directory from the position on, whether they are cached or not; the blocks do not change; a failure leaves the cursor in place or one cluster ahead, and comes only from the card, a stranded cache, or a handle that is closed or not for reading |
| File.SdFile.AddCluster | Modules/SD/SdFile.cpp:37-47 | the chain grows by the new cluster, and the first one is noted for the directory |
| File.SdFile.Write | Modules/SD/SdFile.cpp:1225-1327 | the bytes are spliced in at the position, or at the end in append mode; for a file opened with `O_SYNC` a success leaves it on the card, entry and bytes; nobody else is touched, whatever fails; after a failure the file has the bytes it had but for those that were to be written; the cache is stranded if and only if it was or the write hits; what the error flag says; it fails only if the card did, the cache is stranded, all clusters are in use, or the handle is not for writing |
| File.SdFile.Sync | Modules/SD/SdFile.cpp:1052-1079 | a success leaves the file on the card and both FATs in agreement; for a directory nothing changes but that everything is written out; on a stranded cache it fails for ever, and otherwise only if the card fails or the file is closed |
| File.SdFile.Truncate | Modules/SD/SdFile.cpp:1157-1207 | the leading bytes and exactly the clusters they need are left, the rest is free, everything is on the card, the position is kept within the file, and the handle is good even if it was merely usable, as long as its cursor is right or the walk to the new end restarts; after a failure the table is cut as far as it got and in no other way, all other files are spared, and it has one of the known reasons |
| File.SdFile.Remove | Modules/SD/SdFile.cpp:850-868 | the clusters are free, the entry is marked deleted, the handle is closed, all other files are spared, also for a handle that an earlier failure left merely usable; a failure has one of the known reasons |
| File.SdFile.ReadDirCache | Modules/SD/SdFile.cpp:817-834 | the block of the next entry is cached, and the cursor is behind the entry |
| File.SdFile.AddDirCluster | Modules/SD/SdFile.cpp:51-64 | the directory has the same bytes followed by a cluster of zeros, with its first block cached; if clearing fails it has the same bytes followed by what was in the blocks not cleared yet, and if linking fails it has the same bytes |
| File.SdFile.ContiguousRange | Modules/SD/SdFile.cpp:100-120 | on any table it ends; it gives the blocks of the chain if it is one run, and refuses exactly if it is not |
| File.SdFile.Preallocate | Modules/SD/SdFile.cpp:148-160 | the file has one run of exactly the clusters its size needs, and its entry is on the card; it is removed only if the volume has no such run; a failure has one of the known reasons, and spares all other files |
| Names.Make83Name | Modules/SD/SdFile.cpp:263-301 | succeeds exactly on 8.3 names, and gives base and extension in upper case, filled with blanks |
| Names.LegalAre | Modules/SD/SdFile.cpp:278-294 | which bytes a name may have |
| Names.UppersAre | Modules/SD/SdFile.cpp:295-296 | each of the 26 letters gets its upper case form, and nothing else changes |
| Names.Spelling | Modules/SD/SdFile.cpp:263-301 | a name of ten characters and the eleven bytes it gives |
| Names.NoSpelling | Modules/SD/SdFile.cpp:263-301 | a name with two dots and one without a base, which give none |
| Names.NameIsLive | Modules/SD/SdFile.cpp:292-300 | a name never looks like a free or deleted entry |
| Names.SameNameSpelling | Modules/SD/SdFile.cpp:292-296 | two spellings give the same name if and only if they agree but for case, part by part |
| Entries.SearchIsComplete | Modules/SD/SdFile.cpp:438-462 | stopping at a free entry misses no name |
| Entries.CreateKeeps | Modules/SD/SdFile.cpp:468-486 | a new name in the first slot that is not live is there once, gives no other name a twin, and leaves nothing behind the first free entry |
| Entries.ExtendKeeps | Modules/SD/SdFile.cpp:472-482 | a cluster of zeros behind a full directory changes no name, and leaves nothing behind the first free entry |
| Entries.ExtendedOrder | Modules/SD/SdFile.cpp:51-64 | a full directory that goes on with anything is in order if and only if that is, and repeats no name |
| Entries.DeletedOne | Modules/SD/SdFile.cpp:855-861 | marking an entry deleted keeps nothing behind the first free entry, gives no name a twin, and the name is gone if it was there once |
| Entries.NoTwinsStay | Modules/SD/SdFile.cpp:438-486 | a directory in which no name is there twice stays so if no name gets a twin |
| Entries.AttributesAreBits | Modules/SD/FatStructs.h:381-418 | read-only, volume label and directory are bits 0, 3 and 4 of the attributes |
| Entries.ByteHasBits | Modules/SD/FatStructs.h:381-418 | every byte is one of eight such bits |
| DirModel.SlotInBytes | Modules/SD/SdFile.cpp:823-833 | changing a slot of a directory block changes that entry of the directory and no other |
| DirModel.FileOpKeepsNames | Modules/SD/SdFile.cpp:1052-1079 | operations on a file leave all names of a directory alone |
| DirModel.RemovedFromDirectory | Modules/SD/SdFile.cpp:850-868 | after a removal the directory is in order, no name has a new twin, and the name is gone if it was there once |
| DirModel.CreatedKeeps | Modules/SD/SdFile.cpp:463-503 | after a creation the directory is in order, no name has a new twin, and the new name is there once, whether it had to grow or not |
| DirModel.GrownSpares | Modules/SD/SdFile.cpp:51-64 | a directory that grows spares every file outside it, even if its entry is in it |
| DirModel.UnclearedOrder | Modules/SD/SdFile.cpp:51-64 | a directory whose new cluster could not be cleared is in order if and only if what is in the cluster is, and repeats no name |
| DirInvariant.WrittenStaysTruthful | Modules/SD/SdFile.cpp:483-500 | after a new entry was written every live entry still describes a chain that exists and is apart from the directory |
| DirInvariant.GrownStaysTruthful | Modules/SD/SdFile.cpp:51-64 | so it is after the directory grew by a cluster |
| DirInvariant.WrittenStaysOrderly | Modules/SD/SdFile.cpp:483-500 | a new entry leaves every live entry with a chain of its own |
| DirInvariant.GrownStaysOrderly | Modules/SD/SdFile.cpp:51-64 | so does a directory that grows |
| DirInvariant.RemovedStays | Modules/SD/SdFile.cpp:850-868 | after a removal the other entries still describe chains, each its own |
| DirInvariant.FileOpStays | Modules/SD/SdFile.cpp:1157-1207 | so they do after any operation on one file that ends with its entry up to date, and that entry with them |
| DirInvariant.OrderlyOwner | Modules/SD/SdFile.cpp:553-592 | a handle that agrees with its entry shares its chain with no other entry and not with the directory |
| DirInvariant.ElsewhereSpared | Modules/SD/SdFile.cpp:432-486 | creating a file spares every file whose own entry is not in a vacant slot of the directory or in a free cluster |
| DirInvariant.RootIsNoPlace | Modules/SD/SdFile.cpp:432-486 | no slot of a fixed root directory is such a place for another directory |
| DirModel.Root16Fits | Modules/SD/SdFile.cpp:609-612 | the fixed root directory lies within its region |
| Directory.FindEntry | Modules/SD/SdFile.cpp:432-462 | finds the first live entry with the name before any free entry, and remembers the first slot that is not live |
| Directory.OpenCachedEntry | Modules/SD/SdFile.cpp:553-592 | a handle on an entry that tells the truth is good, with the entry's bytes, or none if truncated, with the access asked for and at its start; what the bits of the attributes allow: no label, no directory or read-only file to write or truncate, a directory as such, and anything else as a file, short of an excuse; all other files are spared, even if it fails |
| Directory.OpenRoot | Modules/SD/SdFile.cpp:604-633 | the handle is on the root directory of either type, at its start and for reading only, with the size of what the links lead to, and valid if that is a chain; it fails only if the card does, the cache is stranded, the links of a FAT32 root lead out of the table, or the handle is open already |
| Directory.Open | Modules/SD/SdFile.cpp:421-507 | opens the file of that name if there is one and the flags allow it, creates it if not and the flags ask for it, with the access asked for and at the start, as a file or directory by the attribute bits of the entry; without truncation a file that is there changes nothing on the volume; nothing is behind the first free entry, no name has a new twin, and a created name is there once; the directory stays truthful and stays orderly; all other files are spared, even if it fails; a refusal changes nothing but the position in the directory; after another failure all names are what they were, or the directory has a cluster that was not cleared, or the new entry; it fails only for the card, a stranded or full volume, or one of the listed refusals |
| Directory.CreateContiguous | Modules/SD/SdFile.cpp:140-161 | the new file has the size, one run of exactly the clusters it needs, is open to read and write at its start, and has its name once in a directory that is in order, stays truthful and stays orderly; all files that were there are spared, whatever fails, and the slot of the new entry was vacant or in a free cluster; the name is gone again only if the volume has no such run, and then the directory is as orderly as before; a refusal changes nothing |
| Scripts.StepTogether | Modules/SD/SdFile.cpp:1225-1327 | an operation on one of many open files keeps all of them good and apart, and the table well formed |
| Scripts.RemoveTogether | Modules/SD/SdFile.cpp:850-868 | after one of many open files was removed the others are good, apart and as they were, and the table is well formed |
| Session.Program.Step | Modules/SD/SdFile.cpp:723-781 | one command, a removal included, does to the view of all files what it does to byte sequences with positions |
| Session.Program.Run | Modules/SD/SdFile.cpp:723-1327 | so does every script; it stops early only if the card failed, the cache is stranded, the volume is full, or the command is not allowed; where it stops, the other files are as they should be; append-only scripts never strand the cache, with truncations and removals in between; after a final sync, a write to a file opened with `O_SYNC`, or a truncation, the card holds the file |
| Handles.NamesApart | Modules/SD/SdFile.cpp:421-507 | handles opened by different names from an orderly directory share no cluster and no entry, and neither holds the other's entry |
| Handles.HandlesTogether | Modules/SD/SdFile.cpp:421-507 | any number of them meet what `Session.Program` asks of its files |
| Handles.FreshWhenFound | Modules/SD/SdFile.cpp:553-592 | a handle opened by name stays good and in agreement with its entry, with the same bytes, when another name is opened, even with truncation |
| Handles.FreshWhenCreated | Modules/SD/SdFile.cpp:463-503 | so it does when another name is created |
| Handles.SameNameSameFile | Modules/SD/SdFile.cpp:553-592 | two handles on one name are on one entry and one chain |
| Handles.KeptNext | Modules/SD/SdFile.cpp:421-507 | opening one more file without truncation leaves every handle that was good and up to date so, with the same bytes |
| Handles.OpenAll | Modules/SD/SdFile.cpp:421-507 | opens a list of names in a directory, one after the other, and ends with all files open, with the access asked for and at their start, in a program that can run; without truncation each handle is on the file that was on its name, which has the bytes it had; it stops only if the card failed, the cache is stranded, the volume is full, or the directory as it is then refuses the next name or has a directory of that name |
| SerialRing.RingPush | Drivers/HardwareSerial/HardwareSerial_private.h:100-110 | storing at the head appends to the ring, and head and tail meet exactly when it holds one byte less than its size |
| SerialRing.RingLength | Drivers/HardwareSerial/HardwareSerial.cpp:154-158 | the index arithmetic counts the bytes in the ring |
| SerialRing.SlotIsMod | Drivers/HardwareSerial/HardwareSerial.cpp:174 | 8-bit increments and remainders go once around the buffer, for every size up to 256 |
| SerialRing.SerialPort.RxCompleteIrq | Drivers/HardwareSerial/HardwareSerial_private.h:96-115 | a byte is appended to the ring unless its parity is wrong or the ring is full; nothing in the ring is lost |
| SerialRing.SerialPort.Continue | Drivers/HardwareSerial/HardwareSerial.cpp:154-177 | the outcome of a call is fixed by what was in the ring when it loaded the head index, whatever arrives meanwhile |
| SerialRing.SerialPort.Run | Drivers/HardwareSerial/HardwareSerial.cpp:154-177 | in every interleaving ring, program, accepted and delivered bytes and all answers are what the steps on sequences give, and what was accepted is what was delivered followed by the ring |
| SerialRing.NextIsAtomic | Drivers/HardwareSerial/HardwareSerial.cpp:154-177 | each memory access does to the queue what one action does, or nothing |
| SerialRing.RunIsAtomic | Drivers/HardwareSerial/HardwareSerial.cpp:154-177 | every interleaving gives the queue and the answers of a bounded queue on which the calls act one after the other in one go |
| Example.TwoFiles | Modules/SD/SdFat.h:383-395 | there is a volume with two open files that meets the invariants all of the above is about |
| Example.EmptyRoot | Modules/SD/SdFile.cpp:604-633 | the root directory of that volume is in order, truthful and orderly |
| Example.Subdirectory | Modules/SD/SdFile.cpp:336-363 | a subdirectory with `.`, `..`, a long name and a file is in order, truthful and orderly |
| Example.OverwriteStrands | Modules/SD/SdFile.cpp:1277-1282 | a good handle at the start of a file whose first block is dirty in the cache, and a write of 512 bytes there hits it |
| Example.StrandByWriting | Modules/SD/SdFile.cpp:1277-1282 | that write, made on a handle: if it succeeds the cache is stranded |
| Example.CutLeavesDangling | Modules/SD/SdFile.cpp:1189-1193 | a cut of a chain of three clusters that stops with a link to a free cluster |
| Example.RemovalLeaks | Modules/SD/SdFile.cpp:1166-1168 | a good file whose removal gives back nothing although it has a cluster |
| Example.SeekDoesNotHeal | Modules/SD/SdFile.cpp:1024-1039 | a sound file of three clusters with the cursor where a failed read leaves it, one cluster ahead: a seek to the next cluster ends one cluster ahead |
| Example.SeekFromAhead | Modules/SD/SdFile.cpp:1024-1039 | that seek, made on a handle |
| Example.LongReadLooksFailed | Modules/SD/SdFile.cpp:723-780 | a read of 65535 bytes of a file that succeeds and returns -1 |
| Example.TooSmallIsAccepted | Modules/SD/SdVolume.cpp:264-311 | a boot sector that is accepted and is not consistent: it gives a FAT32 volume of 4294967261 clusters |
| Example.RootOverlapsData | Modules/SD/SdVolume.cpp:285-292 | a consistent boot sector with 4096 root entries that is accepted, and whose root directory overlaps the data |
| Example.StaleEntryShows | Modules/SD/SdFile.cpp:51-64 | a full directory that gets a cluster which is not cleared, and then has a name that was never created, behind a free entry |
| Example.Fat16ByBytes | Modules/SD/SdVolume.cpp:161-176 | ten bytes of a 16-bit FAT that are a chain of three clusters |
| Example.Fat32ByBytes | Modules/SD/SdVolume.cpp:161-176 | sixteen bytes of a 32-bit FAT that are a chain of two clusters, with the top bits of a link set |
| Example.MountByBytes | Modules/SD/SdVolume.cpp:245-313 | a card given by the bytes of its boot sector, the layout that mounting it must give, and that it fails only if the card does |

## Left out

- Directory.Open: asks that nothing is behind the first free entry and that the live entries, but for `.`, `..`, volume labels and long names, describe chains that exist; in other directories the source opens what it finds, and loops for ever if a subdirectory's links do.
- Volume.SdVolume.ChainSize: must be given links that lead to an end mark or out of the table, because on links that go round the source does not return.
- File.SdFile.Write: asks for a handle that is good; `File.SdFile.ValidAgain` says when one is good again after a failure, and `FileModel.StrayBlock` which block is used if the cursor is off. Sizes and positions at or above 2^32 are excluded, where the source's 32-bit fields wrap.
- File.SdFile.ContiguousRange: a first cluster of 1 is excluded, which no entry that tells the truth has; the source takes the second reserved entry of the FAT for its link.
- File.SdFile.Read: asks for a cursor that is right; what a second try after a failure reads is said by `FileModel.RetryIsRight` and `FileModel.StrayBlock`.
- File.SdFile.Truncate: asks for a cursor that is right or a length from which the walk restarts; otherwise the seek before the cut ends as far off as `File.SdFile.SeekSet` says.
- Geometry.Mount: says nothing of the invariant for boot sectors that are not sound, because it does not hold for them.
- The date and time callback: new entries get the default time stamps.
- SdCard.Sd2Card.ReadData: addresses on the bus, timeouts, status codes and the choice of SPI implementation are not modelled; a card may refuse any request.
- SdCard.Sd2Card.WriteBlock: is one step for the card; writing several blocks, erasing and reading registers are not modelled.
- Geometry.Init: the product 32 * rootDirEntryCount is a 16-bit number, as on AVR, and `Directory.OpenRoot` asks that it does not overflow; FAT12 volumes are recognized and not used.
- The bytes of `clusterSizeShift_` shifts are written as products with `blocksPerCluster_`, which `init` makes the same.
- One volume on one card: volumes that share the static cache are not modelled, and a handle keeps its volume.
- Several handles on one file, which the documentation warns about (SdFatmainpage.h:131-132).
- A third or later copy of the FAT, which the source never updates.
- `makeDir`, `rmDir`, `rmRfStar`, `open` by index, `readDir`, `ls`, `timestamp` and `dirEntry`: much bulk, little that is new.
- `dirName` and the path splitting of SD.cpp.
- The transmit ring of the UART: `write` publishes the head and enables the interrupt in two steps.
