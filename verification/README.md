# A verified model of the OS/0 kernel's stateful algorithms

OS/0 is a small i386 kernel. Its difficulty sits in a few algorithms that keep
state: the ext2 file system with its on-disk pointer trees, its one-block file
buffer and its directory blocks; the kernel heap; `qsort`; SHA-256; the byte
view of a disk; descriptor and process bookkeeping; page tables; the terminal;
path normalisation. This project models them in Dafny and proves what they
promise, for all inputs and all runs.

Code that works in place is modelled in place: arrays, objects and loops, each
method proved equal to a function or against a direct statement. The theorems
about whole operations and whole runs are lemmas about these functions.

| module | what it models |
|---|---|
| `Bytes`, `Memory`, `Radix`, `Errors` | little-endian words, stretches of bytes, base-a positional arithmetic, error codes |
| `Ext2Tree`, `Ext2Disk` | the pointer tree behind one slot of an inode, and its form on disk |
| `Ext2Alloc` | block bitmap, group and superblock counts, allocation, inode search |
| `Ext2Truncate`, `Ext2Inode` | the recursive deallocator, and the inode as one map cut at a block |
| `Ext2Bmap`, `Ext2Layout`, `Ext2View` | `ext2_bmap` as a partial map; its words on disk; what the logical blocks hold |
| `Ext2Space`, `Ext2Set`, `Ext2Stop` | when allocation succeeds, what the block count means for truncation, and what a truncation that stops leaves behind |
| `Ext2File`, `Ext2Outcome` | the write-back buffer, `ext2_read`, `ext2_write`, and runs of them; when they succeed |
| `Ext2Dir`, `Ext2DirRoom`, `Ext2DirOps` | directory records tiling a block; room for a name; link, unlink and lookup; runs of them |
| `Qsort` | median-of-three quicksort with an explicit stack and an unguarded insertion pass |
| `HeapTags`, `SortedArray`, `Heap` | boundary tags in raw memory, the header index, `heap_alloc` and `heap_free` |
| `Sha256`, `Sha256Roots`, `Sha256Example` | the streaming hash with its rolling schedule; its constants and an example of the standard |
| `AtaBio` | unaligned reads and writes over whole sectors |
| `FdTable`, `Tasks` | open-file table with reference counts and search hint; task queue and descendant counters |
| `Paging` | two-level page tables as a flat map |
| `Vt100` | parser, cursor, scrolling and the mirrored screen |
| `PathResolve` | path components folded over a stack |

`dafny verify dfyconfig.toml` checks the whole project.

## Findings

Where the code does not do what its callers or comments expect, the model keeps
the code and states exactly when it does:

- `ext2_bmap` counts too few blocks. In `fs/ext2/bmap.c:73` the counter's pointer
  is advanced instead of the counter, so `i_blocks` counts the block of an empty
  slot and no block taken below an indirect slot (`Ext2Bmap.BmapCounts`). Truncating
  such an inode to nothing ends with EOVERFLOW (`Ext2Space.AllocThenTruncate`,
  `Ext2Space.UndercountHappens`); the exact condition is `Ext2Inode.TruncateSucceeds`.
- `ext2_bmap` drops the overflow error of `ext2_iblk_add_blocks` (`fs/ext2/bmap.c:279`):
  the block is taken and `i_blocks` stays. `Ext2Bmap.BmapCounts` says exactly when.
- A truncation that stops with EOVERFLOW may have given blocks back that a table on
  disk still points to. It has exactly when `i_blocks` runs out below a slot
  (`Ext2Stop.TruncateDangles`); `Ext2Stop.IndirectDangles` names the blocks for the
  single indirect range, `Ext2Stop.DanglingHappens` an input. What lies below the cut
  is safe (`Ext2Stop.TruncateStops`).
- `ext2_new_block` refuses a goal outside the volume instead of adjusting it. The
  goal is the left neighbour's block, which is 0 for a hole, so with first data
  block 1 a direct block behind a hole is never allocated (`Ext2Space.HoleRefused`,
  `Ext2Space.RefusalHappens`). `Ext2Space.BmapSucceeds` is the exact condition.
- Flushing a clean buffer over a hole allocates the block. The content does not
  change (`Ext2File.FlushSame`), but a read that moves on from a hole can fail for lack
  of space (`Ext2Outcome.FlushSucceeds`, `Ext2Outcome.FetchSucceeds`).
- A left merge in `heap_free` leaves the footer of the merged block at a header
  whose magic number was cleared, and a right merge leaves the absorbed magic
  number in place. The invariant says so (`HeapTags.LeftMerged`, `HeapTags.RightMerged`).
- A disk transfer passes its sector count as an unsigned char. The whole range is
  moved exactly when it needs fewer than 256 whole sectors (`AtaBio.ReachedAll`).
- `get_paddr` does not look at the present bit of the page entry: a page without
  an entry in an existing table yields the bare offset (`Paging.Directory.GetPaddr`).
- `vfs_path_resolve` works on a string that is one character longer than its
  input exactly when the input is a normal path other than the root
  (`PathResolve.PeakLength`); its terminator then needs one byte more than the
  buffer has, as for "/a" (`PathResolve.PeakAtName`).
- The display obeys the input flags of the active terminal, also when it draws on
  another one (`Vt100.Console.PutChar`).

## Model

| member | source | states |
|---|---|---|
| Ext2Inode.TruncateMap | fs/ext2/util.c:172-228 | Truncating at logical block start keeps every mapping below start, makes every mapping from start on a hole, and leaves a well-formed inode, for every well-formed pointer tree and block size |
| Ext2Inode.TruncateFrees | fs/ext2/util.c:124-228 | A successful truncation gives back exactly the blocks it removes from the inode, each once: the used set loses them and the free count grows by their number |
| Ext2Inode.TruncateFreesData | fs/ext2/util.c:124-228 | A mapped data block is given back exactly when its offset is not below the cut |
| Ext2Inode.TruncateLeavesNoneIdle | fs/ext2/util.c:145-167 | No indirect block that the cut visits is left in the inode without entries |
| Ext2Inode.TruncateSucceeds | fs/ext2/util.c:1891-1909 | Truncation returns success exactly when i_blocks covers the blocks to be given back, otherwise EOVERFLOW; on success the number is that of the removed blocks, and i_blocks, a count of 512-byte units, drops by the bytes of these blocks |
| Ext2Inode.DeallocIndirect | fs/ext2/util.c:172-228 | The in-place level loop computes DeallocFrom for every range that reaches the end of the file, and does nothing when the start does not fit in 32 bits |
| Ext2Inode.DeallocLevels | fs/ext2/util.c:200-222 | The loop over the four levels with its running start, count and span, which never runs out of count |
| Ext2Truncate.DeallocIndirectBlock | fs/ext2/util.c:124-170 | The recursive in-place cut of a pointer array equals CutTable on volume, i_blocks, array and return code, and touches no other slot |
| Ext2Truncate.DeallocEntries | fs/ext2/util.c:138-168 | The entry loop with its running offset equals the fold over the entries |
| Ext2Truncate.TableCuts | fs/ext2/util.c:124-170 | After a successful cut the pointer array denotes the pruned trees, the volume is consistent, and the used set has lost exactly what the trees lost |
| Ext2Truncate.TableCharges | fs/ext2/util.c:165-169 | The cut of a pointer array fails exactly when i_blocks is smaller than the total charge of all levels below it |
| Ext2Truncate.CutSizeIsFreed | fs/ext2/util.c:124-170 | The number of blocks charged is the size of the set of blocks given back |
| Ext2Truncate.CheckZeroBlock | fs/ext2/util.c:110-122 | The byte scan decides whether a block is all zero |
| Ext2Truncate.SubBlocks | fs/ext2/util.c:1891-1909 | i_blocks, a count of 512-byte units, drops by the bytes of n blocks, or the call fails with EOVERFLOW and leaves it |
| Ext2Truncate.SectorBytes | fs/ext2/util.c:1891-1909 | The unit of i_blocks: 512 times the count of n blocks is n times the block size |
| Ext2Tree.PruneLookup | fs/ext2/util.c:124-170 | At tree level: a cut keeps the lookups below it and turns the others into holes |
| Ext2Tree.PruneFreesData | fs/ext2/util.c:124-170 | At tree level: a data block stays owned exactly below the cut |
| Ext2Disk.DecodeEncode | fs/ext2/util.c:148-159 | A table of 32-bit words written to a block reads back the same |
| Bytes.WordOrder | fs/ext2/bmap.c:58-58 | A 32-bit word on disk or in a tag has its least significant byte first |
| Ext2Disk.TreeFrame | fs/ext2/bmap.c:33-106 | The tree under a pointer depends only on its own indirect blocks |
| Ext2Disk.ZeroBlock | fs/ext2/util.c:110-122 | A block is all zero bytes exactly when all its 32-bit pointers are 0 |
| Ext2Bmap.BmapMaps | fs/ext2/bmap.c:108-283 | Whatever the flags, a call for block k changes the mapping of no other block; on success k maps to the returned block, on failure the whole map is unchanged |
| Ext2Bmap.BmapSets | fs/ext2/bmap.c:161-283 | With SET: on success the block maps to the given value, which is returned; every direct block can be set; without ALLOC a block is set exactly when the indirect blocks on its path exist, else EINVAL; a block number too big gets EFBIG |
| Ext2Bmap.WalkSets | fs/ext2/bmap.c:33-106 | Below a pointer, an entry is set exactly when every indirect block on the way to it is there |
| Ext2Bmap.LookupAccepts | fs/ext2/util.c:1355-1373 | A lookup returns Ok for every block number below 12 + a + a^2 + a^3 and below 2^32 - 1, and EFBIG for every other |
| Ext2Layout.Layout | fs/ext2/bmap.c:161-283 | The map is what the on-disk format says: a direct block is a word of the inode; the others are the little-endian words of tables, reached by the base-a digits of the offset, most significant first |
| Ext2Layout.EntryLookup | fs/ext2/bmap.c:33-106 | One level of tables: word i of a table covers the offsets from i times the span of an entry on |
| Ext2Set.SetAllocSucceeds | fs/ext2/bmap.c:33-283 | With SET and ALLOC together the call succeeds exactly when the entry for the block is there, or the missing tables can be allocated: a left neighbour inside the volume, a free block for each, and (unless block 0 belongs to the volume) only first entries between them |
| Ext2Set.WalkReaches | fs/ext2/bmap.c:33-106 | The same exact condition for the chain below an indirect block |
| Ext2Bmap.BmapNear | fs/ext2/bmap.c:58-68 | The block taken for a hole is the first free one from its goal on, cyclically: the goal is the entry to the left, the indirect block for a first entry, or the caller's goal for block 0 |
| Ext2Bmap.BmapKeeps | fs/ext2/bmap.c:108-283 | A call without SET, successful or not, leaves a well-formed inode, and every block newly marked in use belongs to the inode |
| Ext2Bmap.BmapReads | fs/ext2/bmap.c:108-283 | A lookup, or an allocating call for a mapped block, returns the mapping and changes nothing |
| Ext2Bmap.BmapAllocates | fs/ext2/bmap.c:33-283 | A successful allocation for a hole returns a block that was free, is now in use, and is zeroed on disk |
| Ext2Bmap.BmapCounts | fs/ext2/bmap.c:270-283 | i_blocks grows by exactly one block if the slot itself was empty and the sum fits in 32 bits, else not at all; that equals the blocks taken exactly for a direct block whose count fits |
| Ext2Bmap.AddressUnique | fs/ext2/util.c:1355-1373 | The split of block numbers into 12, a, a^2 and a^3 is a bijection: every address belongs to exactly one block and that block has no other address |
| Ext2Bmap.BlockAt | fs/ext2/bmap.c:161-281 | Every accepted block number has an address |
| Ext2Inode.LevelBases | fs/ext2/util.c:1355-1373 | The four ranges begin at 0, 12, 12 + a, 12 + a + a^2 and end at 12 + a + a^2 + a^3 |
| Ext2Bmap.WalkMaps | fs/ext2/bmap.c:33-106 | The chain of lookups below a pointer changes the mapping of its own offset only; without SET the tree takes in exactly the new blocks |
| Ext2Bmap.WalkTwo | fs/ext2/bmap.c:80-92 | Splitting by division and remainder walks the same two tables as the base-a digits |
| Ext2Bmap.WalkThree | fs/ext2/bmap.c:94-106 | Peeling the last digit first, as the code does, is the same walk as peeling the first digit first |
| Ext2Bmap.BlockIndBmap | fs/ext2/bmap.c:33-78 | The in-place lookup, set or allocation in one indirect block equals IndBmap and keeps the volume consistent |
| Ext2Bmap.BlockDindBmap | fs/ext2/bmap.c:80-92 | The two-step chain equals the walk of length 2 |
| Ext2Bmap.BlockTindBmap | fs/ext2/bmap.c:94-106 | The three-step chain equals the walk of length 3 |
| Ext2Bmap.Locate | fs/ext2/util.c:1355-1373 | The running subtraction finds the level and offset of a block, or that it is too big |
| Ext2Bmap.BmapInode | fs/ext2/bmap.c:108-283 | The in-place call on volume and inode equals Bmap, about which the theorems above speak |
| Ext2View.MapInjective | fs/ext2/bmap.c:108-283 | No two logical blocks of a well-formed inode map to the same physical block |
| Ext2View.BmapView | fs/ext2/bmap.c:108-283 | A lookup or an allocation, successful or not, changes what no logical block holds |
| Ext2View.ViewWritten | fs/ext2/util.c:1819-1822 | Writing the block that k maps to changes what k holds and nothing else of the file or its map |
| Ext2Space.BmapSucceeds | fs/ext2/bmap.c:58-77 | With ALLOC the call succeeds exactly when the path ends in a block, or stops at an empty pointer with a left neighbour inside the volume, enough free blocks for the rest of the path, and (unless block 0 belongs to the volume) only first entries on that rest |
| Ext2Space.BmapCost | fs/ext2/bmap.c:33-283 | No call takes more than four blocks |
| Ext2Space.BmapRoom | fs/ext2/bmap.c:33-283 | Where block 0 and the goal belong to the volume, four free blocks are room for every block number |
| Ext2Space.WalkSucceeds | fs/ext2/bmap.c:33-106 | The same exact condition for the chain below an indirect block |
| Ext2Space.AllocThenTruncate | fs/ext2/bmap.c:270-283 | An inode with an exact i_blocks that allocates one more block can be truncated to nothing exactly when that block is a direct one and its count fits in 32 bits; otherwise truncation ends with EOVERFLOW |
| Ext2Space.UndercountHappens | fs/ext2/bmap.c:59-74 | A concrete family of inputs: on a volume with two free blocks an empty inode allocates block 12 and can then not be truncated to nothing |
| Ext2Space.BlankClean | fs/ext2/util.c:1215-1233 | The volume invariant can hold: a volume of one group with any first data block and any number of free blocks |
| Ext2Space.EmptyInode | fs/ext2/bmap.c:108-283 | The inode invariant can hold: an inode without blocks is well formed on every consistent volume, maps and owns nothing |
| Ext2Space.HoleRefused | fs/ext2/util.c:2067-2094 | An unmapped direct block whose left neighbour is a hole gets EINVAL, whatever is free and whatever the goal, exactly when block 0 lies outside the volume; otherwise it is refused only on a full volume |
| Ext2Space.RefusalHappens | fs/ext2/util.c:2067-2094 | A concrete family of inputs: with first data block 1 and any number of free blocks an empty inode cannot get its block 1 |
| Ext2Stop.TruncateStops | fs/ext2/util.c:124-228 | Whatever a truncation returns, the volume stays consistent, mappings below start stay and their blocks stay in use, a mapping from start on is kept or gone, and no block leaves the inode without being given back |
| Ext2Stop.TableParts | fs/ext2/util.c:124-170 | The cut of a pointer array that stops early: through the old pointers or the new ones, each tree keeps its mappings below the cut and owns every block of its own still in use; only blocks a full cut gives back are free |
| Ext2Stop.TruncateDangles | fs/ext2/util.c:124-228 | After a truncation every block that the inode still points to is in use if and only if i_blocks did not run out below one of its slots: for no level it covers what the levels before give back but not what lies below the slots |
| Ext2Stop.IndirectDangles | fs/ext2/util.c:148-169 | If i_blocks does not cover the mapped blocks from start to the end of the single indirect range, exactly those blocks are given back while the disk and the slots, and so all mappings to them, are as before |
| Ext2Stop.DanglingHappens | fs/ext2/util.c:148-169 | A concrete family of inputs: an empty inode allocates blocks 12 and 13 and is truncated at 12; both blocks are then free and both still mapped |
| Ext2Alloc.AllocStatsOk | fs/ext2/util.c:1215-1233 | Marking a free block or unmarking a used one keeps every group count equal to its clear bits and the superblock total equal to their sum, and changes the used set by that block |
| Ext2Alloc.AllocStatsExact | fs/ext2/util.c:1215-1233 | Marking or unmarking keeps the volume consistent exactly on a free block, or on a used block other than 0 |
| Ext2Alloc.RunBalance | fs/ext2/util.c:1215-1233 | Over every run of allocations and frees of used blocks all counts stay exact; used blocks and blocks given back are together the blocks used at first and those handed out, as multisets, so none is handed out twice in between; blocks not handed out keep their content |
| Ext2Alloc.TotalIsClear | fs/ext2/util.c:1215-1233 | The superblock free count is the number of clear bits of the whole bitmap |
| Ext2Alloc.UsedAndFree | fs/ext2/util.c:1215-1233 | Blocks in use and free blocks make up the volume |
| Ext2Alloc.NewBlock | fs/ext2/util.c:2067-2094 | EINVAL exactly for a goal outside the volume; otherwise the first free block from the goal on, cyclically, or ENOENT |
| Ext2Alloc.NewBlockFails | fs/ext2/util.c:2067-2094 | With a goal inside the volume the search fails only on a full volume, and succeeds otherwise |
| Ext2Alloc.AllocOk | fs/ext2/util.c:2253-2282 | A successful allocation takes the first free block from the goal on, cyclically, zeroes it, marks it and touches no other; a failed one changes nothing |
| Ext2Alloc.FindFirstZero | fs/ext2/bitmap.c:728-759 | The 32-bit search returns the first clear bit of the range, ENOENT only if all are set, EINVAL exactly outside the map |
| Ext2Alloc.Volume.FindBlock | fs/ext2/util.c:2067-2094 | The two searches of the code equal NewBlock |
| Ext2Alloc.Volume.BlockAllocStats | fs/ext2/util.c:1215-1233 | The in-place update equals AllocStats; a block beyond the volume is ignored |
| Ext2Alloc.Volume.AllocBlock | fs/ext2/util.c:2253-2282 | The in-place allocation equals Alloc and keeps the volume consistent |
| Ext2Alloc.NewInode | fs/ext2/util.c:2096-2157 | For every parent: ENOSPC exactly when the parent's group starts behind the last inode or every candidate is taken; otherwise the first clear inode from the parent's group on, then from the first one for files on |
| Ext2File.RunIsFlat | fs/ext2/inode.c:229-322 | For any run of reads, writes and flushes, failed ones included: each byte is that of the flat file that the writes produce as far as each got, except where the last write to cover it stopped short |
| Ext2File.RunReads | fs/ext2/inode.c:229-266 | Each successful read of a run, whatever failed before it, returns as many bytes as the flat file has from its offset, up to the length, and these bytes |
| Ext2File.RunSize | fs/ext2/inode.c:314-320 | The size after any run is that of the flat file, which follows the position each write reached, failed or not |
| Ext2File.RunStops | fs/ext2/inode.c:268-322 | A write of a run stops inside its range, and at the end of it if it succeeds |
| Ext2File.RunOnDisk | fs/ext2/util.c:1784-1824 | After a final flush the disk alone denotes the flat file |
| Ext2File.WriteBytes | fs/ext2/inode.c:268-322 | A write changes exactly its byte range and extends the size to its end if need be |
| Ext2File.WriteReaches | fs/ext2/inode.c:268-322 | A write, also a failed one, touches no byte outside its range, has put its data before the position it reached, and leaves the size at that position if it grew |
| Ext2File.ReadBytes | fs/ext2/inode.c:229-266 | A read returns the bytes of the file from the position on |
| Ext2File.ReadKeeps | fs/ext2/inode.c:229-266 | A read, successful or not, changes no byte and not the size |
| Ext2File.ReadCount | fs/ext2/inode.c:229-266 | A read returns as many bytes as are left, up to its length |
| Ext2File.FlushSame | fs/ext2/util.c:1784-1824 | A flush changes no content, also when a clean hole is written back as zeros |
| Ext2File.FlushedOnDisk | fs/ext2/util.c:1784-1824 | After a successful flush each block on disk is what the file held |
| Ext2File.SyncSame | fs/ext2/util.c:1826-1840 | Moving the buffer to another block changes no content |
| Ext2File.LoadSame | fs/ext2/util.c:1842-1869 | Filling the buffer changes no content |
| Ext2File.ChunkWrites | fs/ext2/inode.c:283-312 | One pass of the write loop puts its bytes into its block and moves the position, or fails leaving the content or the full chunk |
| Ext2File.SetSizeSame | fs/ext2/util.c:1375-1412 | Extending the size at the end of a write, with the zeroed remainder below the buffer, changes no content |
| Ext2File.OpenFile.constructor | fs/ext2/util.c:1340-1353 | A fresh handle denotes what the disk holds |
| Ext2File.OpenFile.FlushBuffer | fs/ext2/util.c:1784-1824 | The in-place flush equals Flush |
| Ext2File.OpenFile.SyncPosition | fs/ext2/util.c:1826-1840 | The in-place repositioning equals Sync |
| Ext2File.OpenFile.LoadBuffer | fs/ext2/util.c:1842-1869 | The in-place load equals Load |
| Ext2File.OpenFile.WriteData | fs/ext2/inode.c:283-312 | The write loop equals WriteLoop |
| Ext2File.OpenFile.WriteFile | fs/ext2/inode.c:268-322 | The in-place write equals Write; on success size and every byte of the file are those of the flat write |
| Ext2File.OpenFile.SetSizeTo | fs/ext2/util.c:1375-1412 | The in-place size change equals SetSize |
| Ext2File.OpenFile.ZeroTail | fs/ext2/util.c:72-108 | The in-place zeroing equals ZeroRemainder |
| Ext2File.OpenFile.ReadFile | fs/ext2/inode.c:229-266 | The in-place read returns the slice of the file and changes no byte |
| Ext2File.SetSizeZeroes | fs/ext2/util.c:72-108 | Once the size is set, the bytes of its last block from the size on are zero on disk |
| Ext2Outcome.LoadSucceeds | fs/ext2/util.c:1842-1869 | Filling the buffer fails exactly for an uncached block number that is too big, with EFBIG; the filled buffer holds what the block holds, zeros for a hole, and nothing else changes |
| Ext2Outcome.FlushSucceeds | fs/ext2/util.c:1784-1824 | A flush succeeds exactly when there is nothing cached, or the cached block is mapped, or a block can be allocated for it |
| Ext2Outcome.SyncSucceeds | fs/ext2/util.c:1826-1840 | Moving the buffer succeeds exactly when it stays on its block or can be written back |
| Ext2Outcome.FetchSucceeds | fs/ext2/inode.c:229-266 | One pass of the read loop succeeds exactly when the buffer can be moved and the block number is not too big |
| Ext2Outcome.ChunkSucceeds | fs/ext2/inode.c:283-312 | One pass of the write loop succeeds exactly when the buffer can be moved, the block number is not too big, and the block is mapped or can be allocated |
| Ext2Outcome.WriteSucceeds | fs/ext2/inode.c:268-322 | A write over mapped blocks, or with room for every block it covers, succeeds exactly when its last block number is not too big |
| Ext2Outcome.ReadSucceeds | fs/ext2/inode.c:229-266 | A read over mapped blocks, or with room for every block it covers, succeeds exactly when its last block number is not too big |
| Ext2DirOps.RunHolds | fs/ext2/link.c:36-152 | Over every run of links and unlinks, with a block written back only when its pass reports a change, the records tile the block, no byte behind them changes, and lookup answers for every name what the abstract directory says |
| Ext2DirOps.ExecHolds | fs/ext2/link.c:36-152 | One link or unlink acts on the abstract directory as its verdict says: linked adds one pair, full means no record has room, removed and missing and not-empty are decided by the directory; the block written back is the block the pass made |
| Ext2DirOps.RunStores | fs/ext2/link.c:36-152 | The same for runs that also link names again: the block on disk holds exactly the bag of pairs that the links add and the unlinks take, and lookup finds a pair of every name that has one and none otherwise |
| Ext2DirOps.ExecStores | fs/ext2/link.c:36-152 | One link or unlink on a block that may hold a name several times: unlink is decided by, and takes, the pair that a lookup finds; the block written back is the block the pass made |
| Ext2Dir.LinkTiles | fs/ext2/link.c:36-98 | A link pass keeps the records tiling the block with legal lengths, adds exactly the new entry in place or reports full only when no record has room, and writes nothing outside the records |
| Ext2Dir.UnlinkTiles | fs/ext2/link.c:100-152 | An unlink pass keeps the tiling, removes exactly the first entry wanted, and leaves the block alone when there is none or the directory is in use |
| Ext2Dir.LinkChanged | fs/ext2/link.c:36-98 | A link pass that alters the block or links the name reports a change, so the block is written back |
| Ext2Dir.UnlinkChanged | fs/ext2/link.c:100-152 | An unlink pass reports a change exactly when it removed an entry, and alters the block in no other case |
| Ext2DirRoom.LinkFits | fs/ext2/link.c:36-98 | A link reports full exactly when no record of the walk, taken with the one free record right behind it, has room for the name; otherwise it links |
| Ext2DirRoom.UnlinkJoins | fs/ext2/link.c:145-151 | A removed record is joined with the one before it, whose length grows by its own; the first record of a block stays in place, free |
| Ext2DirRoom.UnlinkMakesRoom | fs/ext2/link.c:36-152 | Once a name is removed, any name that is not longer can be linked |
| Ext2Dir.LookupFinds | fs/ext2/util.c:590-715 | Lookup returns the first entry of that name, and absent only if there is none |
| Ext2Dir.AbsorbedTiles | fs/ext2/link.c:59-68 | Taking over a free record that follows keeps the entry, the tiling and the other names |
| Ext2Dir.SplitTiles | fs/ext2/link.c:70-87 | Cutting a record to the room its name needs leaves a free record behind it and keeps all names |
| Ext2Dir.ClaimMakes | fs/ext2/link.c:89-97 | Filling a free record makes exactly the requested entry and touches only that record |
| Ext2Dir.ClaimBytes | fs/ext2/link.c:89-97 | Byte for byte: inode number at 0, name length at 6, kind at 7 where the format has it, name from 8 on, all other bytes as before |
| Ext2Dir.NeedBounds | include/fs/ext2.h:1078-1086 | The room of a name is the least multiple of four that holds the eight header bytes and the name |
| Ext2Dir.DroppedAfter | fs/ext2/link.c:145-151 | Giving a record to its predecessor removes its entry and no other |
| Ext2Dir.LengthRoundTrip | fs/ext2/util.c:2376-2410 | A legal record length stored in 16 bits reads back the same, also in a 64 KiB block, where it is stored as 65535 |
| Ext2DirOps.NewDirBlockTiles | fs/ext2/util.c:1994-2055 | A new directory block is tiled: by one free record, or by "." and ".." with the given inodes, with the checksum tail in place |
| Ext2DirOps.NewDirBlockHolds | fs/ext2/util.c:1994-2055 | A new directory holds "." and ".." and nothing else |
| Ext2DirOps.LinkBlock | fs/ext2/util.c:590-701 | The in-place pass with the link callback equals LinkPass on block, verdict and changed flag |
| Ext2DirOps.ProcessLink | fs/ext2/link.c:36-98 | The in-place callback equals LinkStep |
| Ext2DirOps.UnlinkBlock | fs/ext2/util.c:590-701 | The in-place pass with the unlink callback equals UnlinkPass |
| Ext2DirOps.LookupBlock | fs/ext2/util.c:590-715 | The pass with the lookup callback equals LookupPass |
| Ext2DirOps.StoreLen | fs/ext2/util.c:2390-2410 | A record length is stored exactly when it is at most the block size and a multiple of four |
| Ext2DirOps.GetLen | fs/ext2/util.c:2376-2388 | The decoded record length |
| Qsort.Sort | libk/qsort.c:71-228 | For every length that fits in size_t and every total preorder: a sorted permutation of the input |
| Qsort.QuickPhase | libk/qsort.c:81-176 | The quicksort phase terminates, never overruns its fixed stack, permutes, and leaves elements more than a threshold apart in order |
| Qsort.Partition | libk/qsort.c:92-144 | Median of three and collapsing walls split the segment: all up to right may stand before all from left on |
| Qsort.Collapse | libk/qsort.c:119-144 | One pass of the inner loop keeps the walls, permutes only the segment and makes progress |
| Qsort.MedianOfThree | libk/qsort.c:101-110 | The middle element separates the ends and only the segment is permuted |
| Qsort.ScanUp | libk/qsort.c:121-122 | The left pointer stops at the wall |
| Qsort.ScanDown | libk/qsort.c:124-125 | The right pointer stops at the wall |
| Qsort.Next | libk/qsort.c:151-174 | Small parts are dropped, of two large ones the larger is pushed; the stack array holds the pending segments |
| Qsort.StateStep | libk/qsort.c:95-174 | A partition of the last pending segment keeps the order between blocks |
| Qsort.DepthBound | libk/qsort.c:64-69 | Pushing the larger side halves the rest: a segment of five elements cannot lie thirty pushes deep for a length below 2^32 |
| Qsort.Shallow | libk/qsort.c:64-69 | So no more than 30 segments are ever pending |
| Qsort.InsertPhase | libk/qsort.c:184-228 | The insertion pass turns nearly sorted into sorted |
| Qsort.SmallestOfAll | libk/qsort.c:190-199 | The smallest of the first MAX_THRESH + 1 elements is the smallest of all |
| Qsort.FindPlace | libk/qsort.c:206-210 | The unguarded scan stops above the base and finds the place |
| Qsort.Insert | libk/qsort.c:204-226 | One element moves to its place; the prefix grows sorted and the smallest stays first |
| Qsort.Rotate | libk/qsort.c:211-225 | Shifting the bytes rotates the elements |
| Heap.KernelHeap.constructor | kernel/heap.c:358-384 | heap_init makes a sound heap of one free block that covers the region |
| Heap.KernelHeap.Alloc | kernel/heap.c:33-142 | 0 exactly when no block can serve; otherwise the first block of the index, which is ordered by size, that can serve is cut into the pieces of PiecesTile: a live payload of at least size bytes at the address, page-aligned when asked, and free rests; all other blocks, all live memory and all memory outside the region are the same |
| Heap.KernelHeap.Free | kernel/heap.c:248-322 | For a pointer behind a header: a block of the index is given back, free ones included, and joined with its free neighbours, the left one only if its footer names its own header; every other block, all live memory and all memory outside the region are kept, and the heap stays sound; a header not in the index changes nothing |
| Heap.KernelHeap.Take | kernel/heap.c:100-139 | The block becomes exactly the pieces of PiecesTile: its front live and a free rest whenever that has room for tags and a payload, else all of it live; the rest enters the index at its place by size |
| Heap.KernelHeap.OpenPage | kernel/heap.c:46-98 | A free block becomes exactly a smaller free block and a page-aligned one at its back, which enters the index at its place by size |
| Heap.PiecesTile | kernel/heap.c:46-139 | The pieces an allocation leaves tile the block; exactly the one asked for is live, with the bytes asked for and at most a block's tags more |
| Heap.ServesWhere | kernel/heap.c:43-98 | A free block serves a plain request by its size, and a page-aligned one exactly if its first page boundary is the payload start or leaves room for a block before it, with the size asked for behind it |
| Heap.KernelHeap.UnifyLeft | kernel/heap.c:273-291 | The block joins its left neighbour exactly if that is free and its footer names its own header; no other block changes |
| Heap.KernelHeap.UnifyRight | kernel/heap.c:293-321 | The block joins its right neighbour exactly if that is free; no other block changes |
| Heap.UnifiedCovers | kernel/heap.c:273-321 | After the merges one free block reaches from the left neighbour, if free and found, to the end of the right one, if free |
| Heap.TakeFree | kernel/heap.c:100-322 | Freeing undoes taking: the block list is the one before, unless a free neighbour is joined that was not joined before |
| Heap.KernelHeap.Run | kernel/heap.c:33-322 | Over every run of allocations, frees and writes by owners the blocks tile the region and are indexed once each, no memory outside the region changes, and every pointer handed out and not given back owns a live payload, no two the same, that holds what its owner wrote last |
| Heap.PayloadsApart | kernel/heap.c:33-142 | Every byte of a payload lies inside the region and outside all other blocks, tags included |
| Heap.BytesConserved | kernel/heap.c:33-322 | Payload bytes and tags add up to the region, and the index holds as many headers as there are blocks |
| Heap.OwnersWrite | kernel/heap.c:33-322 | Owners may write their payloads as long as no write plants the magic number on a cleared header that a footer still names |
| Heap.PayloadWritten | kernel/heap.c:273-291 | A write inside a live payload keeps the heap sound exactly when it does not make a header of the leftover one that the block's footer names |
| Heap.KernelHeap.Store | kernel/heap.c:33-322 | Such a write changes the memory of its range only and the heap stays sound |
| HeapTags.FrontCut | kernel/heap.c:102-130 | Splitting writes two well-tagged blocks and nothing outside the old one |
| HeapTags.PageCut | kernel/heap.c:64-94 | The page-aligned split writes two well-tagged blocks and nothing outside the old one |
| HeapTags.LeftMerged | kernel/heap.c:281-289 | After a left merge the footer names its own header or a cleared header inside the block |
| HeapTags.RightMerged | kernel/heap.c:306-320 | After a right merge the joined block is well tagged |
| SortedArray.Index.Insert | libk/array.c:121-141 | The element goes after exactly the leading elements the order puts before it; the rest shifts by one |
| SortedArray.Index.Remove | libk/array.c:151-160 | The element leaves, the rest shifts down |
| Sha256.HashPieces | libk/sha256.c:109-182 | However a message below 2^32 bytes is split into writes, the digest is that of section 6.2 of FIPS 180-4 on the padding of section 5.1.1 |
| Sha256.NextWord | libk/sha256.c:60-67 | The 16-word rolling update computes the next of the 64 schedule words of section 6.2.2 of FIPS 180-4 |
| Sha256.ConsumeChunk | libk/sha256.c:35-89 | One chunk: the state becomes its compression |
| Sha256.Row | libk/sha256.c:47-84 | Sixteen rounds advance schedule and working variables together |
| Sha256.Context.Write | libk/sha256.c:109-139 | The context holds the message extended by the data |
| Sha256.Context.Close | libk/sha256.c:141-182 | The digest of the message taken in |
| Sha256.Context.Finish | libk/sha256.c:144-172 | One or two padding blocks complete the hash of the padded message |
| Sha256.Context.constructor | libk/sha256.c:91-107 | A fresh context holds the empty message |
| Sha256.PadFirst | libk/sha256.c:150-159 | The padding block without room for the length is the next block of the padded message |
| Sha256.PadLast | libk/sha256.c:160-172 | The block with the length is the last block of the padded message |
| Sha256.HashPrefix | libk/sha256.c:109-139 | The hash of the first n blocks depends on these blocks only |
| Sha256Roots.ConstantsAreRoots | libk/sha256.c:21-33 | Each of the 64 constants is the first 32 bits of the fraction of the cube root of its prime, as section 4.2.2 of FIPS 180-4 defines it |
| Sha256Roots.InitialIsRoots | libk/sha256.c:99-106 | Each word of the initial state is the first 32 bits of the fraction of the square root of its prime, as section 5.3.3 of FIPS 180-4 defines it |
| Sha256Roots.MixedBits | libk/sha256.c:62-72 | Where single bits go under the four mixing functions of section 4.1.2 of FIPS 180-4 |
| Sha256Example.Example | libk/sha256.c:35-182 | The digest of "abc" is the one that the example of the standard gives |
| AtaBio.Drive.Read | drivers/ata-bio.c:64-133 | A range on the drive is read, any other refused when its sector count fits; every moved byte is the byte of the disk at its place and no other byte of the buffer changes |
| AtaBio.Drive.Write | drivers/ata-bio.c:135-214 | The moved bytes of the range take the bytes of the buffer; no other byte of the disk changes, whether or not the write succeeds |
| AtaBio.ReadsSlice | drivers/ata-bio.c:64-133 | With at most 255 whole sectors a read returns exactly the slice |
| AtaBio.WritesSlice | drivers/ata-bio.c:135-214 | With at most 255 whole sectors a write changes exactly the slice |
| AtaBio.ReachedAll | drivers/ata-bio.c:104-110 | The whole range is moved exactly when it needs fewer than 256 whole sectors: the count is passed as an unsigned char |
| AtaBio.Assembled | drivers/ata-bio.c:104-131 | Head, middle and tail make up the range that is read |
| AtaBio.AllWritten | drivers/ata-bio.c:177-212 | Head, middle and tail make up the range that is written |
| AtaBio.Rewritten | drivers/ata-bio.c:186-197 | Reading a sector, changing some bytes and writing it back is writing these bytes |
| FdTable.FileTable.AllocFd | kernel/process.c:599-624 | ENFILE exactly when every slot of the file table is in use; otherwise EMFILE or the least free descriptor, naming a slot no descriptor of any process named |
| FdTable.FileTable.FreeFd | kernel/process.c:626-645 | EBADF for a closed descriptor; otherwise one reference less, and the slot is cleared with the last one |
| FdTable.FileTable.DupFd | kernel/fcntl.c:23-42 | The exact error cases, and otherwise the least free descriptor from arg on names the same file with one more reference |
| FdTable.FileTable.Fork | arch/i386/task.c:320-326 | The child names what its parent names; each count grows by the parent's descriptors for the file; the counts stay exact if and only if the child named nothing before |
| FdTable.FileTable.Exit | kernel/process.c:440-442 | The process names nothing any more, other processes are untouched, and files still named keep their contents |
| FdTable.FileTable.Run | kernel/process.c:599-645 | Over every run of open, close, dup, fork and exit each count equals the number of descriptors naming the file and no slot below the search hint is free |
| FdTable.RefsSet | kernel/process.c:599-645 | Changing one descriptor moves one reference |
| FdTable.RefsNone | kernel/process.c:599-645 | A count of 0 means that no descriptor names the file |
| FdTable.NamedOnce | kernel/fcntl.c:38-40 | One more descriptor and one more reference keep all counts and the hint exact |
| FdTable.UnnamedOnce | kernel/process.c:632-643 | One descriptor less, the lowered count and the moved hint keep all counts and the hint exact |
| Tasks.Scheduler.Fork | arch/i386/task.c:226-366 | The lowest free number is taken, the new task joins the end of the queue, every ancestor's counter grows by one; without a free number nothing changes |
| Tasks.Scheduler.Free | kernel/process.c:412-430 | The task leaves the queue, the others keep their order, every ancestor's counter drops by one; the tables stay sound if and only if the process has no live descendants; an unused number is ignored |
| Tasks.Scheduler.constructor | arch/i386/task.c:37-56 | Process 0 alone, its back link at itself |
| Tasks.Scheduler.Adjust | arch/i386/task.c:328-335 | The walk over the ancestors terminates at process 0 and changes each counter on it once |
| Tasks.Scheduler.Append | arch/i386/task.c:360-364 | The new task is linked behind the tail and the head points back to it |
| Tasks.Scheduler.Unlink | arch/i386/task.c:134-143 | Unlinking a task keeps the list linked both ways with the head pointing back to the tail |
| Tasks.Scheduler.Run | arch/i386/task.c:134-366 | Over every run of forks and frees the queue holds exactly the live tasks in fork order with exact links, and every counter equals the number of live descendants |
| Tasks.Born | arch/i386/task.c:328-335 | A new process joins the descendants of exactly its ancestors |
| Tasks.Gone | kernel/process.c:423-430 | A process without descendants leaves the descendants of exactly its ancestors and disturbs no other |
| Tasks.AncestorsOlder | arch/i386/task.c:330-334 | Every ancestor is alive and older, so the walk cannot cycle |
| Tasks.ChainEnds | arch/i386/task.c:330-335 | Every walk over the ancestors reaches process 0 |
| Paging.Directory.Map | arch/i386/paging.c:135-154 | Exactly the page of the address changes, also when its table is new; the directory entry of a new table names its frame and allows writing and user access, all other directory entries stay; hardware entry and software pointer of each present slot name the same table |
| Paging.Directory.Unmap | arch/i386/paging.c:156-166 | Exactly the page of the address loses its entry |
| Paging.Directory.GetPaddr | arch/i386/paging.c:123-133 | Frame of the page plus offset, or 0 where there is no table |
| Paging.Directory.ProcessorView | arch/i386/paging.c:135-154 | The processor, which follows the frames of the directory and its tables, finds the entry that the kernel finds by following the software pointers |
| Paging.Directory.EntryDecides | arch/i386/paging.c:135-154 | Directory entries are present, writable and open to users, so the processor allows exactly what the page entry allows |
| Paging.Directory.Exec | arch/i386/paging.c:135-166 | One map or unmap takes the entry of every page to its next value and uses no frame but its own |
| Paging.Directory.Run | arch/i386/paging.c:135-166 | Over every run of maps and unmaps, with a new frame for each table, the directory is the flat map the same calls make, and the processor finds the same entries |
| Paging.SlotsOf | arch/i386/paging.c:126-127 | The two table indices identify the page |
| Vt100.Console.Run | drivers/vt100.c:304-313 | For every stream of characters to any terminals and every switch in between, each terminal (screen, cursor, attributes, parser) is the fold of its events, and the hardware equals the active terminal's screen |
| Vt100.Console.WriteChar | drivers/vt100.c:304-313 | One character takes screen, cursor, attributes, keypad mode and parser to their next values and nothing else, with all terminals valid and the hardware mirroring the active one |
| Vt100.SequenceActs | drivers/vt100.c:234-261 | A whole control sequence with one to eight decimal numbers, sent to an idle terminal: the final character acts on the numbers modulo 256, and the terminal is idle again |
| Vt100.NinthNumber | drivers/vt100.c:253-256 | A separator after the eighth number ends the sequence without effect |
| Vt100.CursorMoves | drivers/vt100.c:130-145 | "ESC [ r ; c H" puts the cursor at row r and column c, counted from 1 and brought onto the screen, and changes no cell |
| Vt100.DisplayErased | drivers/vt100.c:147-182 | "ESC [ n J" blanks exactly the cells from the cursor on for 0, before it for 1, all for 2, none otherwise, and leaves the cursor |
| Vt100.LineErasedAt | drivers/vt100.c:184-205 | "ESC [ n K" does the same within the line of the cursor |
| Vt100.LookSet | drivers/vt100.c:62-128 | "ESC [ n m": reset, reverse, one of eight foregrounds or backgrounds, or nothing |
| Vt100.LooksSet | drivers/vt100.c:62-128 | Several numbers before "m" act one after the other |
| Vt100.Ignored | drivers/vt100.c:207-302 | Character sets and private sequences with "?" are read to their end and leave the terminal as it was |
| Vt100.KeypadSet | drivers/vt100.c:214-302 | "ESC =" and "ESC >" switch the keypad mode; any other character after ESC but a bracket does nothing |
| Vt100.Unknown | drivers/vt100.c:234-261 | Every other final character of a control sequence leaves the terminal as it was |
| Vt100.Plain | drivers/vt100.c:304-313 | Outside sequences ESC begins one, white space and graphic characters are typed in the current colours, swapped under reverse, and others are ignored |
| Vt100.Printing | drivers/vga.c:97-156 | A printed character fills its cell and moves the cursor right, at the edge to the start of the next line |
| Vt100.Tabbing | drivers/vga.c:127-136 | A tab goes to the next multiple of eight, from the last stop to the start of the next line |
| Vt100.Breaking | drivers/vga.c:107-126 | New line, carriage return, vertical tab and form feed under the input flags |
| Vt100.Downward | drivers/vga.c:134-151 | One line down; at the bottom every line takes what was on the one below it and the last is blank |
| Vt100.OwnStream | drivers/vt100.c:304-313 | With equal input flags each terminal sees its own stream only, whatever is interleaved or active |
| Vt100.DigitsRead | drivers/tty-line.c:324-329 | Decimal digits are read as their value modulo 256 |
| Vt100.Console.HandleEscaped | drivers/vt100.c:214-302 | Inside an escape sequence one character takes screen, cursor, attributes, keypad mode and parser to their next values |
| Vt100.Console.HandleCsi | drivers/vt100.c:234-261 | Inside a control sequence cursor, erasing, attributes, digits, separators and every other character do what the transition says and nothing else |
| Vt100.Console.PutChar | drivers/vga.c:97-156 | Newline, carriage return, tab and printing with wrap and scroll, under the active terminal's input flags |
| Vt100.Console.Wrap | drivers/vga.c:134-151 | The cursor goes down a line, or the screen scrolls by one line |
| Vt100.Console.PutEntry | drivers/vga.c:42-51 | One cell of the terminal, and of the hardware exactly if it is active |
| Vt100.Console.ClearScreen | drivers/vt100.c:147-182 | Exactly the cells from the cursor on, before the cursor, or all |
| Vt100.Console.ClearLine | drivers/vt100.c:184-205 | Exactly the cells of the line from the cursor on, before it, or all of the line |
| Vt100.Console.SetCursor | drivers/vt100.c:130-145 | The 1-based position brought onto the screen |
| Vt100.Tty.SetAttributes | drivers/vt100.c:62-128 | The loop is the fold of the attribute numbers in order |
| Vt100.Tty.AddDigit | drivers/tty-line.c:324-329 | The current number grows by a digit, modulo 256 |
| Vt100.Tty.Reset | drivers/tty-line.c:316-322 | The parser is idle and clear |
| Vt100.Console.SetActive | drivers/tty-line.c:341-347 | The hardware shows the newly active terminal |
| Vt100.Console.EraseChar | drivers/vga.c:59-68 | The cell left of the cursor is blanked, never across the line start |
| Vt100.Console.EraseLine | drivers/vga.c:70-79 | Exactly the given number of cells left of the cursor, at most to the line start |
| Vt100.Console.Clear | drivers/vga.c:158-170 | All cells blank in the terminal's colour |
| Vt100.Typed | drivers/vga.c:97-156 | A typed character leaves the cursor on the screen, tab stops included |
| PathResolve.Resolve | fs/path.c:135-220 | The scanning loop computes the fold of the path's components over a stack |
| PathResolve.FoldIsFold | fs/path.c:180-214 | Scanning from slash to slash is folding the list of components |
| PathResolve.ResolvedNormal | fs/path.c:135-220 | For every input the result is absolute, has no empty, "." or ".." component, and no trailing slash except at the root |
| PathResolve.ResolvedTwice | fs/path.c:135-220 | Resolving twice is resolving once |
| PathResolve.PeakLength | fs/path.c:144-178 | The working string is at most one character longer than the joined input, and that long if and only if the input is a normal path other than the root |
| PathResolve.NormalFixed | fs/path.c:135-220 | A normal path resolves to itself |
| PathResolve.PeakAtName | fs/path.c:144-178 | A concrete input: for "/a" the working string has three characters, so with its terminator it needs four bytes where the copy of the input has three |
| PathResolve.PopLast | fs/path.c:187-201 | ".." removes exactly the last component and stays at the root |
| PathResolve.NameExtends | fs/path.c:202-208 | Resolving a path followed by a proper name is the resolved path followed by that name |
| PathResolve.DotStays | fs/path.c:185-186 | An empty component and "." change nothing |
| PathResolve.UpUndoes | fs/path.c:187-201 | ".." takes the last name back |
| PathResolve.UpAtRoot | fs/path.c:187-201 | ".." at the root stays there |

## Left out

- ext2: extents, inline data, BMAP_ZERO, the huge-file feature, clusters, uninitialised groups, 64-bit bitmaps and writing the inode back; they would add easy members or are stubs in the code.
- ext2: hole punching that does not reach the end of the file, and truncation while a buffer is cached.
- ext2 directories: iteration over several blocks and growing a directory; a run is over one block.
- ext2 directories: the emptiness check and the link count of the inode; `busy` stands for the answer of the check at that time.
- ext2 directories: hashed indices, deleted-record scanning and computing checksums; the checksum tail is only kept.
- Ext2Dir.LinkTiles: names of at most 255 bytes and inode numbers other than 0, as a record can hold.
- Ext2DirOps.RunHolds: links only names the directory does not hold, as a map has one inode for each name; RunStores has no such condition.
- Ext2DirOps.ExecHolds: the same condition; ExecStores has none.
- Ext2DirOps.StoreLen: blocks of at most 64 KiB, as `fs/ext2/super.c:105-107` accepts.
- Ext2File.WriteBytes: the goal of an allocation is a parameter, because `ext2_find_inode_goal` only chooses where to look.
- Ext2Outcome.WriteSucceeds: where some blocks are holes and space is short, success is decided pass by pass, by ChunkSucceeds; the same holds for ReadSucceeds with FetchSucceeds.
- Ext2Outcome.ReadSucceeds: see WriteSucceeds.
- Ext2Inode.DeallocIndirect: the range must reach the end of the file; other ranges stop early in the code and are not claimed.
- Ext2Bmap.BmapCounts: assumes blocks of at least 512 bytes, the smallest unit of the count.
- Qsort.Sort: at element level, with an abstract total preorder; the byte loop of a swap is one assignment.
- Heap: `heap_realloc`, best fit and full coalescing are not claimed.
- Heap.KernelHeap.Alloc: needs a spare index slot for each block it may open and a size that does not wrap, as the code does.
- Heap.KernelHeap.Free: the pointer is 0 or stands behind a magic number, as the code asserts, and the index has a spare slot, because the code reads one slot past the end.
- Heap.KernelHeap.Run: a write that plants a header where a footer points is left out; PayloadWritten says that it would spoil the heap.
- AtaBio: drive selection, ATAPI and device errors; a sector number fits in 32 bits.
- FdTable: paths, modes and the close-on-exec flag of a descriptor.
- Tasks: scheduling itself, signals, timers and memory of the tasks.
- Paging: cloning directories, invalidating pages and a failing allocation of a table (a panic in the code).
- Paging.Directory.Map: the last slot is excluded, because it holds the software table; a new table comes in a frame that no table has, as the allocator gives.
- Vt100: character sets, keypad input, the cursor of the hardware and the bell.
- PathResolve: running out of memory; the buffers are strings, and the bytes they need are PeakLength.
- PathResolve.PeakLength: the joined input begins with a slash, as the working directory does.
- Concurrency: task switching is off or harmless in the modelled sections; device reads and writes succeed.
- Drivers, ACPI, PCI, interrupts, ELF loading, system-call wrappers, pipes, `printk`, RTC and `crc32`.
