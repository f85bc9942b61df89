# WengShiOS: a verified model of its stateful core

WengShiOS is an x86_64 kernel in C++. This project models the parts of it that live by invariants over mutable
state, and proves those invariants and what they are for. All theorems range over every input, every reachable
state or every run.

- **ext2 driver** (`Ext2*.dfy`, with `Bytes`, `Bits`, `Arithmetic`). The disk is a sequence of blocks of bytes. The
  driver's bitmaps, counters, inode table, block maps and directory records are modelled on those bytes, as a class
  whose fields the operations update. `Ext2Volume.Meaning` reads a disk as a set of used blocks, a set of used inodes,
  an array of inodes and the data blocks. `Ext2Fs.Inv` adds that every block of a live inode is owned by one slot, that
  every directory is tiled by its records, and that the directories form one tree that the root reaches. Path resolution,
  create, unlink, rmdir, open, close, read and write are proved against it, `Ext2Run.Run` covers any sequence of them,
  `Ext2Contents.WrittenIsRead` says that over any such sequence what is written is what is read,
  `Ext2Contents.CreatedIsReadTo` how much of it, and `Ext2Format.Format` builds a disk to start from.
- **Page tables over the frame allocator** (`Pmm`, `Paging`, `AddressSpaces`, `Vmm`, `VmmRun`). Physical memory is a map
  of words and the processor's walk is written out. The manager reads and writes tables only through virtual addresses
  in slot 510, each resolved by that walk. The invariant gives every table frame one identity (a path below a kernel
  slot, or a space and a path); the page directory that boot hangs under two paths has one identity for both.
- **Kernel heap** (`HeapBlocks`, `Heap`, `HeapRun`). Block headers are a map from addresses to linked headers; a ghost
  sequence of blocks says what the links mean.
- **Scheduler** (`Tasks`, `Scheduler`, `SchedulerRun`, `SchedulerStacks`, `SchedulerContexts`). Tasks are numbered in the
  order of creation, and `next`, `tail` and `current` are such numbers. Each method computes a step function, and runs are
  sequences of steps.
- **Paths, mounts and program arguments** (`PathNames`, `Vfs`, `Mounts`, `Elf`).

## What the code does that one might not expect

Each of these is stated by a lemma or contract below, with the exact condition under which the expected property holds.

- `create` of a path whose last name is longer than 63 bytes stores an entry that the path does not resolve to.
- `rmdir` of `.` (or of `..` in the root) frees the directory and leaves its entry in the parent.
- A `create` that fails after it has allocated an inode never gives it back, nor up to two blocks; no path changes.
- A read into a hole allocates, if the volume is not full, and returns what the block held when it was free. Behind an
  indirect block that is already there the pointer is on disk at once, while the sector count grows in the handle's private
  inode only: closing the handle leaves the block mapped and the count behind. Anywhere else the pointer too is private,
  and closing the handle loses the block.
- `freeBlock` and `freeInode` do not look at the bit they clear: giving back something that is free makes the
  counters wrong, and giving back a metadata block puts it on offer.
- `write` takes block numbers modulo 2^32, and cuts the new size to 32 bits: a write at offset 2^32 stores nothing and
  sets the size to 0.
- `markRegionFree` also frees the frame that a region begins in the middle of.
- `unmapPage` of an address inside a 2 MB page stores a zero into that page. The mapping stays, unless the page begins
  with a table on the address's own walk and the zero hits its entry there; then the whole 2 MB go with it.
- `kmalloc` sizes near 2^64, and requests that carry the end of the heap past 2^64, defeat the rounding and the limit
  test; the heap, which lies in the last gigabyte of the address space, then grows past its limit.
- A tick that finds nothing ready makes the current task run, even one that has just begun to wait, or a terminated one
  whose stack it has just freed.
- A second task that waits for a target takes the place of the first, which the kill of the target then leaves blocked.
- A task killed while the cleanup queue holds eight entries of others is not queued, and the next tick does not free its
  stack.
- `normalizePath` writes separators without looking at the end of its output buffer: with the 128 characters that the
  shell passes, 130 characters of input suffice to write past it.
- From a relative working directory a joined path of 255 characters can normalise to 256, which the next call would cut.
- A mount at `/` serves the path `/` only.
- A mount point of 64 characters or more can be mounted twice.

## Model

| member | source | states |
|---|---|---|
| `Ext2Layout.InodeRoundTrip` | src/fs/ext2/ext2.cpp:135-187 | decoding an encoded inode record gives the inode back, for every inode whose fields fit their widths |
| `Ext2Layout.Geometry.BlockPlace` | src/fs/ext2/ext2.cpp:863-892 | group and index of a block, found by division, name that block and lie inside the group's bitmap |
| `Ext2Layout.Geometry.InodePlace` | src/fs/ext2/ext2.cpp:189-217 | group and index of an inode name that inode and lie inside the group's bitmap |
| `Ext2Layout.Geometry.InodeInTable` | src/fs/ext2/ext2.cpp:135-160 | an inode's record lies wholly inside one block of its own group's inode table |
| `Ext2Layout.Geometry.InodesApart` | src/fs/ext2/ext2.cpp:135-187 | the records of two different inodes share no byte, across groups and blocks |
| `Bits.CountOneMore` | src/fs/ext2/ext2.cpp:648-694 | changing one bit of a bitmap changes the count of clear bits by exactly one |
| `Ext2Volume.WriteInodeBlock` | src/fs/ext2/ext2.cpp:162-187 | storing a record changes the inode array at n only; data, bitmaps and counters keep their meaning |
| `Ext2Volume.WriteDataBlock` | src/fs/ext2/ext2.cpp:757-761 | writing a data block changes that block's contents only, on the level of the volume's meaning |
| `Ext2Volume.MarkBlockMeaning` | src/fs/ext2/ext2.cpp:648-694 | setting a block's bit with its two counters adds exactly that block to the used set and keeps every count exact |
| `Ext2Volume.UnmarkBlockMeaning` | src/fs/ext2/ext2.cpp:863-892 | clearing a block's bit with its two counters removes exactly that block from the used set and keeps every count exact |
| `Ext2Volume.MarkInodeMeaning` | src/fs/ext2/ext2.cpp:705-746 | the same for taking an inode |
| `Ext2Volume.UnmarkInodeMeaning` | src/fs/ext2/ext2.cpp:189-217 | the same for releasing an inode |
| `Ext2Volume.FreeBlockExact` | src/fs/ext2/ext2.cpp:863-892 | clearing the bit freeBlock computes keeps the image sound if and only if the block is a used data block; an already free block, a metadata block and a number behind a short last group all break it |
| `Ext2Volume.FreeInodeExact` | src/fs/ext2/ext2.cpp:189-217 | clearing an inode's bit keeps the counters exact if and only if the inode was in use |
| `Ext2Store.FsInstance.constructor` | src/fs/ext2/ext2.cpp:289-352 | a mounted volume whose image is sound: bitmaps, counters, tables |
| `Ext2Store.FindClear` | src/fs/ext2/ext2.cpp:665-674 | the first clear bit of a bitmap, or the limit when there is none |
| `Ext2Store.AllocBlockInGroup` | src/fs/ext2/ext2.cpp:648-694 | takes the first unused block of the group and changes nothing else; fails only on a full group |
| `Ext2Store.AllocBlock` | src/fs/ext2/ext2.cpp:696-703 | fails if and only if no block is free; otherwise the used set grows by the lowest-numbered unused block, which is a data block |
| `Ext2Store.AllocInodeInGroup` | src/fs/ext2/ext2.cpp:705-746 | takes the first unused inode of the group; fails only when the group has none |
| `Ext2Store.AllocInode` | src/fs/ext2/ext2.cpp:748-755 | fails if and only if no inode is free; otherwise the used inodes grow by the lowest-numbered unused one |
| `Ext2Store.FreeBlock` | src/fs/ext2/ext2.cpp:863-892 | for any block number: refused if and only if it is 0 or lies in no group; otherwise the bit is cleared unseen, and the counters stay exact and the metadata protected if and only if it was a used data block, which then is the only block to leave the used set |
| `Ext2Store.FreeInode` | src/fs/ext2/ext2.cpp:189-217 | for any number: refused outside the table; otherwise the counters stay exact if and only if the inode was in use, and then it alone leaves the used inodes |
| `Ext2Store.ReadInode` | src/fs/ext2/ext2.cpp:135-160 | returns element n of the inode array, or fails outside it |
| `Ext2Store.WriteInode` | src/fs/ext2/ext2.cpp:162-187 | updates element n of the inode array and nothing else: the inode table is a faithful array |
| `Ext2Store.WriteBlock` | src/fs/ext2/ext2.cpp:757-761 | updates the contents of one data block and nothing else |
| `Ext2BlockMap.NoSharing` | src/fs/ext2/ext2.cpp:789-861 | two slots of any two inodes that hold the same block are the same slot |
| `Ext2BlockMap.InodeBlockAt` | src/fs/ext2/ext2.cpp:844-861 | the block of a logical index through direct slots or the indirect block, 0 for holes and beyond the map |
| `Ext2BlockMap.EnsureIndirect` | src/fs/ext2/ext2.cpp:806-818 | a zeroed indirect block is hung in slot 12 when there is none; no logical index changes |
| `Ext2BlockMap.InodeBlockAtOrAlloc` | src/fs/ext2/ext2.cpp:789-842 | the result is what a lookup then finds; a new block was free and keeps its contents; every other index of every inode keeps block and contents; the blocks in use grow by exactly those in the inode's slots; sector counts stay exact; nothing changes if the index is mapped or beyond the map or the volume is full, and 0 is the answer only beyond the map or on a full volume |
| `Ext2BlockMap.FillKeepsMaps` | src/fs/ext2/ext2.cpp:789-842 | filling an empty slot with an unowned block keeps the map from slots to blocks injective and the sector counts exact |
| `Ext2BlockMap.WriteOwned` | src/fs/ext2/ext2.cpp:464-481 | writing into an owned block changes that logical block of that inode and no block of any other inode |
| `Ext2BlockMap.FreeAllInodeBlocks` | src/fs/ext2/ext2.cpp:894-919 | the used set loses exactly the blocks that are in a slot of the inode, the indirect block included, and nothing else changes on the disk; all slots of the result are empty |
| `Ext2BlockMap.SlotSetIs` | src/fs/ext2/ext2.cpp:894-919 | the set of blocks freed holds a block if and only if some slot of the inode points to it |
| `Ext2DirBlock.LookupInBlock` | src/fs/ext2/ext2.cpp:235-251 | finds in a tiled block the inode of the first record with that name, 0 if and only if there is none |
| `Ext2DirBlock.InsertInBlock` | src/fs/ext2/ext2.cpp:532-568 | keeps the exact tiling and inserts one entry; succeeds if and only if some record has room |
| `Ext2DirBlock.RemoveInBlock` | src/fs/ext2/ext2.cpp:934-961 | keeps the exact tiling and removes the first entry of that name, merging it into its predecessor or clearing it; succeeds if and only if the name is there |
| `Ext2DirBlock.SplitRecord` | src/fs/ext2/ext2.cpp:549-559 | splitting a record keeps the tiling and puts the new entry right behind the old one |
| `Ext2DirBlock.MergeRecord` | src/fs/ext2/ext2.cpp:945-950 | growing a record over its successor keeps the tiling and drops exactly the successor's entry |
| `Ext2DirBlock.DotBlockEntries` | src/fs/ext2/ext2.cpp:1138-1155 | the first block of a new directory is tiled and lists exactly the two dot entries |
| `Ext2Dir.LookupInDir` | src/fs/ext2/ext2.cpp:219-254 | the inode that the directory's listing gives for a name, 0 if and only if the name is absent or the inode is no directory |
| `Ext2Dir.InsertDirEntry` | src/fs/ext2/ext2.cpp:517-593 | on success one entry is inserted into the listing and all blocks stay tiled, by reuse, splitting or a new block; no other inode's blocks change |
| `Ext2Dir.RemoveDirEntry` | src/fs/ext2/ext2.cpp:921-966 | succeeds if and only if the name is listed, and then removes its first entry and nothing else |
| `Ext2Tree.InsertIsPut` | src/fs/ext2/ext2.cpp:517-593 | insertion of an absent name is put on the finite map that lookups read |
| `Ext2Tree.RemoveIsDelete` | src/fs/ext2/ext2.cpp:921-966 | with distinct names removal is delete on the finite map that lookups read |
| `Ext2Tree.InsertThenRemove` | src/fs/ext2/ext2.cpp:517-593 | removing a name just inserted gives the former listing back |
| `Ext2Tree.SplitPath` | src/fs/ext2/ext2.cpp:1089-1112 | splits at the last slash and refuses a parent of 128 bytes or more |
| `Ext2Tree.SplitComponents` | src/fs/ext2/ext2.cpp:256-287 | the components of a path are those of its parent and the last name cut to 63 bytes |
| `Ext2Tree.WalkConcat` | src/fs/ext2/ext2.cpp:256-287 | walking a joined path is walking its parts one after the other |
| `Ext2Tree.PrunedWalk` | src/fs/ext2/ext2.cpp:968-1087 | after an inode is taken out, every walk that met it fails and every other walk ends where it did |
| `Ext2Tree.GraftKeepsTree` | src/fs/ext2/ext2.cpp:1089-1174 | hanging a new inode keeps the directories one tree: consistent dot entries, and a depth that falls along the parents to the root |
| `Ext2Tree.PruneKeepsTree` | src/fs/ext2/ext2.cpp:968-1087 | taking out a childless inode keeps the directories one tree in the same sense |
| `Ext2Tree.EveryInodeReached` | src/fs/ext2/ext2.cpp:256-287 | in such a tree the walk along an inode's own path, from the root, ends at it: no inode of the tree is detached |
| `Ext2Fs.ResolvePathToInode` | src/fs/ext2/ext2.cpp:256-287 | the byte loop over the path computes the walk over its components |
| `Ext2Fs.Unseen` | src/fs/ext2/ext2.cpp:1124-1139 | allocations that no inode of the tree can see keep the invariant and every directory |
| `Ext2Create.MakeInode` | src/fs/ext2/ext2.cpp:1127-1168 | a new record of the right kind, field by field, with its first block, written where nothing of the tree is |
| `Ext2Create.CreateIn` | src/fs/ext2/ext2.cpp:1124-1174 | the new entry is grafted into the directory, or no directory changes and a reason is given |
| `Ext2Create.NewUnowned` | src/fs/ext2/ext2.cpp:1124-1139 | blocks that a failed create leaves marked are in no slot of any inode of the tree |
| `Ext2Create.NameInode` | src/fs/ext2/ext2.cpp:1165-1174 | the entry and the parent's record are written and the invariant holds, or the parent has no room and what was taken is lost |
| `Ext2Create.CreateKeepsInv` | src/fs/ext2/ext2.cpp:1089-1174 | the state after a successful create satisfies the whole invariant |
| `Ext2Create.OldPathsStay` | src/fs/ext2/ext2.cpp:256-287 | a path that resolved before a create resolves to the same inode after it |
| `Ext2Create.NewPathResolves` | src/fs/ext2/ext2.cpp:256-287 | the created path resolves to the new inode if and only if its last name has at most 63 bytes |
| `Ext2Create.Create` | src/fs/ext2/ext2.cpp:1089-1174 | success gives a previously free inode at the path (if and only if the last name fits the walk's 63 bytes): a file of mode 0100644 with one link and no byte, block or pointer, or a directory of mode 040755 with two links, one block and the two dot entries; the parent lists it besides what it listed, with its type, and has one link more for a directory and none for a file; no other path, listing, record or file changes, and exactly the blocks of the new inode and of the parent are taken; failure changes no path, has one of four causes, and leaves the volume as it was if and only if it was refused or no inode was free; otherwise exactly one inode and at most two blocks are lost |
| `Ext2Remove.HasChildren` | src/fs/ext2/ext2.cpp:1046-1076 | true if and only if the directory lists anything besides the dot entries |
| `Ext2Remove.RemoveKeepsInv` | src/fs/ext2/ext2.cpp:968-1087 | the state after a removal satisfies the whole invariant |
| `Ext2Remove.UnlinkFile` | src/fs/ext2/ext2.cpp:968-1011 | succeeds if and only if the path names an existing non-directory; then its inode and exactly the blocks in its slots are free, its record has no links, bytes, sectors or pointers, its entry is gone and its path no longer resolves, the parent's record is unchanged, and so are paths that avoid it and every other listing, file and record; failure changes nothing |
| `Ext2Remove.RmdirPath` | src/fs/ext2/ext2.cpp:1013-1087 | succeeds if and only if the path names an empty directory; its inode and exactly the blocks in its slots are then free and its record emptied, dot names included, the parent has one link less, and every other file and record is unchanged; the result satisfies the invariant and the path properties if the last name is not a dot name, and otherwise leaves a dangling entry |
| `Ext2Remove.DanglingIsBroken` | src/fs/ext2/ext2.cpp:1013-1087 | after rmdir of a dot name no tree over the volume that still holds the parent, and none at all for the root, satisfies the invariant: the condition of the previous row is exact |
| `Ext2File.Write` | src/fs/ext2/ext2.cpp:448-495 | for every offset: the file holds buf[..k] at the offset with its block number taken modulo 2^32, hence at the offset itself if and only if k is 0 or the block number is below 2^32; its other mapped bytes and all other files and directories are unchanged, the size is the one the source computes, the inode table agrees with the handle, and a short count means a full volume or the end of the map |
| `Ext2Read.Read` | src/fs/ext2/ext2.cpp:403-447 | returns as many bytes as the size allows: the mapped ones exact, the others what the file shows afterwards, so the old contents of the free block put there, or 0 beyond the map and on a full volume; no mapped byte changes; blocks are taken if and only if the range has a hole below the end of the map and the volume is not full, only for the range, and each is in a slot of the file; otherwise nothing changes at all |
| `Ext2Read.WriteThenRead` | src/fs/ext2/ext2.cpp:403-495 | reading back a range just written returns exactly those bytes if the block number of the offset is below 2^32, and nothing otherwise |
| `Ext2File.StoredAtOffset` | src/fs/ext2/ext2.cpp:448-495 | bytes stored at the wrapped offset are stored at the offset asked for if and only if there are none or the block number is below 2^32 |
| `Ext2Read.WriteAtFourGigabytes` | src/fs/ext2/ext2.cpp:483-492 | a write at offset 2^32 stores nothing and sets the size to 0, after which nothing can be read |
| `Ext2Handles.Open` | src/fs/ext2/ext2.cpp:360-394 | opens exactly the inode the path resolves to, with a private copy of it |
| `Ext2Handles.Close` | src/fs/ext2/ext2.cpp:396-401 | for every open handle: directories, block ownership and contents stay sound; the record left behind counts its sectors exactly if and only if it has no indirect block or the copy counts beyond it only the blocks of direct pointers that it lacks; the blocks that were in a slot and now are in none, though in use, are exactly those of the copy that the record lacks, and there are none if and only if both have the same pointers |
| `Ext2Handles.CloseExact` | src/fs/ext2/ext2.cpp:396-401 | the record of a handle that is closed counts its sectors exactly if and only if record and copy agree in that sense |
| `Ext2Handles.HoleBehindIndirect` | src/fs/ext2/ext2.cpp:831-838 | record and copy do not agree after a read into a hole behind an existing indirect block: the record maps the new block, the count is in the copy only |
| `Ext2Handles.HoleNotOnDisk` | src/fs/ext2/ext2.cpp:789-842 | after a read into any other hole they agree, the record does not map the block, and what the read took is what a close loses |
| `Ext2Handles.ReadHoleThenClose` | src/fs/ext2/ext2.cpp:396-447 | both as calls: reading a byte of a hole and closing leaves the record as it was; behind an indirect block the hole is filled and the count too low, anywhere else the hole is still there and the blocks taken are in no slot of any inode |
| `Ext2Handles.CloseKeepsInv` | src/fs/ext2/ext2.cpp:396-401 | after any close the invariant holds with at most that inode's count given up, and with no count given up if and only if record and copy agree |
| `Ext2Handles.CloseLoses` | src/fs/ext2/ext2.cpp:396-401 | the blocks a close loses are those of the copy that the record lacks, none if and only if the pointers are the same |
| `Ext2Run.Run` | src/fs/ext2/ext2.cpp:360-1174 | in every run of open, close, read, write, create, unlink and rmdir the invariant holds after each operation, and each operation's effect and answer are all that its contract says; no close is skipped |
| `Ext2Run.StaleOnlyByClose` | src/fs/ext2/ext2.cpp:396-401 | in every run an inode's sector count falls behind only where a handle is closed whose copy its record does not agree with |
| `Ext2Run.SectorsExact` | src/fs/ext2/ext2.cpp:789-842 | in every such state every other inode of the tree counts exactly the sectors of its blocks, the indirect block included |
| `Ext2Run.AllReached` | src/fs/ext2/ext2.cpp:256-287 | in every such state each inode of the tree is reached by a walk from the root |
| `Ext2Contents.StepStays` | src/fs/ext2/ext2.cpp:360-1174 | each operation leaves a byte that the inode table maps as it is, unless it writes over it or removes the file |
| `Ext2Contents.BytesStay` | src/fs/ext2/ext2.cpp:360-1174 | so do whole runs of operations that spare it, other files' creation and removal, close and reopen included |
| `Ext2Contents.WrittenIsRead` | src/fs/ext2/ext2.cpp:403-495 | in every run a byte stored by a write is what any later read returns for it, through whatever handle the file then has, unless an operation in between has written over it or removed the file |
| `Ext2Contents.StepLong` | src/fs/ext2/ext2.cpp:360-1174 | each operation leaves a file's length, in its record and in its handle's copy, as it is, unless it writes beyond the end, which moves there modulo 2^32, or removes the file |
| `Ext2Contents.LengthAfter` | src/fs/ext2/ext2.cpp:360-1174 | so do whole runs: the length is what the writes of the run make it |
| `Ext2Contents.CreatedIsReadTo` | src/fs/ext2/ext2.cpp:403-447 | in every run a read of a file that the run created returns exactly as many bytes as are asked for and lie before that length, starting from 0 at the create |
| `Ext2Contents.UnwrittenIsEmpty` | src/fs/ext2/ext2.cpp:1127-1168 | hence nothing, in every run, as long as nobody has written to it |
| `Ext2Contents.CreateOpenRead` | src/fs/ext2/ext2.cpp:1089-1174 | create, open by the same path and read: the handle is that of the new inode and the read returns no bytes |
| `Ext2Run.CountersExact` | src/fs/ext2/ext2.cpp:648-755 | in every such state each group counter is the number of clear bits, the superblock holds their sums, and the copies on disk agree |
| `Ext2Run.BlocksOwnedOnce` | src/fs/ext2/ext2.cpp:789-919 | in every such state a block in a slot of a live inode has its bit set and sits in no other slot of any inode |
| `Ext2Run.FreeCountExact` | src/fs/ext2/ext2.cpp:863-892 | in every such state the superblock's count is the number of free blocks of the volume |
| `Ext2Run.FormattedVolume` | src/fs/ext2/ext2.cpp:289-352 | a volume with only a root directory satisfies the invariant |
| `Ext2Format.FullImage` | src/fs/ext2/ext2.cpp:289-352 | a disk of 64 blocks with every bit set is a sound image |
| `Ext2Format.Format` | src/fs/ext2/ext2.cpp:289-352 | formatting that disk gives a mounted volume that satisfies the whole invariant, with 57 blocks and 6 inodes free, so that runs have a start |
| `Pmm.PhysicalMemoryManager.constructor` | src/mm/pmm.cpp:24-34 | after init every frame is held and the used count is the number of frames |
| `Pmm.PhysicalMemoryManager.MarkRegionFree` | src/mm/pmm.cpp:48-58 | releases exactly the frames from the rounded-down start to the rounded-down end |
| `Pmm.PhysicalMemoryManager.MarkRegionUsed` | src/mm/pmm.cpp:60-70 | takes exactly the frames from the rounded-down start to the rounded-up end |
| `Pmm.PhysicalMemoryManager.AllocFrame` | src/mm/pmm.cpp:72-83 | fails if and only if all frames are held; otherwise holds the first frame not held, counting from the hint round to it, and moves the hint behind it |
| `Pmm.PhysicalMemoryManager.FreeFrame` | src/mm/pmm.cpp:85-91 | releases that frame if it is held and changes nothing otherwise |
| `Pmm.UsedRegionExact` | src/mm/pmm.cpp:60-70 | the frames taken are exactly those the region touches |
| `Pmm.FreeRegionExact` | src/mm/pmm.cpp:48-58 | only frames inside the region are released if and only if the region starts on a frame boundary or releases none |
| `Pmm.UsedExact` | src/mm/pmm.cpp:36-91 | the used count is the number of set bits below the frame total, in every valid state |
| `Pmm.Boot` | src/kernel/main.cpp:141-154 | after the boot sequence a frame is free if and only if it lies above the end of the bitmap and between the rounded-down ends of some available region |
| `Pmm.OfferedExact` | src/kernel/main.cpp:141-154 | every frame inside an available region is among those; only such frames are if and only if each region begins on a frame boundary, ends in the frame it begins in, or begins in a frame inside another region |
| `Pmm.Session` | src/mm/pmm.cpp:72-91 | in every run after boot an allocation fails if and only if every frame that boot left free is out, and otherwise gives one that is not out; at the end the frames held are exactly those held from the start and those out, which are distinct and clear of the kernel and the bitmap |
| `Paging.ComposedIndices` | src/mm/vmm.cpp:33-60 | the four indices and the word offset of an address built for slot 510 are the ones it was built from |
| `Paging.TableVirtReaches` | src/mm/vmm.cpp:38-60 | word k at the address built for a path is word k of exactly the table the path leads to |
| `Paging.WalkIsPageAt` | src/mm/vmm.cpp:117-139 | the hardware walk of an address is the entry found at the end of its path of tables |
| `AddressSpaces.SameKeySameTable` | src/mm/vmm.cpp:181-201 | paths of one identity, shared kernel paths and the doubly hung boot directory included, lead to one table in every space |
| `AddressSpaces.HungDescend` | src/mm/vmm.cpp:91-111 | hanging a new table makes the paths of its identity lead to it and leaves every other path alone |
| `AddressSpaces.HungCoherent` | src/mm/vmm.cpp:91-111 | hanging a fresh table keeps every table private to one identity and all spaces' kernel slots equal |
| `AddressSpaces.EmptyTablePages` | src/mm/vmm.cpp:104-108 | an empty table in an empty slot changes no translation in any space |
| `AddressSpaces.SplitPages` | src/mm/vmm.cpp:70-89 | a 2 MB page and its 512 pieces translate every address alike, with the same rights and caching |
| `AddressSpaces.LeafPages` | src/mm/vmm.cpp:135-136 | writing a last-level entry changes the page of that identity and no other page of any space |
| `AddressSpaces.ForkedPages` | src/mm/vmm.cpp:181-201 | a copied top-level table has the kernel's pages and no others; existing spaces keep all theirs |
| `Vmm.AddressTranslator.ZeroPage` | src/mm/vmm.cpp:66-68 | 512 stores through slot 510 empty exactly the new table |
| `Vmm.AddressTranslator.SplitHugePage` | src/mm/vmm.cpp:70-89 | the large page becomes a table, one new frame is taken, no address of any space translates differently, and no word outside the tables changes |
| `Vmm.AddressTranslator.EnsureTable` | src/mm/vmm.cpp:91-111 | afterwards the slot leads to a table, no translation and no word outside the tables has changed; a frame is taken if and only if there was no table |
| `Vmm.AddressTranslator.MapPage` | src/mm/vmm.cpp:117-139 | the address translates to the frame asked for, in user slots with exactly the rights asked for, every other page of every space is unchanged, and so is every word of every frame that is no table; new tables use frames nobody held |
| `Vmm.AddressTranslator.UnmapPage` | src/mm/vmm.cpp:141-162 | afterwards the address translates to nothing and every other page of every space and every word outside the tables is unchanged, if and only if the address is not inside a large page; inside one the store lands in the page itself |
| `Vmm.LargeStaysMapped` | src/mm/vmm.cpp:155-159 | in that case, if the large page begins with no table, all translations of all spaces stay, the unmapped one included |
| `Vmm.LargePageStays` | src/mm/vmm.cpp:155-159 | whatever it begins with, all addresses of the large page stay mapped, or all go: they go if and only if the word cleared is one of the three entries on their own walk |
| `Vmm.LargeNotUnmapped` | src/mm/vmm.cpp:155-159 | so inside a large page unmapping never does what it is for |
| `Vmm.AddressTranslator.AllocAndMapPage` | src/mm/vmm.cpp:164-169 | fails if and only if no frame is free; otherwise maps a frame that nobody held, and writes to tables only |
| `Vmm.AddressTranslator.SwitchAddressSpace` | src/mm/vmm.cpp:177-179 | makes the given space current and keeps the invariant |
| `Vmm.AddressTranslator.CreateAddressSpace` | src/mm/vmm.cpp:181-201 | a new space on a frame nobody held, with the kernel's translations and no others; existing spaces lose the scratch page at most, and no word outside the tables changes |
| `Vmm.KernelAgrees` | src/mm/vmm.cpp:181-201 | all spaces translate every kernel address alike, in every coherent state |
| `VmmRun.BootCoherent` | src/boot/boot.S:95-126 | the tables boot builds, one directory hung twice, satisfy the invariant |
| `VmmRun.UserHits` | src/mm/vmm.cpp:117-162 | an address of slots 1 to 509 is affected only by operations issued in its own space on its own page |
| `VmmRun.Run` | src/mm/vmm.cpp:117-201 | in every run, started with any list of known spaces, kernel slots are equal at every moment; between any two moments each page that no operation in between hits keeps its translation in every space that exists at the first, spaces created in the run included |
| `VmmRun.SparedPagesStay` | src/mm/vmm.cpp:117-201 | the same statement for one space, one page and two moments of a trace |
| `VmmRun.OtherSpacesNeverMatter` | src/mm/vmm.cpp:117-201 | operations issued while another space is current never change a translation of slots 1 to 509, over whole runs |
| `HeapBlocks.SplitKeeps` | src/mm/heap.cpp:88-98 | splitting keeps order, alignment, tiling and the live blocks |
| `HeapBlocks.FreedKeeps` | src/mm/heap.cpp:129-149 | freeing with two-sided merging keeps order, alignment and tiling and removes exactly the freed block from the live ones |
| `HeapBlocks.FreedApart` | src/mm/heap.cpp:129-149 | after kfree no two neighbouring blocks are free |
| `HeapBlocks.TakenApart` | src/mm/heap.cpp:87-102 | after kmalloc takes or splits a block no two neighbouring blocks are free |
| `HeapBlocks.TakenMeans` | src/mm/heap.cpp:87-102 | taking a block replaces it by one in use of the size asked for and a free rest behind a new header, if the rest has room for 16 bytes, and by itself in use otherwise; the blocks before and behind stay |
| `HeapBlocks.FreedMeans` | src/mm/heap.cpp:129-149 | freeing a block replaces it and its free neighbours by one free block over all their bytes, headers between them included; all others stay |
| `HeapBlocks.FreeUndoesTake` | src/mm/heap.cpp:81-149 | freeing the block that was just taken gives the list back as it was |
| `HeapBlocks.LiveApart` | src/mm/heap.cpp:81-149 | live payloads are inside the mapped heap, 16-byte aligned and pairwise disjoint |
| `HeapBlocks.TotalsExact` | src/mm/heap.cpp:151-163 | in a heap without gaps allocated bytes, free bytes and headers make up the mapped range |
| `HeapBlocks.TotalsTile` | src/mm/heap.cpp:151-163 | conversely, totals that make up the range leave no gap |
| `HeapBlocks.TakenBytes` | src/mm/heap.cpp:87-102 | taking or splitting a block moves no byte into or out of the blocks |
| `HeapBlocks.FreedBytes` | src/mm/heap.cpp:129-149 | freeing with its merges moves no byte into or out of the blocks |
| `HeapBlocks.AlignUpExact` | src/mm/heap.cpp:42-44 | rounding up is right if and only if it does not wrap around 64 bits |
| `HeapBlocks.LimitTestExact` | src/mm/heap.cpp:47-50 | the heap limit test is right if and only if the sum does not wrap around 64 bits |
| `Heap.SplitLinked` | src/mm/heap.cpp:88-98 | the pointer writes of a split yield the doubly linked list of the split sequence |
| `Heap.MergeLinked` | src/mm/heap.cpp:136-148 | the pointer writes of a merge yield the doubly linked list of the merged sequence |
| `Heap.AppendLinked` | src/mm/heap.cpp:115-124 | the pointer writes after growth yield the doubly linked list with the new block last |
| `Heap.RequestKeeps` | src/mm/heap.cpp:81-127 | every request keeps the layout, grows the live blocks by exactly a block of at least the size asked, and leaves the list alone when it fails |
| `Heap.RequestTiles` | src/mm/heap.cpp:46-62 | a heap without gaps stays so if and only if the request does not fail part-way through growing |
| `Heap.RequestBytes` | src/mm/heap.cpp:46-62 | a request leaves the bytes outside all blocks as they were, plus exactly what a growth that fails part-way has mapped |
| `Heap.RequestApart` | src/mm/heap.cpp:81-127 | after every request no two neighbouring blocks are free, though the retry starts with two |
| `Heap.RequestAnswers` | src/mm/heap.cpp:81-127 | the request function answers exactly so, stated on the list of blocks before and after without it |
| `Heap.FreedIsFound` | src/mm/heap.cpp:81-149 | right after a block is freed a request of at most its size succeeds without growing the heap |
| `Heap.RetrySucceeds` | src/mm/heap.cpp:106-126 | after growth the retry takes the new block and has the outcome of the whole request |
| `Heap.KernelHeap.constructor` | src/mm/heap.cpp:66-79 | one free block over the initial 64 KB |
| `Heap.KernelHeap.GrowHeap` | src/mm/heap.cpp:46-62 | for every 64-bit size: maps whole pages, all that are needed or all that are left; the end stays within the limit if and only if the limit test does not wrap around or the pages run out first, and success brings the bytes asked for if and only if neither the rounding nor the test wraps around |
| `Heap.KernelHeap.Kmalloc` | src/mm/heap.cpp:81-127 | for a size above 0, rounded up to 16: the lowest free block that is large enough is taken or split as HeapBlocks.TakenMeans states; without one the heap grows by the fewest pages that hold the block and its header, and the block is put there; it fails, with the list as it was, if and only if there is none and the limit or the pages do not allow for that growth; size 0 gives null |
| `Heap.KernelHeap.Kfree` | src/mm/heap.cpp:129-149 | the live blocks lose exactly the freed one and the list is the one that freeing means, as HeapBlocks.FreedMeans states; it stays linked, ordered and without free neighbours; null changes nothing |
| `Heap.KernelHeap.TotalAllocated` | src/mm/heap.cpp:151-156 | the sum of the sizes of the blocks in use |
| `Heap.KernelHeap.TotalFree` | src/mm/heap.cpp:158-163 | the sum of the sizes of the free blocks |
| `HeapRun.Run` | src/mm/heap.cpp:81-149 | in every run of kmalloc and kfree the pointers held are exactly those returned and not freed, each with at least the bytes asked for to itself, and the totals add up if and only if no growth failed part-way |
| `HeapRun.StepKeeps` | src/mm/heap.cpp:81-149 | each operation keeps the layout, keeps free blocks apart and each pointer's bytes its own; the bytes outside all blocks grow by exactly what a growth that fails part-way has mapped |
| `HeapRun.TraceKeeps` | src/mm/heap.cpp:81-149 | over whole runs those bytes stay the same if and only if no growth failed part-way |
| `HeapRun.RunMeans` | src/mm/heap.cpp:151-163 | at the end of every run live payloads are disjoint, aligned and mapped, and allocated bytes, free bytes and headers make up the heap if and only if no growth failed part-way |
| `Tasks.ReapedStacks` | src/shed/scheduler.cpp:37-44 | reaping a queue that holds tasks twice frees each stack once |
| `Tasks.CreatedOk` | src/shed/scheduler.cpp:125-132 | linking a new task keeps the ring one cycle in the order of creation |
| `Tasks.TickedOk` | src/shed/scheduler.cpp:153-173 | a tick keeps the invariant: ring, single running task, stacks, address space of the current task |
| `Tasks.KilledOk` | src/shed/scheduler.cpp:195-229 | a kill keeps the invariant |
| `Tasks.KilledStackFreed` | src/shed/scheduler.cpp:203-215 | the next tick frees the stack of a task just killed if and only if the queue of eight had room for it or held it already |
| `Scheduler.Scheduler.constructor` | src/shed/scheduler.cpp:78-84 | init leaves no tasks and the invariant |
| `Scheduler.Scheduler.ReapTerminated` | src/shed/scheduler.cpp:37-44 | computes the reaping function and empties the queue |
| `Scheduler.Scheduler.FindNextReady` | src/shed/scheduler.cpp:46-56 | the do-while walk round the ring finds the nearest ready task, the start itself coming last |
| `Scheduler.Scheduler.FindTaskById` | src/shed/scheduler.cpp:63-74 | finds the task with the id if and only if one was created with it |
| `Scheduler.Scheduler.CreateTask` | src/shed/scheduler.cpp:86-135 | appends a ready task with the stack, frame and address space given to the ring, or changes nothing when an allocation failed; SchedulerContexts.CreateMeans states the new state field by field |
| `Scheduler.Scheduler.Start` | src/shed/scheduler.cpp:137-147 | the first task created runs, with the frame and in the space it was created with, as SchedulerContexts.StartMeans states field by field |
| `Scheduler.Scheduler.Tick` | src/shed/scheduler.cpp:153-173 | the interrupted task keeps its registers where they were saved, every other task its own; ids, links and spaces stay; the processor resumes with those same registers if the choice falls on the interrupted task and with the chosen task's saved ones otherwise, in that task's address space; the whole state is that of the tick function, whose choice, states and stacks the rows below state |
| `Scheduler.Scheduler.BlockCurrent` | src/shed/scheduler.cpp:184-187 | blocks and ticks in one step |
| `Scheduler.Scheduler.Wake` | src/shed/scheduler.cpp:189-193 | a blocked task becomes ready, any other is left alone |
| `Scheduler.Scheduler.KillTask` | src/shed/scheduler.cpp:195-229 | succeeds if and only if the id names a task not yet terminated, and then computes the kill function |
| `Scheduler.Scheduler.WaitForTask` | src/shed/scheduler.cpp:231-242 | returns -1 for an unknown id and the exit code of a terminated task at once, and blocks otherwise |
| `SchedulerRun.RunOk` | src/shed/scheduler.cpp:86-242 | in every run the ring is one cycle, at most the current task runs, and no stack is freed twice |
| `SchedulerRun.RingIsOneCycle` | src/shed/scheduler.cpp:125-132 | from any task, following next meets every task exactly once in ring-size steps |
| `SchedulerRun.TickChoice` | src/shed/scheduler.cpp:46-56 | a tick goes to the nearest task that is ready, the current one counting as the farthest |
| `SchedulerRun.TickNearer` | src/shed/scheduler.cpp:153-173 | each tick dispatches a given ready task or comes strictly nearer to it on the ring |
| `SchedulerRun.ReadyIsDispatched` | src/shed/scheduler.cpp:153-173 | a task that stays ready is dispatched within as many ticks as it is ahead, at most the ring size, whatever else happens without a creation |
| `SchedulerRun.TickKeepsTerminated` | src/shed/scheduler.cpp:158-165 | a tick leaves terminated tasks terminated if and only if some task is ready for it, the running one included |
| `SchedulerRun.BlockComesBack` | src/shed/scheduler.cpp:158-165 | a task that blocks is resumed by the same tick if and only if no task is ready |
| `SchedulerRun.WaitComesBack` | src/shed/scheduler.cpp:231-242 | in every state a task that waits for a living one is current again after the same step if and only if no task is ready; its target has not terminated |
| `SchedulerRun.KillStates` | src/shed/scheduler.cpp:195-215 | a kill terminates its target with the code, makes the blocked waiter ready, forgets who waited, and leaves every other task alone |
| `SchedulerRun.KillWakes` | src/shed/scheduler.cpp:195-215 | a task blocked in waitForTask is made ready by the kill of its target if and only if the target records it as its waiter and it does not wait for itself |
| `SchedulerRun.SecondWaiter` | src/shed/scheduler.cpp:231-238 | a wait keeps one waiter to a target if and only if nobody waits for that target already; otherwise the earlier waiter is no longer recorded |
| `SchedulerRun.FirstWaiterLeft` | src/shed/scheduler.cpp:231-242 | then the earlier waiter stays blocked after the target is killed |
| `SchedulerRun.TwoWaiters` | src/shed/scheduler.cpp:231-242 | a state and run in which that happens |
| `SchedulerRun.NextKeepsOne` | src/shed/scheduler.cpp:153-242 | every other proper step keeps one waiter to a target |
| `SchedulerRun.NextKeeps` | src/shed/scheduler.cpp:153-242 | with something ready at each tick and no foreign wake of a waiter, termination is for good and a waiter is held until its target has terminated |
| `SchedulerRun.WaitReturnsKillCode` | src/shed/scheduler.cpp:231-242 | a waiter that resumes finds its target terminated and returns the code it was killed with |
| `SchedulerRun.RunKeeps` | src/shed/scheduler.cpp:153-242 | the two previous rows over whole runs |
| `SchedulerStacks.TickKeepsStacks` | src/shed/scheduler.cpp:158-165 | a tick frees no stack of a task that is not terminated if and only if something is ready, or the task it falls back on has a stack that is not queued; otherwise it runs a terminated task on a freed stack |
| `SchedulerStacks.NextKeepsStacks` | src/shed/scheduler.cpp:153-242 | a proper step leaves freed and queued stacks to terminated tasks |
| `SchedulerStacks.RunKeepsStacks` | src/shed/scheduler.cpp:153-242 | in every proper run no task that runs or may yet run has lost its stack |
| `Tasks.TickContexts` | src/shed/scheduler.cpp:153-173 | the same as a law of the tick function |
| `SchedulerContexts.SwitchContexts` | src/shed/scheduler.cpp:153-242 | the same for every step that takes the processor away: tick, block and wait |
| `SchedulerContexts.QuietContexts` | src/shed/scheduler.cpp:86-229 | every other step leaves all saved contexts and spaces alone, and start resumes one as it is |
| `SchedulerContexts.ResumesWhereItLeft` | src/shed/scheduler.cpp:153-173 | in every run a task that is resumed resumes with the registers of its last interruption, and in its own address space |
| `SchedulerContexts.BeginsAsCreated` | src/shed/scheduler.cpp:86-173 | in every run a task that has not been interrupted yet is resumed with the frame and in the address space it was created with |
| `SchedulerContexts.CreateMeans` | src/shed/scheduler.cpp:111-132 | creation appends one task with the given stack, frame and space, ready, with the next id and no waiter, and of the others changes the link of the last only |
| `SchedulerContexts.StartMeans` | src/shed/scheduler.cpp:137-147 | start makes the task with id 1 run, with its frame and space, and changes no other task |
| `SchedulerContexts.KillMeans` | src/shed/scheduler.cpp:195-229 | a kill changes of each task at most state, exit code and waiter, and queues its target once if somebody waited and twice if not, as far as eight entries allow |
| `SchedulerContexts.BlockMeans` | src/shed/scheduler.cpp:184-187 | a task that blocks is blocked afterwards if and only if something was ready, and otherwise runs on |
| `PathNames.PiecesJoin` | src/fs/vfs.cpp:264-288 | the components of two paths joined at a slash are their components in order |
| `PathNames.AbsolutePieces` | src/fs/vfs.cpp:246-297 | taking a path apart undoes putting it together |
| `Vfs.NormalIsResolve` | src/fs/vfs.cpp:246-297 | within its buffers normalizePath is the fold of a stack over the components of the joined path |
| `Vfs.DotsMean` | src/fs/vfs.cpp:262-288 | what that fold means, in four rules that take any list of components to its result: a dot is skipped, a name and the dot-dot behind it cancel, dot-dot in the root is skipped, names add up |
| `Vfs.ThereAndBack` | src/fs/vfs.cpp:246-297 | on paths: behind any absolute path, going into a directory and back changes no result within the limits |
| `Vfs.NormalIsPlain` | src/fs/vfs.cpp:246-297 | every result, for every input, is absolute without empty, dot or dot-dot components |
| `Vfs.NormalIsFixed` | src/fs/vfs.cpp:246-297 | normalising a result again, from any directory, changes nothing if and only if the joined path is not one of 255 characters without a leading slash and with no component to drop |
| `Vfs.NormalLength` | src/fs/vfs.cpp:246-297 | results have at most 256 characters, and 256 exactly for those paths |
| `Vfs.AbsoluteIsFixed` | src/fs/vfs.cpp:246-297 | from an absolute or empty working directory, or with absolute input, every result is a fixed point |
| `Vfs.Combine` | src/fs/vfs.cpp:246-260 | the buffer holds the working directory, a slash and the input, or the absolute input, cut to 255 characters |
| `Vfs.Stack` | src/fs/vfs.cpp:262-288 | the loop over the buffer computes the bounded fold of its components |
| `Vfs.NormalizePath` | src/fs/vfs.cpp:246-297 | the loops over the three buffers write the normal path when it fits; with a shorter buffer they write what the source writes, and the closing NUL lands outside the buffer if and only if the path without its last two components already fills it up to two characters |
| `Vfs.SpillIs` | src/fs/vfs.cpp:290-297 | what is written for any stack of components: the path up to the limit, then one slash for every component that starts beyond it |
| `Vfs.OverrunExact` | src/fs/vfs.cpp:290-297 | the index of the closing NUL lies outside the buffer exactly under that condition |
| `Vfs.OverrunInput` | src/shell/shell.cpp:375-377 | an input of 130 characters that overruns the 128 characters every caller passes |
| `Mounts.MatchesIsPrefix` | src/fs/vfs.cpp:51-62 | on normalised names a mount point matches if and only if its components lead the path's, and the rest of the path is the rest of the components |
| `Mounts.RootServesOnlyItself` | src/fs/vfs.cpp:51-56 | a mount at the root matches the path of the root only |
| `Mounts.MountTable.constructor` | src/fs/vfs.cpp:88-92 | no mount is in use |
| `Mounts.MountTable.ResolvePath` | src/fs/vfs.cpp:44-76 | picks a longest matching mount point, the only one in a table of distinct points, and none if and only if none matches |
| `Mounts.MountTable.MountAt` | src/fs/vfs.cpp:127-154 | success is stated exactly; the first free slot is filled; points stay distinct if and only if the point as stored was not in use |
| `Mounts.ShortPointsStayDistinct` | src/fs/vfs.cpp:131-135 | that condition holds for every accepted point of at most 63 characters |
| `Mounts.LongPointMountsTwice` | src/fs/vfs.cpp:131-144 | every longer point can be mounted twice and then two mounts share a point |
| `Mounts.MountTable.Unmount` | src/fs/vfs.cpp:156-165 | takes the mount with that point out of use if there is one, and touches no other |
| `Elf.WordHeld` | src/file_formats/elf/elf.cpp:109-112 | a 64-bit word stored byte by byte is read back |
| `Elf.CStringUnique` | src/file_formats/elf/elf.cpp:100-105 | the C string at an address is unique |
| `Elf.PlacesApart` | src/file_formats/elf/elf.cpp:100-105 | the strings are pairwise disjoint and end at the top |
| `Elf.ArrayBelow` | src/file_formats/elf/elf.cpp:107-110 | the pointer array lies below every string |
| `Elf.ShortArgsFit` | src/file_formats/elf/elf.cpp:94-118 | up to 16 arguments of at most 64 bytes with their NUL always fit the four-page stack |
| `Elf.UserMemory.SetupArgs` | src/file_formats/elf/elf.cpp:94-118 | for up to 16 arguments, and for the first 16 of more: pointer i of the array leads to the C string of argument i, a null pointer follows, the strings lie without gaps up to the top and the array ends within 8 bytes below them; the array is 8-aligned, the stack pointer 16-aligned and less than 16 bytes below it, and no byte below the array or above the top changes |

## Left out

- Device failures: `readBlock`, `writeBlock` and `kmalloc` succeed in the ext2 model; their error returns would add only early exits.
- The superblock and group descriptors are typed values with a copy "on disk" rather than bytes; their byte layout is not modelled.
- ext2 volumes are taken as formatted: 1 KB to 32 KB blocks, inode records of at least 128 bytes that divide the block, metadata blocks marked used, a last group that is not empty, and no double or triple indirect blocks.
- Ext2Store.FsInstance.constructor: requires a sound image, because `mount` looks at the magic number only and nothing can be said of the others.
- Ext2Handles.Open: requires a path to no directory and to no inode that is already open, because a handle is a private inode copy and the driver gives several of them no common meaning.
- Ext2Remove.UnlinkFile: requires that the file is not open, for the same reason.
- `mount`, `readdir`, `isDirectory`, timestamps, hard links and `used_dirs_count` of ext2.
- Ext2Create.Create: requires last names under 256 bytes, because the length of a directory entry's name is one byte.
- Vmm.AddressTranslator.MapPage: requires enough free frames for the tables it adds, because the source does not look at a failed allocation there; it also excludes the recursive window.
- Vmm.AddressTranslator.CreateAddressSpace: the same requirement on frames.
- Vmm.AddressTranslator.AllocAndMapPage: the same requirement on frames, once there is a frame for the page itself.
- VmmRun.Run: requires four free frames for each operation, which is the same requirement over a run.
- 1 GB pages: the invariant excludes them, since neither boot nor the manager creates one.
- The TLB, `invlpg`, caching effects, faults on non-canonical addresses, and bits 63..52 of table entries.
- Heap.KernelHeap.Kmalloc: requires sizes for which the 64-bit arithmetic does not wrap; HeapBlocks.AlignUpExact, HeapBlocks.LimitTestExact and Heap.KernelHeap.GrowHeap state when it does and what growing then does.
- Heap.KernelHeap.Kfree: requires null or a live payload, as the source does not check its argument.
- The page source of the heap is a number of pages that can still be mapped, not the frame allocator itself.
- Interrupts between the instructions of one scheduler operation; each operation is one step, and `waitForTask` is one step up to its blocking and one after its resumption.
- Scheduler.Scheduler.CreateTask: does not model the register frame on the new stack, wrap-around of 32-bit task ids, or what of task, stacks and address space a failed creation has allocated and does not give back.
- Keyboard focus on kill, the task state segment's kernel stack, and the assembly that saves and loads registers; a saved context is the address it is saved at.
- Vfs.NormalizePath: requires an output size of at least 3, because the source computes `out_size - 2` without a sign, and memory behind the buffer for the separators it may write there.
- Vfs.NormalIsResolve: beyond 255 characters, 63 to a component or 32 components the source cuts its input, and only Vfs.NormalIsPlain is claimed.
- Open files of the virtual file system, block device registration, and the driver calls behind `mount` (their results are parameters).
- Elf.UserMemory.SetupArgs: requires that the image does not reach below address 0; the stack's own lower end is Elf.ShortArgsFit.
- ELF segment loading, TAR, multiboot parsing, drivers, the terminal and the shell.
