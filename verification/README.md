# Linux 0.01: memory, files, buffers, console, scheduling, disk, exec and pipes in Dafny

This project models the C cores of a Linux 0.01 kernel and proves what they are for. The kernel is almost all small state
machines over arrays and links. Each core is modelled twice: once as the source has it (a class whose methods update
arrays, pointers and counters step by step) and once as its users see it (a value and a step function). The methods are
proved to take the steps of the second model; the properties of whole runs are proved about the second model.

## How it is laid out

| part of the kernel | what its users see | how the source does it |
|---|---|---|
| paging (`mm/memory.c`, `kernel/fork.c`, `kernel/exit.c`) | `AddressSpaces`, `TaskWorld`: private, eagerly copied address spaces | `Words`, `PagingState`, `PagingSteps`, `PagingEntries`, `PagingFaults`, `PagingRanges` (page tables and use counts as values), `Memory` and `Fork` (the kernel's functions) |
| files (`fs/bitmap.c`, `fs/inode.c`, `fs/truncate.c`, `fs/file_dev.c`) | `FsFiles`: flat byte sequences | `FsState`, `FsSteps`, `FsTruncate` (block trees and who owns each zone), `FileTree` (the kernel's functions) |
| directories (`fs/namei.c`) | `Dirs`: maps from names to inode numbers | `DirTree`, on top of `FileTree` |
| buffer cache (`fs/buffer.c`) | `FlatDisk`, `BufferRuns`: a disk without a cache | `BufferLinks`, `BufferIndex` (hash chains and free list), `BufferCache`; `BufferRaces` for many processes inside `getblk` |
| console (`kernel/console.c`) | `Terminal`, `TerminalBytes`: a grid scrolled in software, its escape parser, and what each byte and sequence does to it | `Console`: a moving window in video memory |
| scheduling (`kernel/sched.c`) | `WaitQueue` (chains of sleepers), `Scheduler` (time slices) | the classes in the same files |
| disk requests (`kernel/hd.c`) | `HdRequests`: a sequence of jobs | `HdQueue`: linked request slots |
| arguments of a new program (`fs/exec.c`) | `ArgStrings`: strings laid out in memory | `ExecArgs` |
| pipes (`fs/pipe.c`) | `Pipes`: a byte sequence and sleeping processes | `PipeRing`: one page with a head and a tail |

Pointers are indices (of frames, zones, buffers, request slots, processes) or addresses; NULL is 0 or -1 as each file says.
Physical memory is an array of 4096-byte frames, and page directory and page tables are frames of it. Ghost state records
*why* something is in use: which entry uses a frame (`refs`), which place of which inode owns a zone (`owner`), which chain
a sleeper is on. Which blocks of a disk cannot be read, or cannot be written, and how many pages are free is part of the
state, so a failed read, a full disk and a lack of memory are claimed exactly where they occur. The order in which processes
run, the errors and the data request line of the disk controller, and the bytes that arrive are inputs; every claim is for all
of them.

## What the code does that one would not expect

The model follows the code. Where a promise fails, there is a lemma or a contract with the exact condition.

- `getblk` takes over a buffer in use when every buffer is held and the block is not cached: the branch that should sleep is
  never reached. `BufferIndex.HeldStay`: buffers in use keep their identity if and only if the block or an unheld buffer is found.
- A scan of the free list that slept on a buffer goes on from there when it wakes, and takes the head of the list without
  looking when it comes round to it; the head may be in use although others are free. Buffers in use keep their identity over a
  run if and only if no scan does this for another block or with a dirty head (`BufferRaces.KeptIff`); `BufferRaces.TwoHolders`
  is a run where two processes then have one block in different buffers. Counts are exact if and only if no process that lost
  the race puts such a buffer back (`BufferRaces.CountedIff`); `BufferRaces.CountLost` is a run where it does.
- `free_block` on a block in use takes a hold on its buffer and never gives it back (`FlatDisk.Forgot`, in the contract of
  `BufferCache.Buffers.Forget`).
- `insert_into_queues` writes a back link through NULL when the hash chain was empty; the model leaves that write out.
- A page shared with low memory is constant except when it is frame 0, the page directory (`TaskWorld.ConstantReads`).
- `do_no_page` loses a page if and only if exactly one page is free and the directory slot has no table: the page is taken and
  none is left for the table (`Memory.Mm.DoNoPage`). The use counts stay exact.
- A file whose index block cannot be read reads as zeros there (`FileTree.FileSystem.FileRead`), and `truncate` loses exactly the
  zones it can only find through that block (`FsTruncate.TruncateFrees`); none, if all can be read (`FsTruncate.NothingLost`).
- After ESC, the console looks at the column instead of the character for `7` and `8`: ESC 7 saves the cursor if and only if it is
  in column 55, ESC 8 restores it if and only if it is in column 56, unless the two positions are the same anyway
  (`Terminal.SaveIff`, `Terminal.RestoreIff`).
- `sys_nice` can leave a time slice longer than the new priority allows: `Scheduler.NiceInRange` says when.
- `IN_ORDER` compares cylinder, head and sector separately, so it is not a linear order, and the queue need not stay sorted by it:
  `HdRequests.Unsorted` is a queue that does not, and `HdRequests.SortedIff` says for every queue and job whether it does.
- An interrupt makes progress if and only if it does not issue a write again without a data request (`HdRequests.InterruptWorks`).
  As long as the request does not come, such a write is issued for ever and nothing behind it is served (`HdRequests.NeverGranted`).
- Submitting a buffer that is locked already leaves it unlocked while a request for it still waits: `HdRequests.SubmitLocks`
  gives the exact condition.
- `copy_strings` cannot notice that the strings do not fit, since it compares an unsigned number with 0. A program starts if and
  only if its strings leave a byte of the 128 KB free and there are pages for them (`ExecArgs.StartsIff`). Strings that fill the
  area to the last byte are refused (`ExecArgs.FullArea`). Longer ones are not refused for being long: `p` wraps below 0 and
  `page[]` is read outside its 32 entries, or a page that is not there is used (`ExecArgs.TooLong`). When the environment finds
  no memory, its 0 is taken for the address where the arguments go, with the same end unless there are none
  (`ExecArgs.NoEnvironment`).
- A search that cannot read a block of a directory skips it. If entries follow, it looks at a null buffer pointer; if it was the
  first block or the last, it says "no such name" (`DirTree.FindEntry`, `DirTree.MissedIff`). Linking a name that is missed in
  this way, when there is a free entry that can be read, enters it a second time: `DirTree.NameDoubled` is such a directory, and
  `DirTree.Link` says that names stay unique if and only if this is not the case.

## Model

| member | source | states |
|---|---|---|
| Words.WriteProtectKeeps | mm/memory.c:177-177 | Dropping the write bit of an entry changes neither its frame nor that it is present |
| Words.EntryBits | mm/memory.c:174-179 | Bit 0 of an entry is present, bit 1 writable, bit 2 user, and the frame starts at bit 12 |
| PagingState.CountBound | mm/memory.c:172-184 | No frame ever has more than 63 uses, so the 16-bit counts cannot wrap |
| PagingState.Reframe | mm/memory.c:150-235 | The invariant (counts exact, writable means only use) need only be re-established where something changed |
| PagingSteps.TakeInv | mm/memory.c:64-84 | Handing out a free frame keeps the invariant; the frame had no use at all |
| PagingSteps.FreeIsUnused | mm/memory.c:64-84 | A frame with count 0 is named by no page table, no directory slot and no kernel user |
| PagingEntries.UnmapInv | mm/memory.c:120-125 | Clearing one entry keeps all counts exact and every other page as it was |
| PagingEntries.MapHeldInv | mm/memory.c:197-218 | Mapping a page the kernel holds moves its one use from the kernel to the entry |
| PagingEntries.ShareInv | mm/memory.c:174-184 | Sharing one entry read-only keeps the invariant, for low pages without counting |
| PagingEntries.ShareViews | mm/memory.c:174-184 | After sharing, child and parent read the same contents and nobody else reads anything new |
| PagingFaults.GrantWriteInv | mm/memory.c:225-228 | With one use, the write bit may be set: nothing reads differently |
| PagingFaults.SplitInv | mm/memory.c:229-234 | With several uses, moving one of them to a fresh copy keeps the counts exact |
| PagingFaults.SplitViews | mm/memory.c:229-234 | The page that was split reads the old contents, now its own; other pages are untouched |
| PagingFaults.StoreWordInv | mm/memory.c:220-235 | A store through a writable entry changes this page and no other, because its frame has no other use |
| PagingRanges.FreeEntryStep | mm/memory.c:120-125 | One turn of the inner loop of free_page_tables removes exactly the uses it passes |
| PagingRanges.FreeTableStep | mm/memory.c:126-127 | A table whose entries are cleared is freed exactly once |
| PagingRanges.CopyTableStep | mm/memory.c:169-171 | A new table for the child keeps everything copied so far |
| PagingRanges.CopyEntryStep | mm/memory.c:173-185 | One turn of the inner loop of copy_page_tables: the child's page reads what the parent's did at the start |
| AddressSpaces.CountsExact | mm/memory.c:64-131 | A count is the number of user entries naming the frame, plus one if it is a table, plus kernel and orphaned uses |
| AddressSpaces.SpacesFreed | mm/memory.c:106-131 | Freeing a range removes its pages from the address spaces and nothing else |
| AddressSpaces.WriteAfterOwn | mm/memory.c:220-235 | Preparing a page for writing and storing is the same as an eager store |
| AddressSpaces.SlotsCover | mm/memory.c:114-114 | The slots for a size cover it, and none lies wholly beyond it; a size near 4 GB has none |
| AddressSpaces.SlotOfByte | mm/memory.c:114-115 | Every byte below the size lies in one of the slots, and every slot has such a byte |
| Memory.BootInv | mm/memory.c:64-84 | The state that boot leaves satisfies the invariant |
| Memory.Mm.GetFreePage | mm/memory.c:64-84 | The highest free frame, cleared and counted once; 0 only if every count is positive |
| Memory.Mm.FreePage | mm/memory.c:90-100 | Panics exactly on an address above memory or a count of 0, and looks outside `mem_map` exactly for the address where memory ends |
| Memory.Mm.FreeHeld | mm/memory.c:90-100 | Freeing a page the kernel holds never panics |
| Memory.Mm.FreePageTables | mm/memory.c:106-131 | Frees exactly the pages and tables of the range; panics exactly on an unaligned address and on 0; the free-page panic is not reached |
| Memory.FreedByte | mm/memory.c:106-131 | Afterwards no byte below the size is mapped, and tables wholly beyond it are as before |
| Memory.Mm.CopyPageTables | mm/memory.c:150-189 | Succeeds if and only if there is a free frame for each table of the parent; the address spaces are then as after an eager copy; otherwise a prefix has been copied; panics exactly on unaligned addresses |
| Memory.Mm.ShareEntry | mm/memory.c:174-184 | The stores of one entry's copy are the sharing step, low pages included |
| Memory.ForkUndone | kernel/fork.c:66-69 | A copy that stopped anywhere, followed by freeing the child's slots, leaves every count, use, directory slot and page content as before; only write bits of the parent were dropped |
| Memory.CopiedSpaces | mm/memory.c:150-189 | A completed copy is an eager copy |
| Memory.CopiedByte | mm/memory.c:150-189 | After a completed copy every byte below the size reads as in the source; from the kernel, up to byte 0xA0000, and nothing is mapped beyond |
| Memory.Mm.PutPage | mm/memory.c:197-218 | The page is mapped; or, if and only if there is neither a table nor a frame for one, nothing changes |
| Memory.Mm.DoNoPage | mm/memory.c:263-271 | Succeeds if and only if there are frames for the page and its table; the page then reads as zeros. A page is lost if and only if exactly one frame is free and there is no table |
| Memory.Mm.UnWpPage | mm/memory.c:220-235 | The page becomes writable and the task's own, with unchanged contents; fails if and only if the page is shared and no frame is free |
| Memory.Mm.DoWpPage | mm/memory.c:242-248 | The same for the faulting address |
| Memory.Mm.WriteVerify | mm/memory.c:250-261 | A present page may be written afterwards, and fails to become so only if it is shared and no frame is free; a missing one is left alone |
| Memory.Mm.UserStore | mm/memory.c:220-271 | Faults and store together are one store into a private address space; fails if and only if there are fewer free frames than the access needs |
| Memory.Mm.KernelStore | kernel/fork.c:35-48 | A store by the kernel on behalf of a program, after write_verify, is one store into a private address space; it fails exactly where a store by the program would |
| Fork.Tasks.ForkTask | kernel/fork.c:81-134 | Succeeds if and only if there are free frames for a task struct and for each page table of the parent; the child has a copy of the parent's space; a failure restores counts and spaces |
| Fork.Tasks.CopyMem | kernel/fork.c:50-71 | copy_mem copies the whole data segment, or, if and only if frames for the tables are missing, nothing |
| Fork.Tasks.UndoCopy | kernel/fork.c:66-69 | The failure path restores counts and pages |
| Fork.GivenBack | kernel/fork.c:131-134 | Giving the task struct back after a failed copy restores the state before the fork |
| Fork.Tasks.ExitTask | kernel/exit.c:85-110 | Exit frees the pages of both segments and leaves a zombie |
| Fork.Tasks.ReapTask | kernel/exit.c:26-40 | Releasing a zombie frees its task struct |
| Fork.Tasks.ExecTask | fs/exec.c:469-470 | exec empties the address space and keeps everybody else's |
| Fork.Tasks.AccessTask | mm/memory.c:220-271 | A load or store of a task, with its faults, is one step on private spaces; the task is killed if and only if free frames do not suffice |
| Fork.Tasks.Run | mm/memory.c:150-271 | Every run of forks, faults, stores, execs, exits and reaps is a run on private, eagerly copied address spaces, in which a fork fails and an access kills exactly where the frames of that moment do not suffice |
| Fork.FirstFork | mm/memory.c:172-185 | A fork of task 0 gives the child every page of task 0 below byte 0xA0000, with its contents, and no other page |
| TaskWorld.Isolation | mm/memory.c:150-261 | Over any run, a task that does nothing finds its memory exactly as it left it |
| TaskWorld.FreshChild | kernel/fork.c:50-71 | A fresh child has page for page what its parent has, and the parent keeps it |
| TaskWorld.StoredWord | mm/memory.c:220-271 | A store is read back, and no other word of any task reads differently |
| TaskWorld.ReadBack | mm/memory.c:150-271 | What a task has stored it reads back after any run in which only others act |
| TaskWorld.Emptied | kernel/exit.c:85-110 | After exit, exec, or an access for which memory did not suffice, a task has no page, and every other task has all of its pages |
| TaskWorld.Released | kernel/exit.c:26-40 | A released zombie leaves its slot free; a fork that fails leaves everything as it was |
| TaskWorld.Usable | kernel/fork.c:50-71 | A task can use every byte below its data limit, and none in a slot wholly beyond it |
| TaskWorld.ConstantReads | mm/memory.c:179-184 | A low page shared by reference is constant if and only if it is not frame 0 |
| FsState.PlacesDistinct | fs/inode.c:85-141 | Zone numbers stored at two places of any trees are different |
| FsState.OwnerInjective | fs/bitmap.c:84-115 | No place owns two zones |
| FsState.SetWord16Reads | fs/inode.c:104-108 | Storing one entry of an index block changes this entry only |
| FsSteps.AllocInv | fs/bitmap.c:96-102 | Setting the bit of a free zone keeps the tree invariant |
| FsSteps.AttachInv | fs/inode.c:85-141 | Storing a new zone at an empty place gives it this one owner |
| FsSteps.FreeAtInv | fs/bitmap.c:73-77 | Clearing the bit of an owned zone keeps the invariant |
| FsFiles.PosOfInjective | fs/inode.c:85-134 | Different blocks of a file are at different places of its tree |
| FsFiles.ByteLayout | fs/inode.c:85-141 | Where a byte of a file is: 7 zone numbers in the inode, 512 little-endian ones behind the 8th, 512 times 512 behind the 9th |
| FsFiles.WrittenBytes | fs/file_dev.c:63-75 | Overwriting the block at one place changes exactly these bytes of this file |
| FsFiles.AttachGrown | fs/inode.c:85-141 | Filling a hole with a cleared zone changes no byte of any file |
| FsFiles.FileUntouched | fs/file_dev.c:42-84 | A file that no operation of a run names comes out unchanged |
| FsFiles.WrittenByte | fs/file_dev.c:42-84 | Byte by byte, and for the size, what a write leaves in every file |
| FsFiles.LastWritten | fs/file_dev.c:42-84 | What was written to a byte is there after any run on other files |
| FsTruncate.TruncateFrees | fs/truncate.c:41-58 | truncate frees exactly the data and index zones of the inode, except those behind an index block that cannot be read |
| FsTruncate.NothingLost | fs/truncate.c:41-58 | If all zones of an inode can be read, truncate loses none of them |
| FsTruncate.TruncatedFiles | fs/truncate.c:41-58 | The truncated file is empty and all other files read as before |
| FileTree.FileSystem.constructor | fs/bitmap.c:32-46 | A file system without blocks in use satisfies the invariant, and all its files are empty |
| FileTree.FileSystem.FindFirstZero | fs/bitmap.c:32-46 | The first zero bit of a bitmap block, or 8192 |
| FileTree.FileSystem.NewBlock | fs/bitmap.c:84-115 | The lowest free zone, cleared; 0 if and only if no zone is free, even if a padding bit was set on the way |
| FileTree.FileSystem.FreeBlock | fs/bitmap.c:52-78 | Panics exactly on a zone outside the data area or one that is free already |
| FileTree.FileSystem.BmapOrCreate | fs/inode.c:76-142 | The zone of a block, created if asked for; 0 if and only if an index block on the way cannot be read, there is none and none was asked for, or no zone is free; growth changes no file |
| FileTree.FileSystem.FreeInd | fs/truncate.c:5-21 | Frees the zones named in an index block and the block; no zone is freed twice, and the zones it names are lost exactly when it cannot be read |
| FileTree.FileSystem.FreeDind | fs/truncate.c:23-39 | The same one level up |
| FileTree.FileSystem.Truncate | fs/truncate.c:41-58 | The inode's tree is gone and other trees are as before; what is lost is what lies behind unreadable index blocks; the bitmap panic is not reached |
| FileTree.FileSystem.FileRead | fs/file_dev.c:11-40 | The bytes of the file from the position on, zeros behind an unreadable index block; a read is short if and only if the data block it comes to cannot be read, and is the flat file if all can be read |
| FileTree.FileSystem.FileWrite | fs/file_dev.c:42-84 | Overwrites exactly the first `written` bytes of the buffer in the flat file and extends the size to match; stops early only at a block that cannot be read or when no zone is free |
| FileTree.FileSystem.CopyIn | fs/file_dev.c:63-75 | The byte loop stores one slice of one block |
| FileTree.WriteIsOverwrite | fs/file_dev.c:42-84 | A write is an overwrite of one slice of one file |
| FileTree.FileSystem.Run | fs/file_dev.c:42-84 | Every run of writes and truncations on any files does to the trees what it does to flat byte sequences, each write as far as unreadable blocks and free zones let it; with all zones readable and enough of them free, every write is complete |
| FileTree.Complete | fs/file_dev.c:42-84 | If zones in use can be read and there are as many free zones as the operations can need, each write of a run is complete |
| Dirs.MatchShown | fs/namei.c:71-86 | match succeeds if and only if the entry is in use and shows this name up to its first zero byte |
| Dirs.PadShown | fs/namei.c:207-208 | The name that add_entry stores shows as the name cut to 14 bytes |
| Dirs.MatchBears | fs/namei.c:71-86 | A lookup matches exactly an entry in use whose bytes are those of the name up to the 14th, and that ends where a shorter name ends |
| Dirs.PadSpells | fs/namei.c:207-208 | The 14 bytes stored for a name are its own, and zeros behind it |
| Dirs.CutAlike | fs/namei.c:112-113 | Two names are the same exactly when they agree on their first 14 bytes |
| Dirs.FindBears | fs/namei.c:125-142 | A search finds the first entry that bears the name, byte by byte |
| Dirs.Linked | fs/namei.c:164-219 | Entering an absent name changes what this name stands for and nothing else; names stay unique |
| Dirs.UniqueIff | fs/namei.c:164-219 | Entering a name keeps names unique if and only if it was absent |
| Dirs.Unlinked | fs/namei.c:608-658 | Clearing an entry's inode makes this name unknown and nothing else |
| Dirs.LinkMap | fs/namei.c:164-219 | In terms of the map: one binding is added |
| Dirs.UnlinkMap | fs/namei.c:608-658 | In terms of the map: one binding is removed |
| DirTree.StoredEntry | fs/namei.c:205-212 | Writing the 16 bytes of an entry changes this entry of the directory only |
| DirTree.FindEntry | fs/namei.c:100-145 | The first entry that bears the name byte by byte, through direct and indirect blocks, if all blocks up to it can be read; a null pointer is used if and only if the search comes to a block that cannot be read and is neither the first nor the last |
| DirTree.MissedIff | fs/namei.c:123-144 | A name of the directory is not found, without a null pointer, if and only if the first block cannot be read, or the last one cannot, is the first that cannot, and has the name |
| DirTree.AddEntry | fs/namei.c:164-219 | The first free entry gets the name, or a new one at the end, across block boundaries; it fails, and changes nothing, exactly when a block up to that entry cannot be read, or there is no block for it and no zone is left |
| DirTree.AddLink | fs/namei.c:660-717 | When it is done the 16 bytes on the disk are the inode number, low byte first, the name up to its 14th byte, and zeros |
| DirTree.SetInode | fs/namei.c:660-717 | Filling in the inode number changes one entry |
| DirTree.FindInode | fs/namei.c:310-337 | Looking a name up changes nothing; it is one step on the map unless the name is missed, which is answered by "missing", or a null pointer is used |
| DirTree.Link | fs/namei.c:660-717 | Search, add and fill in: one step on the map unless the name is missed or a null pointer is used; names stay unique if and only if no name is missed for which there is a free entry that can be read; other files are as before |
| DirTree.NameDoubled | fs/namei.c:123-144 | A directory of two blocks, the second unreadable, where linking a name again enters it a second time |
| DirTree.Unlink | fs/namei.c:608-658 | One step on the map unless the name is missed, which is answered by "missing", or a null pointer is used; other files are as before |
| DirTree.SameName | fs/namei.c:112-113 | Names that agree on 14 bytes get the same answer from find, link and unlink, on the map and on the disk |
| DirTree.LinkThenFind | fs/namei.c:660-717 | After a link and operations on other names, looking the name up gives its inode |
| DirTree.UnlinkThenFind | fs/namei.c:608-658 | After an unlink and operations on other names, the name is missing |
| DirTree.DoneIff | fs/namei.c:608-717 | A link is refused exactly when a lookup finds the name, and an unlink exactly when it does not |
| DirTree.Run | fs/namei.c:100-219 | Every run on a directory whose zones can be read is a run on a map, and lacks space only when no zone is free; other files keep their bytes in any case |
| DirTree.GoodStep | fs/namei.c:100-219 | A step of a readable directory that stands for a map is a step of that map, and leaves it readable; no space only when no zone is free |
| BufferLinks.RingRemove | fs/buffer.c:95-100 | Unlinking from the circular list leaves the others, in order |
| BufferLinks.RingInsert | fs/buffer.c:106-109 | Linking in before the head puts a buffer at the end |
| BufferLinks.ChainRemove | fs/buffer.c:88-93 | Unlinking from a hash chain leaves the others, in order |
| BufferLinks.ChainInsert | fs/buffer.c:111-117 | Linking in at the head of a hash chain |
| BufferIndex.Removed | fs/buffer.c:85-101 | Taking a buffer out keeps hash table and free list in agreement with the buffer array |
| BufferIndex.Inserted | fs/buffer.c:103-118 | Putting it back for a block that no other buffer stands for does too |
| BufferIndex.HeldStay | fs/buffer.c:172-279 | getblk, running alone, leaves buffers in use alone if and only if it finds the block or an unheld buffer |
| BufferIndex.InitialIndexed | fs/buffer.c:316-351 | The links that buffer_init sets up are in order |
| FlatDisk.Replaced | fs/buffer.c:233-243 | Giving a clean buffer to another block loses nothing |
| FlatDisk.Transferred | fs/buffer.c:292-305 | A transfer between buffer and disk that keeps the buffer good is invisible to readers |
| FlatDisk.Durable | fs/buffer.c:51-64 | A block with no dirty buffer is on disk as it reads |
| BufferCache.Buffers.constructor | fs/buffer.c:316-351 | All buffers free, nothing hashed |
| BufferCache.Buffers.RemoveFromQueues | fs/buffer.c:85-101 | The buffer is in no queue; the free list loses it and keeps its order |
| BufferCache.Buffers.InsertIntoQueues | fs/buffer.c:103-118 | The buffer is last on the free list, and hashed if it has a device |
| BufferCache.Buffers.FindBuffer | fs/buffer.c:120-128 | Finds a block's buffer if and only if there is one |
| BufferCache.Buffers.SyncDev | fs/buffer.c:66-80 | Everything dirty on the device is written, and nobody reads a difference |
| BufferCache.Buffers.SysSync | fs/buffer.c:51-64 | Afterwards the disk alone holds every block as it reads |
| BufferCache.Buffers.GetHashTable | fs/buffer.c:137-151 | One more hold on the buffer of a cached block |
| BufferCache.Buffers.ScanFree | fs/buffer.c:190-203 | The first buffer of the free list that nobody holds, or the first of all |
| BufferCache.Buffers.GetBlk | fs/buffer.c:172-279 | A hit changes only a count; a miss gives one victim to the block, moves it to the end of the free list, and nobody reads a difference |
| BufferCache.Buffers.Bread | fs/buffer.c:292-305 | A held, up-to-date buffer of the block; or, only for a block that the disk cannot read, a failed read and no hold |
| BufferCache.Buffers.Forget | fs/bitmap.c:61-72 | An unheld block is dropped from the cache; a held one is held once more |
| BufferCache.Buffers.Fill | fs/bitmap.c:108-113 | The end of new_block: the block is filled without being read |
| BufferRuns.RoomEnough | fs/buffer.c:190-203 | With fewer blocks open than buffers, getblk never has to take a buffer in use |
| BufferRuns.Clients.Open | fs/buffer.c:292-305 | bread returns what a disk without a cache holds; it fails only for a block that the disk cannot read |
| BufferRuns.ReadsLatest | fs/buffer.c:292-305 | What is read from a block is what was stored there last, whatever was opened, closed and synced between |
| BufferRuns.HoldsCounted | fs/buffer.c:281-305 | Over every run a block is held as often as it was opened and not yet closed |
| BufferRuns.Clients.Sync | fs/buffer.c:51-64 | sync changes nothing that can be read and makes the disk agree |
| BufferRuns.Clients.Run | fs/buffer.c:51-305 | Every run of opening, looking, writing, closing, creating, discarding and syncing is a run on a disk without a cache, whose reads fail only for unreadable blocks |
| BufferRaces.StepSound | fs/buffer.c:172-279 | Every step between two places where a process may sleep keeps hash table, free list and counts right, unless it puts back a buffer that others hold; then a count is wrong |
| BufferRaces.StepKept | fs/buffer.c:189-203 | Buffers in use stay what they are in a step if and only if it is not a scan that takes a head in use, for another block or dirty |
| BufferRaces.KeptIff | fs/buffer.c:172-279 | Over every interleaving: every holder and waiter finds its block in its buffer throughout, if and only if there is no such scan |
| BufferRaces.CountedIff | fs/buffer.c:254-270 | Over every interleaving: counts are exact throughout if and only if no process that lost the race puts back a buffer that others hold |
| BufferRaces.Survives | fs/buffer.c:85-279 | Until such a putting back, whatever scans take: no block has two hashed buffers, the free list is a ring of exactly the buffers that nobody has taken out, counts are exact, and no release panics |
| BufferRaces.ScanEnds | fs/buffer.c:189-203 | A scan ends, also when it goes on from a buffer that has left the free list |
| BufferRaces.TwoHolders | fs/buffer.c:189-203 | A run from boot in which a scan takes a head in use while another buffer is free, and two processes then hold one block in different buffers |
| BufferRaces.CountLost | fs/buffer.c:254-270 | A run from boot in which a buffer in use is put back with count 0, so that its holder panics on release |
| BufferRaces.RacesLost | fs/buffer.c:172-279 | Over every interleaving without a scan that takes a head in use: holders of one block hold one buffer, the one that find_buffer finds, and no buffer in use is put back |
| BufferRaces.WaitedFor | fs/buffer.c:137-151 | In such an interleaving a buffer that a process waits for in get_hash_table is still its block's: the re-check does not fail |
| BufferRaces.LoserFinds | fs/buffer.c:262-270 | A process that loses the race puts its buffer back and next finds the winner's |
| Terminal.RollUpThenDown | kernel/console.c:82-155 | Rolling up and back down blanks the lines that left the region and returns all others |
| Terminal.LineFeeds | kernel/console.c:157-165 | n line feeds on the last line of a full-screen region roll the screen by n |
| Terminal.FeedDecimal | kernel/console.c:474-480 | The digits of a number set the parameter to that number |
| Terminal.CursorAddressing | kernel/console.c:516-520 | ESC [ row ; column H moves the cursor there, from any state between sequences, and changes nothing on the screen |
| TerminalBytes.Printed | kernel/console.c:412-423 | A printable byte is the low half of the cell at the cursor, the attribute the high half; other cells are kept and the cursor is one further |
| TerminalBytes.PrintedNext | kernel/console.c:413-423 | Past the edge it is the first cell of the next line |
| TerminalBytes.PrintedRolled | kernel/console.c:413-423 | Past the edge of the last line of the region, the region is rolled up first |
| TerminalBytes.Backspace | kernel/console.c:432-436 | Byte 8 moves the cursor left, unless it is at the edge |
| TerminalBytes.Tabbed | kernel/console.c:437-446 | Byte 9 moves it to the next multiple of 8, or, past the edge, to the next line |
| TerminalBytes.CarriageReturn | kernel/console.c:428-429 | Byte 13 moves it to the start of the line |
| TerminalBytes.LineFed | kernel/console.c:426-427 | Bytes 10 to 12 move it down, or roll the region up |
| TerminalBytes.RubbedOut | kernel/console.c:430-431 | The erase character blanks the cell before the cursor |
| TerminalBytes.Ignored | kernel/console.c:411-448 | All other bytes do nothing |
| TerminalBytes.EscapeMoves | kernel/console.c:449-460 | ESC D, M, E and Z |
| TerminalBytes.DisplayErased | kernel/console.c:521-523 | ESC [ J, cell by cell: 0 from the cursor on, 1 before it, 2 everything |
| TerminalBytes.LineErased | kernel/console.c:524-526 | ESC [ K, the same within the line |
| TerminalBytes.MovedUp | kernel/console.c:488-491 | ESC [ A moves up by its argument, if that is on the screen |
| TerminalBytes.MovedDown | kernel/console.c:492-495 | ESC [ B moves down |
| TerminalBytes.MovedRight | kernel/console.c:496-499 | ESC [ C moves right |
| TerminalBytes.MovedLeft | kernel/console.c:500-503 | ESC [ D moves left |
| TerminalBytes.MovedLinesDown | kernel/console.c:504-507 | ESC [ E moves down, to the start of the line |
| TerminalBytes.MovedLinesUp | kernel/console.c:508-511 | ESC [ F moves up, to the start of the line |
| TerminalBytes.MovedTo | kernel/console.c:484-515 | ESC [ G names the column and ESC [ d the line |
| TerminalBytes.MovedToCell | kernel/console.c:516-520 | ESC [ H and f name line and column, also where they are missing or off the screen |
| TerminalBytes.LinesOpened | kernel/console.c:527-529 | ESC [ L, cell by cell: lines open at the cursor and the rest moves down |
| TerminalBytes.LinesClosed | kernel/console.c:530-532 | ESC [ M: lines close and the rest moves up |
| TerminalBytes.CellsClosed | kernel/console.c:533-535 | ESC [ P: cells of the line close at the cursor |
| TerminalBytes.CellsOpened | kernel/console.c:536-538 | ESC [ @: cells of the line open at the cursor |
| TerminalBytes.OneColour | kernel/console.c:254-266 | ESC [ m with one argument or none sets the attribute that it means |
| TerminalBytes.MoreColours | kernel/console.c:254-266 | Each further argument that means something overrides those before it |
| TerminalBytes.RegionSet | kernel/console.c:542-550 | ESC [ r sets the region if there is at least a line in it, and leaves the cursor |
| TerminalBytes.CursorSaved | kernel/console.c:551-556 | ESC [ s saves the cursor and ESC [ u goes back to it |
| TerminalBytes.Questioned | kernel/console.c:471-472 | A question mark before the argument makes no difference |
| TerminalBytes.Unknown | kernel/console.c:483-558 | Other final bytes change nothing |
| Terminal.SaveIff | kernel/console.c:461-462 | ESC 7 saves the cursor if and only if it is in column 55, unless it is the saved one already |
| Terminal.RestoreIff | kernel/console.c:463-464 | ESC 8 restores the cursor if and only if it is in column 56, unless it is the saved one already |
| Console.Screen.constructor | kernel/console.c:573-586 | The boot window with the cursor where the BIOS left it if and only if that is on the screen; otherwise the cursor has address 0, outside video memory |
| Console.Screen.ScrUp | kernel/console.c:82-136 | All three ways to scroll (move the window, move it and copy back, move the lines of a region) look the same, and every store is inside the window |
| Console.Screen.ScrDown | kernel/console.c:138-155 | The lines of the region move down by one |
| Console.Screen.GotoXY | kernel/console.c:63-70 | Moves the cursor only to a cell of the screen |
| Console.Screen.Lf | kernel/console.c:157-165 | Next line, or scroll at the end of the region |
| Console.Screen.Ri | kernel/console.c:167-175 | Previous line, or scroll down at the start of the region |
| Console.Screen.Del | kernel/console.c:183-190 | Rubs out the cell before the cursor |
| Console.Screen.CsiJ | kernel/console.c:192-220 | Erases to the end, from the start, or all of the display |
| Console.Screen.CsiK | kernel/console.c:222-252 | The same for the line |
| Console.Screen.InsertChar | kernel/console.c:291-303 | Opens one cell at the cursor |
| Console.Screen.DeleteChar | kernel/console.c:318-331 | Closes one cell at the cursor |
| Console.Screen.InsertLine | kernel/console.c:305-316 | Opens one line at the cursor, and restores the region |
| Console.Screen.DeleteLine | kernel/console.c:333-344 | Closes one line at the cursor, also where scrup moves the window |
| Console.Screen.CsiAt | kernel/console.c:346-354 | Opens as many cells as asked for, at most a line |
| Console.Screen.CsiM | kernel/console.c:376-384 | Closes as many lines as asked for, at most a screen |
| Console.Screen.CsiColour | kernel/console.c:254-266 | The last parameter that means something sets the attribute |
| Console.Screen.ConWrite | kernel/console.c:402-561 | For every byte stream, answers to ESC Z not echoed, the visible screen, cursor, region and parser state are those of the grid terminal, and no store to video memory misses the screen current at that store |
| WaitQueue.StepSeparate | kernel/sched.c:298-389 | No task is on two chains, or twice on one |
| WaitQueue.StaysQueued | kernel/sched.c:298-333 | A sleeper stays on its queue until the queue is woken |
| WaitQueue.SleepsFirst | kernel/sched.c:316-318 | A task that goes to sleep is first of its queue, with those that slept there behind it |
| WaitQueue.SleepsOn | kernel/sched.c:298-333 | Until its queue is woken it stays there, behind those that came later, and never goes on |
| WaitQueue.TurnComes | kernel/sched.c:298-389 | After the wake-up it can go on exactly when those that came after it have run |
| WaitQueue.SleepersStand | kernel/sched.c:316-318 | In the pointers, a task on a queue is not runnable |
| WaitQueue.ChainDrains | kernel/sched.c:328-332 | A woken chain only gets shorter, from its front |
| WaitQueue.NoLostWakeUp | kernel/sched.c:298-389 | After wake_up, until all who slept there have run, the next of them can run; they run in order, and when as many have run as slept, all have |
| WaitQueue.RunnableLeads | kernel/sched.c:298-389 | A task inside sleep_on is runnable if and only if it leads a woken chain |
| WaitQueue.Tasks.SleepBegin | kernel/sched.c:298-321 | The queue points to the task, the task remembers who was first, it is not runnable, and nothing else changes |
| WaitQueue.Tasks.Resume | kernel/sched.c:323-333 | The task that it remembered, if any, can run, and nothing else changes |
| WaitQueue.Tasks.WakeUp | kernel/sched.c:379-389 | The first of the queue can run, and the queue is empty; it becomes a woken chain |
| WaitQueue.Tasks.Run | kernel/sched.c:298-389 | Any interleaving of sleeping, waking and resuming does to the pointers what it does to the chains |
| Scheduler.Scheduler.Schedule | kernel/sched.c:175-260 | Ends after at most one recharge; chooses a runnable task with the largest slice, of the highest number; task 0 if and only if none is runnable |
| Scheduler.Scheduler.PickNext | kernel/sched.c:222-242 | The scan finds that task |
| Scheduler.Scheduler.CheckAlarms | kernel/sched.c:186-206 | Past alarms are signalled and signalled tasks leave interruptible sleep |
| Scheduler.Scheduler.RechargeAll | kernel/sched.c:250-260 | Every task gets its priority and half of what it had |
| Scheduler.Scheduler.DoTimer | kernel/sched.c:400-435 | A tick costs the running task one unit, and in user mode with none left the processor |
| Scheduler.Scheduler.GiveUp | kernel/sched.c:278-284 | A task that sleeps gives way to the one schedule chooses |
| Scheduler.Scheduler.Nice | kernel/sched.c:468-482 | A priority never drops to 0 |
| Scheduler.RechargedOk | kernel/sched.c:250-260 | A recharge gives some runnable task a slice and keeps slices below twice the priority |
| Scheduler.RechargeIs | kernel/sched.c:250-260 | A recharge leaves half of the slice, rounded down, and adds the priority |
| Scheduler.AlertIs | kernel/sched.c:186-206 | A past alarm is signalled once, and exactly a signalled task in interruptible sleep starts to run |
| Scheduler.GivesUp | kernel/sched.c:278-284 | A task that gives up the processor is in the state it asked for, and another runs |
| Scheduler.WakesUp | kernel/sched.c:379-389 | A woken task can run; sys_nice lowers one priority by what is asked, if that leaves it positive |
| Scheduler.RangeKept | kernel/sched.c:175-435 | With fixed priorities slices stay in range whatever happens |
| Scheduler.NiceInRange | kernel/sched.c:468-482 | sys_nice keeps the slice in range if and only if it is not too long for the new priority |
| Scheduler.EventMeasure | kernel/sched.c:175-435 | No event makes a waiting task's remaining wait longer, and every user tick makes it shorter |
| Scheduler.BoundedWait | kernel/sched.c:175-435 | A task that stays runnable is chosen within 2 B user ticks, B the sum of the largest slices, whatever others do |
| HdRequests.SubmitKeeps | kernel/hd.c:350-389 | A submission keeps the order of the queue, never displaces the first two, and is counted |
| HdRequests.InOrderIs | kernel/hd.c:66-70 | IN_ORDER is a strict order: sectors decide, and nothing goes before what is further in drive, cylinder or head |
| HdRequests.SortedIff | kernel/hd.c:366-377 | A sorted queue stays sorted if and only if the new job is in order with both neighbours somewhere |
| HdRequests.Unsorted | kernel/hd.c:366-377 | A sorted queue and a job for which there is no such place |
| HdRequests.InterruptKeeps | kernel/hd.c:254-343 | An interrupt finds its handler and its job and leaves the other jobs alone |
| HdRequests.InterruptIs | kernel/hd.c:254-343 | Which interrupts end a job, and well or badly; what its buffer is then: up to date and clean, or not up to date; what else is counted, and what is started next |
| HdRequests.FlagsStay | kernel/hd.c:254-418 | Over every run a buffer for which no job ends keeps its flags |
| HdRequests.LastEnd | kernel/hd.c:254-418 | Over every run the flags of a buffer say how its last job ended |
| HdRequests.InterruptWorks | kernel/hd.c:254-343 | An interrupt makes progress if and only if it does not issue a write again without a data request, whatever errors occur |
| HdRequests.Drains | kernel/hd.c:254-343 | Without new submissions, and with data requests granted, the queue is empty after 14 interrupts for each job and one more, whatever errors occur, and each submission was finished exactly once |
| HdRequests.NeverGranted | kernel/hd.c:326-334 | A write whose data request never comes is issued again at every interrupt of any number, and nothing changes |
| HdRequests.DrainsOrWaits | kernel/hd.c:254-343 | However errors and data requests fall, enough interrupts empty the queue or come to a write that is issued again without a data request |
| HdRequests.SubmitLocks | kernel/hd.c:391-418 | Locks agree with the queue after a submission if and only if the buffer was not locked before |
| HdRequests.InterruptLocks | kernel/hd.c:254-313 | Finishing a job unlocks exactly its buffer |
| HdRequests.RunCounts | kernel/hd.c:254-418 | Over every run each submission waits in the queue or was finished once |
| HdQueue.LinkIn | kernel/hd.c:366-377 | Linking a slot in behind another one inserts its job at that place |
| HdQueue.LinkOut | kernel/hd.c:291-293 | Freeing the first slot removes the first job |
| HdQueue.Disks.RwAbsHd | kernel/hd.c:391-418 | Takes a free slot and submits; without one, only the buffer is locked |
| HdQueue.Disks.AddRequest | kernel/hd.c:350-389 | The slots in use are exactly those on the acyclic list; the new one is at the first suitable place after the first two |
| HdQueue.Disks.BadRwIntr | kernel/hd.c:254-266 | Counts an error, or gives the request up after too many, and resets the controller |
| HdQueue.Disks.OnInterrupt | kernel/hd.c:254-343 | An interrupt on the slots is the interrupt on the jobs |
| ArgStrings.FlatAt | fs/exec.c:66-90 | The k-th of the strings in a row is where the ones before it end |
| ArgStrings.CStrIs | fs/exec.c:79-81 | A string is what lies before the first null byte |
| ArgStrings.LongBytes | fs/exec.c:78-88 | Words in user memory have the lowest byte first |
| ExecArgs.Exec.Count | fs/exec.c:96-106 | The number of pointers before the null pointer of the table in user memory; no table counts 0 |
| ExecArgs.Exec.CopyString | fs/exec.c:124-144 | One string and its null lie directly below the previous ones; it stops exactly where the specification does: no memory, a missing page, or outside `page[]` |
| ExecArgs.Exec.CopyStrings | fs/exec.c:117-147 | The strings of a table in order, directly below `p`, as far as the specification says |
| ExecArgs.StartsIff | fs/exec.c:453-459 | A program starts if and only if its strings leave a byte of the area free and there are pages for them |
| ExecArgs.FullArea | fs/exec.c:453-459 | Strings that fill the area exactly are refused |
| ExecArgs.TooLong | fs/exec.c:127-141 | With memory enough, strings longer than the area are not refused: a page that is not there, or none of the 32, is used |
| ExecArgs.NoEnvironment | fs/exec.c:453-459 | When the environment finds no memory the arguments are copied at address 0, which ends outside `page[]` unless there are none |
| ExecArgs.Exec.PutTable | fs/exec.c:79-88 | A null-ended table whose entries point to the strings |
| ExecArgs.Exec.CreateTables | fs/exec.c:66-90 | argc, argv and envp decode to the strings; tables and strings do not overlap |
| ExecArgs.Exec.Arguments | fs/exec.c:453-483 | From the two tables in user memory: the program starts exactly when the strings leave a byte free and there are pages, and then finds the original strings, in order; refused programs give their pages back |
| PipeRing.RingTake | fs/pipe.c:30-30 | Advancing the tail takes the oldest byte |
| PipeRing.RingAdd | fs/pipe.c:59-60 | Storing at the head adds a byte at the end |
| PipeRing.PipeInode.ReadPipe | fs/pipe.c:18-35 | Takes min(count, available) bytes and wakes everybody; sleeps only on an empty pipe with a writer; returns 0 without one |
| PipeRing.PipeInode.WritePipe | fs/pipe.c:41-65 | -1 and a signal without a reader, else the write loop |
| PipeRing.PipeInode.WriteLoop | fs/pipe.c:49-64 | Puts bytes in until all are in or the pipe is full; then sleeps, or returns what was written |
| PipeRing.PipeInode.Do | fs/pipe.c:18-65 | Every step on the ring is the step on the byte sequence |
| Pipes.StepInv | fs/pipe.c:18-65 | A sleeping reader means an empty pipe, a sleeping writer a full one |
| Pipes.ReadIs | fs/pipe.c:18-35 | A reader sleeps exactly on an empty pipe with a writer, and otherwise takes what it wants, or all there is, from the front and returns how much |
| Pipes.WriteIs | fs/pipe.c:41-65 | A writer sleeps exactly when its data does not fit and the other end is open, and then the pipe is full |
| Pipes.CloseIs | fs/pipe.c:20-25 | With an end closed there is a user less, everybody is awake to see it, and no byte has moved |
| Pipes.RunInv | fs/pipe.c:18-65 | Over every interleaving: delivered bytes followed by those in the pipe are the accepted ones, at most 4095 are buffered, and reader and writer never both sleep |
| Pipes.RunWrote | fs/pipe.c:41-65 | Over every interleaving: what a process has put into the pipe is, in order, `data[..v]` for each of its writes that returned `v`, then what it has put in of a write that has not returned; the accepted bytes are these turns in order |
| Pipes.RunCounts | fs/pipe.c:41-65 | Over every interleaving: the values returned and the bytes of unfinished writes add up to what the pipe has accepted |
| Pipes.ShortIff | fs/pipe.c:46-57 | A write returns less than it was given if and only if the other end is closed and the rest does not fit, with a signal; -1 exactly when it is closed at the start |

## Left out

- Boot code, descriptor tables, the assembly entry paths, floating point and TLB flushes: hardware only. Inline assembly inside
  the modelled functions (bit search, block copies, string moves) is modelled by its meaning.
- Stores by task 0 and pages it shares: isolation is stated for tasks 1 to 63, with low pages as constants.
- Memory.Mm.CopyPageTables: that the child has no tables in the range, where the source panics half way, is a precondition; it
  holds for every call made by `copy_mem`. A copy of task 0 is one directory slot.
- Memory.Mm.FreePageTables: directory slots 1 to 15, which are the kernel's, and ranges past the end of the
  directory are excluded; no caller passes them.
- Memory.Mm.PutPage: the two warnings it prints are not modelled; argument pages of exec are mapped in `ExecArgs` by moving their
  bytes, and are not part of the runs of `Fork`.
- Fork.Tasks.ExitTask: a process without a father is released at once; in the model that is an exit followed by a reap. Files,
  signals and the parent's wake-up are not modelled.
- Which zones, or cached blocks, cannot be read does not change by itself; a zone that is allocated can be read, since
  `new_block` clears its buffer. A read that fails once and succeeds later is not modelled.
- Inodes of one file system are all in memory; `iget`, `iput`, inode allocation, times and permissions are not modelled.
- FileTree.FileSystem.FreeBlock: a block whose buffer is in use, which the source leaves allocated, does not occur, because blocks
  are reached directly in `FileTree`; `BufferCache` has that case.
- FileTree.FileSystem.FileWrite: positions beyond the largest file are excluded; `_bmap` panics there. The same holds for `FileRead`.
- DirTree.AddEntry: a directory of the largest possible size with no free entry is excluded; `_bmap` panics there. Where the
  source goes on with a null buffer pointer, the operation ends with `Crash`; what the source reads there is not modelled. Holes
  in directories are excluded.
- Path walking, `sys_mkdir`, `sys_rmdir`, link counts and `open_namei`: sequences of the directory operations and of calls into
  inode code that is not part of this model.
- BufferCache.Buffers.GetBlk: one process at a time. What the cache shows while several processes are inside `getblk` is not
  claimed, since the source unhashes a dirty buffer before it has written it; `BufferRaces` has identities, lists and counts only.
- BufferCache.Buffers.InsertIntoQueues: the store through NULL when the hash chain was empty is left out.
- BufferRaces.Survives: hash chains are sets of buffers in this module; there are more buffers than tasks. What happens after a
  buffer in use has been put back, when a buffer can be taken out of the queues twice, is not claimed.
- BufferCache.Buffers.Brelse: releasing a buffer that nobody holds is a panic and excluded. Counts do not wrap at 256.
- WaitQueue.NoLostWakeUp: only for `sleep_on`; `interruptible_sleep_on` can leave a sleeper outside the chain.
- Scheduler.BoundedWait: a fixed set of tasks with fixed priorities; forks, exits and `sys_nice` during the wait are excluded.
  Priorities and counters are unbounded integers.
- HdRequests.Drains: with the data request granted; `HdRequests.DrainsOrWaits` has the other case. Data after a retry in the
  middle of a transfer, which the source sends to the wrong half of the buffer, and the panics of `hd_out` for bad drives and
  heads, are not modelled.
- HdQueue.Disks.RwAbsHd: atomic with respect to interrupts.
- ExecArgs.Exec.Arguments: where the source leaves `page[]` or uses a page that is not there the model stops and says so; what
  the source overwrites then is not modelled. A failing `put_page` in `change_ldt` is left out. ELF loading is not modelled.
- PipeRing.PipeInode.ReadPipe: creation and closing of the pipe inode are reduced to its use count; user memory is a sequence.
- Console.Screen.ConWrite: answers to ESC Z are counted. When the terminal echoes, the source enters `con_write` again for them, in
  the middle of the stream; that is left out, as are the cursor register and port output. The screen is 80 by 25, as in the source.
- Word-sized arithmetic is explicit where it matters (page-table entries, `mem_map`, zone numbers, console parameters); other integers
  are unbounded.
- `kernel/vsprintf.c`, `kernel/mktime.c`, `kernel/tty_io.c`, `fs/super.c`, `fs/stat.c`, `kernel/sys.c` and the system-call wrappers:
  conversions, tables and calls into the parts modelled.
