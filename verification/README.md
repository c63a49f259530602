# A verified model of a small x86 kernel

This project models the parts of the kernel whose correctness depends on many functions at once,
and proves what they are for:

- **The file system** (`Bitmap`, `Bytes`, `BlockMap`, `Volume`, `FileData`, `Directory`, `DirUpdate`,
  `DirDelete`, `Namespace`, `InodeTable`, `Layout`, `Format`). A partition is a sequence of 512-byte sectors,
  a block bitmap and a table of inodes with 12 direct pointers and one table of 128. A file stands for a byte
  sequence, a directory for a map from names, and the bitmap for the set of sectors that inodes own.
- **The mounted partition** (`Backing`, `Mounted`, `Resolve`, `Fates`, `Snapshots`, `Syscalls`, `VolumeRuns`,
  `PathFates`). One invariant, `InOrder`, ties together the directory tree, the contents of files, the block
  bitmap and the records of the inode table: every directory and file of the view is on the disk, every inode
  other than the root is named exactly once, no directory has more than one block behind the direct ones, the table holds
  every inode, and the marked sectors without owner are counted.
  A formatted partition is in order; `sys_open` with `O_CREAT`, `sys_mkdir`, `sys_unlink`, `sys_rmdir` and a
  write, given by path, find what they need in it and keep it, for every sequence of calls, up to a call that
  the code itself gets wrong. Which calls these are is computed from the partition before the call
  (`CreateFate`, `MkdirFate`, `UnlinkFate`, `RmdirFate`, `AppendFate`), and `PathFates` says it by the names of
  the path, the tree, the slots of directories and the free sectors.
- **Failing inputs** (`VolumeExamples`, `TreeExamples`, `ProcessExample`): one input each for the deviations
  listed below.
- **Paths** (`Paths`, `Tree`, `Cwd`, `TreeOps`, `Washing`, `Reaching`). `wash_path` as a
  transformation that keeps what a path means, `sys_getcwd` and `search_file` as a printer and a resolver that undo each other, and the
  calls that change the directory tree.
- **Threads** (`Scheduler`, `Sync`, `SyncInv`, `LockInv`, `Interleaving`, `LockCounts`, `Turns`,
  `Kernel`). The scheduler, semaphores and locks as a transition system with a program counter per thread, and safety over every
  interleaving of any number of threads.
- **Processes** (`Processes`, `ProcessInv`, `ProcessRuns`, `ProcessLives`, `ProcessTable`). fork, exit and
  wait, cut into steps wherever a call can be switched out.
- **Rings and pipes** (`Ring`, `RingRuns`, `Pipes`, `PipeInv`, `PipeRuns`, `Descriptors`). A first-in-first-out
  ring of 63 bytes with two waiter slots, and the count that says when a pipe's page can go.
- **Memory** (`Pages`, `PageInv`, `Heap`, `HeapInv`, `HeapOps`, `HeapRuns`, `HeapRestored`, `Allocator`,
  `ForkPages`). Two pools of page frames, page tables, the arena heap on top, and the copying and release
  of an address space by fork and exit.
- **The linked list** (`LinkedList`) that all the queues use.

Code that changes things in place is a class or a method with loops, proved equal to a function or a
relation on values; the theorems over runs are about those. A snapshot (`Fs`, `State`, `Heap`, `Tree`)
is a value.

`ASSERT` is compiled out in this kernel, so an assertion is never a check here: it is proved to hold
(the slot `ioq_wait` fills is empty, the list `schedule` pops is not, `sys_exit` finds its parent) or it
is shown when it fails.

Where the code does not do what it is meant to do, the model follows the code, and a theorem says
exactly when the two part:

- a write that ends at exactly 71680 bytes marks one sector that no inode owns;
- `i_size + count` in `file_write` and `fd_pos + count` in `file_read` are sums modulo 2^32;
- `bitmap_scan` for more than one bit looks at the bit behind the bitmap;
- the block bitmap of a formatted partition has one clear bit more than there are data sectors, and with
  fewer than 8 data sectors the bit of the root directory is clear;
- `inode_sync` keeps only 8 bits of the inode number: the record of inode 256 goes over that of the root;
- `sync_dir_entry` starts a second indirect table and loses the first, also when it then fails for want of a
  sector; `delete_dir_entry` that empties an indirect block does not return, or drops the whole table if all
  128 blocks are there, which they never are on a partition built by these calls;
- `sys_mkdir` keeps the sector of a directory it could not enter into its parent;
- `sys_rmdir` of a path that ends in "." returns 0 and frees a directory that its parent still lists;
- `wash_path` forgets a name that is missing, or is a file, if a later ".." climbs over it;
- `sys_unlink` of a path that goes on behind a file removes the file;
- `search_file` of a path of slashes returns an entry it never filled in;
- `pipe_write` takes the ring to be one byte larger than it is;
- a pipe's count is 2 whatever number of descriptors the process had free and still names the slot, closing
  a file that another process shares empties the slot under it, and an open that is refused keeps its slot;
- `lock_release` by a thread that is not in the lock breaks the lock;
- an exiting process can hand a child that hangs to an init that waits, without waking it;
- the exit status passes through an `int8_t`;
- the number of free pages is kept in a `uint16_t`, so of more than 258 MB of memory most is not used;
- `malloc_page` that runs out of frames leaves virtual bits set, and a page table that could not be allocated
  is not noticed.

## Model

| member | source | states |
|---|---|---|
| `Bitmap.ScanTest` | lib/kernel/bitmap.c:12-16 | the test of byte and mask reads exactly bit i of the row of bits |
| `Bitmap.Set` | lib/kernel/bitmap.c:55-65 | the byte operation sets or clears exactly bit i and no other |
| `Bitmap.Scan` | lib/kernel/bitmap.c:18-53 | the result is the start of the leftmost run of cnt clear bits, or -1 iff there is none, where the bit behind the end is whatever memory holds there; the page layer and the file system take that bit as used |
| `Bitmap.ScanExact` | lib/kernel/bitmap.c:35-51 | for cnt > 1 the scan agrees with the bitmap alone iff the bit behind it is used, or a run exists inside, or the last cnt - 1 bits are not all clear; otherwise it answers the run that sticks out by one |
| `Bitmap.ScanOverrunExample` | lib/kernel/bitmap.c:35-51 | one clear byte with a clear bit behind it: nine bits are "found" in eight |
| `BlockMap.AppendChunk` | fs/file.c:327-352 | writing a chunk at the end of the stored bytes appends exactly the chunk to what the block map and the disk stand for |
| `Volume.AllocBlock` | fs/file.c:66-73 | the lowest free sector, marked; -1 iff no bit is clear |
| `Volume.GrewKeepsValid` | fs/file.c:228-326 | an inode that takes only free sectors and writes only its own keeps all ownership disjoint, and leaks exactly the sectors it marked without owning |
| `Volume.ShedKeepsValid` | fs/dir.c:286-321 | an inode that gives up sectors it owned, clearing exactly their bits, keeps the volume valid and leaks nothing |
| `FileData.ExtendMap` | fs/file.c:228-326 | in all four direct and indirect cases every block up to the new size is mapped, distinct and was free, old blocks stay, and all_blocks lists the blocks the copy needs; it fails iff there are too few free sectors |
| `FileData.CopyOut` | fs/file.c:327-352 | the copy loop writes the buffer behind the old bytes, across block boundaries, and touches only sectors of the file |
| `FileData.TooLongExact` | fs/file.c:198-201 | the test of the length, a sum modulo 2^32, refuses exactly the writes past 71680 bytes, unless the sum wraps around |
| `FileData.TooLongExample` | fs/file.c:198-201 | a count for which the sum wraps and the test lets the write pass |
| `FileData.FileWrite` | fs/file.c:197-357 | for every buffer a uint32_t can measure: overruns iff i_size + count wraps; answers -1 iff the file would pass 71680 bytes, changing nothing, or sectors are short, with the bytes as they were; otherwise content c becomes c + buf, every other file keeps its bytes, ownership stays exact, and one sector is lost iff the final size is 71680; fd_pos ends at i_size - 1; on the inodes in memory, and Backing.SyncExact says for which numbers the table follows |
| `FileData.NeedExact` | fs/file.c:228-326 | the sectors that a write must find free are those the file has afterwards and did not have before, table included, and one more if it ends at 71680 |
| `FileData.ReadSizeExact` | fs/file.c:371-380 | the number of bytes to read is at most what is left, and then what is asked for or left, iff fd_pos lies in the file and fd_pos + count does not wrap around |
| `FileData.ReadSizeExample` | fs/file.c:371-380 | a count for which the sum wraps and more than the file holds is read |
| `FileData.FileRead` | fs/file.c:369-530 | from any position: exactly the slice of the content, across the direct/indirect border, and -1 iff at the end; it overruns iff fd_pos lies behind the end or fd_pos + count wraps |
| `Directory.EntryRoundTrip` | fs/dir.c:142-147 | a 24-byte directory entry decodes to what was encoded |
| `Directory.SearchDirEntry` | fs/dir.c:30-83 | the entry in the first slot, over all blocks, that carries the name, or none |
| `Directory.SearchIsLookup` | fs/dir.c:30-83 | on a directory in order the search, which does not test f_type, is lookup in the map the directory stands for |
| `Directory.DirRead` | fs/dir.c:93-140 | the live entry number dir_pos / 24 in slot order, past holes and absent blocks, or NULL iff dir_pos has reached i_size; the unbounded block index stays inside the map |
| `Directory.ListAll` | fs/dir.c:93-140 | reading after a rewind until NULL gives every live entry exactly once, in slot order |
| `DirUpdate.SyncDirEntry` | fs/dir.c:150-230 | the entry goes into the first hole or absent direct block, or into a new table; it fails iff the sectors this needs (none, one or two) are not there |
| `DirUpdate.SyncRefines` | fs/dir.c:150-230 | a successful call adds exactly the name to the map, keeps i_size exact and no block idle, as long as a direct block has room or there is no indirect table yet |
| `DirUpdate.OverflowExact` | fs/dir.c:158-205 | with full direct blocks the map gains the name and loses nothing iff the directory had no block behind the direct ones |
| `DirDelete.ScanSector` | fs/dir.c:262-279 | one pass finds the matching slot, the number of entries that are not dots, and whether "." is here |
| `DirDelete.DeleteDirEntry` | fs/dir.c:232-330 | the match is cleared, or its block dropped when it was the last entry of a block without dots; from an indirect block with an absent sibling the call never returns |
| `DirDelete.DeleteRefines` | fs/dir.c:232-330 | on any directory exactly the name of the inode leaves the map, or nothing changes iff no entry names it, as long as no indirect block is emptied |
| `DirDelete.DeleteExact` | fs/dir.c:232-330 | delete_dir_entry removes the entry, or reports rightly that there is none, iff it empties no indirect block; otherwise it never returns iff an indirect block is absent |
| `DirDelete.TruncatedLoses` | fs/dir.c:296-322 | when it returns all the same, the entries of the direct blocks are all that is left, at least 127 others are lost with the match, i_size is wrong, and exactly the sectors of the other indirect blocks stay marked without owner |
| `DirDelete.EmptyIsExact` | fs/dir.c:332-335 | i_size is two entries iff the map holds only the two dots, and then only block 0 is there, as dir_remove assumes |
| `Namespace.InodeRelease` | fs/inode.c:147-186 | exactly the sectors the inode owns, its indirect table included, become free, and its number too |
| `Namespace.AllocInode` | fs/file.c:57-64 | the lowest free inode number, or -1 iff all 4096 are taken |
| `Namespace.FileCreate` | fs/file.c:95-168 | fails iff file_table is full, no inode number is left or the directory cannot take the name, changing nothing unless a second table was begun; otherwise an empty file with the lowest free number is named in its directory and every other file and directory is as before, or a second table has replaced the first; this is on the inodes in memory, and Backing.EnrolledExact says for which numbers the table follows |
| `Namespace.Mkdir` | fs/fs.c:500-573 | fails without effect iff no number or no sector is left, fails and loses one sector iff the parent cannot take the name, and otherwise makes a directory of the two dots that its parent names; what a second table does is said exactly; on the inodes in memory, as for a file |
| `Namespace.MkdirFailed` | fs/fs.c:545-571 | the failure that gives back the inode number and not the sector: one more marked sector that nobody owns, all contents as before |
| `Namespace.Unlink` | fs/fs.c:388-400 | if no indirect block of the directory is emptied, the name leaves it and exactly the sectors of the file, and at most one of the directory, become free; otherwise the call hangs or tears the table off |
| `Namespace.Rmdir` | fs/fs.c:632-640 | refused, changing nothing, iff the directory holds more than the dots; otherwise it and its entry are gone, or the call hangs or tears the table off, as for a file |
| `Namespace.BalancedIsLeakFree` | fs/file.c:66-73 | the bitmap marks exactly the owned sectors iff no marked sector is without owner |
| `Layout.SpareSector` | fs/fs.c:65-93 | the data sectors end with the partition, less the sectors by which the first guess at the bitmap was too large; so bit number bit_len is the sector behind the partition iff the guess was right |
| `Layout.BlockBitmap` | fs/fs.c:109-123 | the bits written are exactly bit 0, if there are 8 data sectors or more, and the bits behind bit_len: bit bit_len itself is clear |
| `Layout.PaddingExact` | fs/fs.c:109-118 | the padding is written behind the buffer iff the bitmap is full to its last bit and not shorter than the inode table |
| `Layout.PaddingNeverTaken` | fs/file.c:66-73 | as long as the padding is set a scan sees only the data sectors and the spare bit |
| `Layout.SpareBitTaken` | fs/file.c:66-73 | the spare bit is given out iff every data sector is in use |
| `Layout.SpareSectorExample` | fs/fs.c:113-123 | 4000 sectors: bit 3388 is the first sector behind the partition, and clear |
| `Format.FormattedBits` | fs/fs.c:113-123 | the bits a scan can find clear are those of a formatted partition iff there are at least 8 data sectors |
| `Format.FormatIsBalanced` | fs/fs.c:113-147 | a formatted partition, its spare bit included, marks exactly the root's sector, and its root is an empty directory that can take names |
| `InodeTable.Locate` | fs/inode.c:20-38 | sector and offset are those of byte 76 k, and the two-sector flag is set iff the record crosses a sector border |
| `InodeTable.NodeRoundTrip` | fs/inode.c:46-51 | the 76-byte record decodes to the inode that was encoded |
| `InodeTable.PutRecordOther` | fs/inode.c:53-66 | replacing a record, over one or two sectors, changes that record and no other |
| `InodeTable.SyncLoad` | fs/inode.c:40-111 | what every number loads after a sync: the synced inode at its number mod 256, and everything else as before |
| `InodeTable.SyncExact` | fs/inode.c:40-67 | a synced inode loads back iff its number is below 256 or the record held it already, and no other record changes iff the same holds of the record it hits |
| `InodeTable.SyncNarrowingExample` | fs/inode.c:41 | inode 256 is written over the record of inode 0 |
| `InodeTable.EraseClears` | fs/inode.c:128-146 | inode_delete clears all 76 bytes of the record, also across two sectors, so an empty inode loads |
| `InodeTable.Store.InodeSync` | fs/inode.c:40-67 | read, replace and write back of one or two sectors is the record update |
| `InodeTable.Store.InodeOpen` | fs/inode.c:70-111 | the cached inode with one more opener, or the loaded record with one, at the head of the cache |
| `InodeTable.Store.InodeClose` | fs/inode.c:114-125 | one opener fewer; the inode leaves the cache at zero |
| `InodeTable.After` | fs/inode.c:70-125 | after every history of opens and closes in which a loaded record carries its own number, the cache has at most one entry per number, and its count is opens minus closes |
| `Snapshots.OpensAreLegal` | fs/inode.c:70-125 | on a partition in order, whatever calls lie between, opening inodes that exist and closing none more often than opened is such a history |
| `Backing.BackedReloads` | fs/inode.c:70-111 | if the table holds every inode, reading them all again gives the partition that memory has |
| `Backing.SyncExact` | fs/file.c:353 | one inode changes and is synced: the table holds all inodes iff its number is below 256, or nothing changed and nobody has the record that is hit |
| `Backing.EnrolledExact` | fs/file.c:128-146 | after a new file or directory the table holds every inode iff both numbers are below 256, and the new one is iff a number below 256 was free |
| `Backing.StruckExact` | fs/fs.c:388-400 | after a file or directory was removed the table holds every inode iff the number of the directory it was in is below 256 |
| `Backing.CrowdExample` | fs/inode.c:40-67 | the root and 255 files: the next file has number 256, and the record of the root becomes its record |
| `Mounted.GlobalReady` | fs/fs.c:187-240 | every directory of the view is one that create, mkdir, unlink and rmdir can work on |
| `Mounted.FreeIsUnused` | fs/file.c:57-64 | a number that the inode bitmap gives out is named nowhere in the tree |
| `Mounted.CreateKeeps` | fs/file.c:95-168 | a new file keeps the invariant, on the view with the file |
| `Mounted.MkdirKeeps` | fs/fs.c:500-573 | so does a new directory |
| `Mounted.UnlinkKeeps` | fs/fs.c:388-400 | so does a file that is gone |
| `Mounted.RmdirVolume` | fs/fs.c:632-640 | so does a directory that is gone |
| `Mounted.WriteKeeps` | fs/file.c:197-357 | so does a write, and it adds to the lost sectors what FileWrite says |
| `Snapshots.OrderBalanced` | fs/file.c:66-73 | in an ordered partition the bitmap marks exactly the owned sectors iff no sector was lost |
| `Syscalls.FormatKept` | fs/fs.c:113-147 | a formatted partition with the record of the root is in order, and nothing is lost |
| `Syscalls.Mount.Create` | fs/fs.c:242-294 | by path: refused, changing nothing, iff the path ends in a slash, names something, leads through something missing, or a slot, a number or a sector is wanting; otherwise the tree has exactly the file more, under the last name, and the inode table holds it; or its fate is to break off, and then the directory starts a second indirect table (and the call fails if it gets no sector for it), or no number below 256 is free; unless it breaks off the partition is in order again |
| `Syscalls.Mount.Mkdir` | fs/fs.c:471-573 | the same for a directory, and the sector that is lost when the parent has no room |
| `Syscalls.Mount.Unlink` | fs/fs.c:356-401 | refused, changing nothing, iff the search ends at no regular file or the file is open; otherwise the file at which the search ended is gone with its one name, or the last entry of an indirect block of its directory is hit |
| `Syscalls.Mount.Rmdir` | fs/fs.c:618-646 | refused, changing nothing, iff the path leads to no directory or to one that is not empty; otherwise the directory is gone, or an indirect block is hit; of the root, or of a path that ends in a dot, it returns 0, the inode, its sectors and its number are freed and its record erased, and no entry is removed |
| `Syscalls.Mount.Append` | fs/file.c:170-357 | opening by path and writing: refused, changing nothing, iff no file is there or the file would be too long; otherwise the file has exactly these bytes more, every other file and the tree are as before; short of sectors it returns -1 and what the file and every other inode hold is as before, while sectors stay taken |
| `Syscalls.Mount.GetCwd` | fs/fs.c:703-750 | after any run sys_getcwd prints the path that search_file resolves to the working directory |
| `PathFates.CreateExact` | fs/fs.c:242-294 | sys_open with O_CREAT goes on iff there is a slot, the path does not end in a slash, all names but the last lead to a directory and the last is not in it; it then does with this directory what FileFateExact says |
| `PathFates.MkdirExact` | fs/fs.c:471-501 | the same for sys_mkdir; only slashes are where the search gives back nothing |
| `PathFates.FileFateExact` | fs/file.c:95-168 | in a directory whose new name takes n sectors a file is refused iff no number or fewer than n sectors are free, and made right iff also no table is lost and a number below 256 is free |
| `PathFates.DirFateExact` | fs/fs.c:502-571 | the same for a directory, which takes one sector more, and loses it iff it is there and the n for its name are not |
| `PathFates.RoomExact` | fs/dir.c:150-230 | n is 0 if the first direct block that is not full has a free slot, 1 if it is absent, 2 if all twelve are full |
| `PathFates.UnlinkExact` | fs/fs.c:356-388 | sys_unlink is refused iff none of the names is a regular file, not open, in the directory the names before it lead to |
| `PathFates.RmdirExact` | fs/fs.c:618-636 | sys_rmdir of a path with names is refused iff they do not all lead to directories or the last holds more than its dots |
| `PathFates.FileOfExact` | fs/fs.c:242-294 | the file that a path opens is i iff all names but the last lead to a directory in which the last is the regular file i |
| `PathFates.AppendExact` | fs/file.c:197-227 | a write is refused iff the path opens no file or the file would be too long, and done iff also the sectors are there |
| `PathFates.BehindFileExample` | fs/fs.c:261-268 | "/a/b" where "a" is a file opens nothing and cannot be made, while sys_unlink removes "a" |
| `PathFates.NestedExample` | fs/fs.c:488-501 | "/a/b" where "a" is an empty directory can be made, in "a" |
| `Snapshots.CreateOrder` | fs/fs.c:242-294 | from the sectors and records that sys_open with O_CREAT changed the whole invariant follows again, and nothing is lost |
| `Snapshots.MkdirOrder` | fs/fs.c:471-573 | the same for sys_mkdir, which loses one sector iff its fate is to leak |
| `Snapshots.UnlinkOrder` | fs/fs.c:356-401 | the same for sys_unlink |
| `Snapshots.RmdirOrder` | fs/fs.c:618-646 | the same for sys_rmdir |
| `Snapshots.AppendOrder` | fs/file.c:197-357 | the same for a write, which loses the sector that FileWrite says |
| `Snapshots.NeverFull` | fs/dir.c:158-205 | in a partition in order no directory has all 128 indirect blocks |
| `Snapshots.UnlinkHangs` | fs/dir.c:294-301 | so a sys_unlink that breaks off finds a block missing, where the counting loop of delete_dir_entry does not end |
| `Snapshots.RmdirHangs` | fs/dir.c:294-301 | so does a sys_rmdir of a path with a last name that breaks off |
| `Snapshots.OrphanStillNamed` | fs/dir.c:337-354 | after sys_rmdir of a path that ends in a dot the directory is gone from the disk and its parent still names it as a directory: the partition is not in order |
| `VolumeRuns.DidKeeps` | fs/fs.c:242-646 | from what each call did to sectors, tree and inode table, and nothing else: a call that does not break off keeps the partition in order and loses exactly the sectors said before the call |
| `VolumeRuns.RunsConserve` | fs/fs.c:242-646 | over every run the partition is in order, and after n calls the bitmap marks exactly the owned sectors, each owned once, iff none of the calls lost one |
| `VolumeRuns.Run` | fs/fs.c:242-646 | carrying out any sequence of calls one after the other is such a run, up to the first call whose fate, computed from the state before it, is to break off, and what that one did; from a partition that lost nothing the bitmap marks exactly the owned sectors after n calls iff none of them lost one |
| `VolumeExamples.WriteToLimit` | fs/file.c:228-326 | 71680 bytes written to an empty file: all there, and one sector marked that nobody owns |
| `VolumeExamples.MkdirLeakExample` | fs/fs.c:545-571 | 21 entries and one free sector: sys_mkdir fails and the sector is lost |
| `VolumeExamples.SecondOverflowExample` | fs/dir.c:158-205 | 253 entries: the next name makes a second table, and entry 252 is gone |
| `VolumeExamples.SpinsExample` | fs/dir.c:294-301 | 253 entries: removing entry 252 never returns |
| `VolumeExamples.TruncatedExample` | fs/dir.c:296-322 | a directory of 2920 entries, which no run of these calls builds (Snapshots.NeverFull): removing entry 2919 leaves 252 |
| `TreeExamples.RmdirDotExample` | fs/fs.c:618-646 | "/a/." with an empty directory "a": it is found in itself, and removing it there leaves "a" in the root |
| `TreeExamples.UnlinkBehindExample` | fs/fs.c:187-240 | "/a/b" where "a" is a file: the search ends at the file "a", and that is what is removed |
| `Paths.PathParse` | fs/fs.c:156-167 | the next name after all slashes, and the rest |
| `Paths.PiecesAre` | fs/fs.c:156-167 | the names a loop around path_parse sees are the non-empty pieces between slashes |
| `Paths.RenderRoundTrip` | fs/fs.c:156-167 | parsing a rendered list of names gives the list back |
| `Paths.ComponentsJoin` | shell/buildin_cmd.c:53-66 | joining two paths with a slash joins their names |
| `Paths.WashPath` | shell/buildin_cmd.c:12-50 | the buffer truncated at its last slash and extended name by name is the stack fold of the names, rendered |
| `Paths.WashIsClean` | shell/buildin_cmd.c:12-50 | a washed path has no "." and no "..", and washing it again changes nothing |
| `Paths.WashFits` | shell/buildin_cmd.c:12-50 | the washed path is no longer than the path, so it fits a buffer of the same size |
| `Resolve.SearchFile` | fs/fs.c:187-240 | on the sectors of a mounted partition the loop over names with its early return on a regular file is the walk over the tree, and searched_path holds the names that were tried; only slashes give an unset result |
| `Resolve.FileFound` | fs/fs.c:228-231 | a search that ends at a regular file ends at the last name it tried, in the directory it returns |
| `Reaching.SearchExact` | fs/fs.c:187-240 | search_file finds a directory iff all names lead there, a file iff some name is this file in the directory the names before it lead to, whatever follows, and nothing iff some name is missing in the directory the names before it lead to |
| `Reaching.MayMakeExact` | fs/fs.c:483-501 | the comparison of depths lets sys_mkdir and sys_open go on iff all names but the last lead to a directory that does not have the last, and this is where they go on |
| `Reaching.OpenExact` | fs/fs.c:259-268 | and lets sys_open find a file iff the last name is it |
| `Tree.PathMoves` | fs/fs.c:210-227 | going through a name of a directory, ".." on disk included, moves its path from the root the way wash_path moves its stack |
| `Tree.DestIsFold` | fs/fs.c:210-227 | following any names that lead to directories ends at the directory whose path is the stack fold of the names |
| `Washing.WashKeepsMeaning` | shell/buildin_cmd.c:12-50 | on a well-formed tree search_file finds the same inode of the same kind, or nothing, through a path and through the washed path, if no ".." behind the name at which it stops (missing, or a file) climbs over that name; a search that stops nowhere or at the last name always meets this |
| `Washing.WashForgets` | shell/buildin_cmd.c:26-36 | if a ".." does climb over it, the washed path is that of the path without this name and all that follows up to this "..", so it says nothing of why the search stopped |
| `Tree.WashedDir` | fs/fs.c:187-240 | search_file finds every directory by its path from the root |
| `Washing.SlashesExample` | fs/fs.c:208-239 | "//" has no names: search_file gives an unset result, the washed path the root |
| `Washing.MissingPrefixExample` | shell/buildin_cmd.c:26-36 | "/x/.." without x: the ".." climbs over x, nothing is found, but the washed path is the root |
| `Cwd.RowIsOk` | fs/fs.c:681-697 | the comparison of inode numbers without f_type is right on a directory in order: its holes carry number 0 |
| `Cwd.ChildName` | fs/fs.c:661-698 | over the 12 or 140 blocks of the directory, the name in a slot with the inode number, or none iff no slot has it |
| `Cwd.NameIsLink` | fs/fs.c:648-698 | in its parent, as it is on the disk, a directory has exactly one name, and the search by number cannot hit a dot instead |
| `Cwd.Climb` | fs/fs.c:726-736 | the loop ends, the depth of the directory going down with each turn, with the names from leaf to root |
| `Cwd.Reverse` | fs/fs.c:738-747 | the loop over last slashes turns a leaf-first path into the root-to-leaf path |
| `Cwd.GetCwd` | fs/fs.c:703-750 | sys_getcwd always succeeds and prints the path of the directory from the root |
| `Cwd.CwdRoundTrip` | fs/fs.c:703-750 | search_file of what sys_getcwd prints is the working directory, and wash_path leaves it alone |
| `Cwd.MakeClearAbsPath` | shell/buildin_cmd.c:53-66 | a relative path is folded onto the path of the working directory, an absolute one onto the root |
| `TreeOps.MadeWhere` | fs/fs.c:483-501 | where sys_mkdir goes on, the name is neither "." nor "..", and the directory's path from the root is the stack fold of the other names |
| `TreeOps.AddFileKeepsTree` | fs/file.c:95-168 | a new file keeps the tree well formed |
| `TreeOps.RemoveFileKeepsTree` | fs/fs.c:356-401 | so does a file that is gone |
| `TreeOps.MkdirKeepsTree` | fs/fs.c:471-573 | sys_mkdir with a number nobody has keeps the tree well formed, the new directory one level below its parent |
| `TreeOps.MkdirShows` | fs/fs.c:471-573 | what Mkdir does to the sectors is what AddDir does to the tree |
| `Format.FormatIsTree` | fs/fs.c:129-147 | the tree of a formatted partition is the root alone, and well formed |
| `TreeOps.RmdirExact` | fs/fs.c:618-646 | sys_rmdir of an empty directory leaves some well-formed tree iff the path has a last name and it is neither "." nor ".." |
| `TreeOps.RmdirShows` | fs/fs.c:618-646 | what Rmdir does to the sectors is what RemoveDir does to the tree |
| `Scheduler.EmptyMeansIdleBlocked` | thread/thread.c:211-213 | when nobody runs and the ready list is empty, the idle thread is BLOCKED, so waking it fills the list |
| `Scheduler.ScheduleWorks` | thread/thread.c:199-221 | from every state in which schedule may be entered the pop succeeds, exactly one thread is RUNNING afterwards, and the ready list is again exactly the READY threads, once each |
| `Scheduler.BlockWorks` | thread/thread.c:223-230 | the same for thread_block with any blocked status |
| `Scheduler.YieldWorks` | thread/thread.c:246-254 | the same for thread_yield |
| `Scheduler.ScheduleOrder` | thread/thread.c:199-221 | a running thread goes behind all that are ready and the first of them runs, alone it runs on; a thread that blocked leaves the list as it is but for the first, or the idle thread runs |
| `Scheduler.YieldOrder` | thread/thread.c:246-254 | thread_yield puts the thread behind all that are ready and runs the first; alone it changes nothing |
| `Scheduler.RoundRobin` | thread/thread.c:199-254 | while threads only yield or use up their time, the j-th on the list runs after j switches, and after one switch per thread all are where they were |
| `Kernel.Cpu.Schedule` | thread/thread.c:199-221 | the code, on its fields: a running thread goes to the end of the list and the first runs; otherwise the first, or the idle thread, runs and the list loses it |
| `Kernel.Cpu.ThreadUnblock` | thread/thread.c:232-244 | READY, and in front of the ready list unless it was READY already |
| `Kernel.Cpu.ThreadBlock` | thread/thread.c:223-230 | the thread has the status, the first on the list runs and leaves it, the idle thread if there is none |
| `Kernel.Cpu.ThreadYield` | thread/thread.c:246-254 | the first on the list runs and the thread is behind all others; alone it runs on |
| `Kernel.Cpu.SemaTest` | thread/sync.c:16-29 | one turn of the loop: with value 0 the thread goes to the end of the waiters and blocks, otherwise the value is one less; and this is the step of the transition system |
| `Kernel.Cpu.SemaUp` | thread/sync.c:31-41 | the first waiter, if there is one, leaves the list and is READY, and the 8-bit value is one more: the step of the transition system |
| `SyncInv.TestBlocks` | thread/sync.c:18-24 | a thread that queues keeps waiters, statuses and program counters in agreement, and loses no wakeup, also when it was woken and re-queues |
| `SyncInv.TestPasses` | thread/sync.c:25-28 | taking the value loses no wakeup, also when a third thread takes it before the one that was woken |
| `SyncInv.UpKeeps` | thread/sync.c:31-41 | so does giving one back |
| `LockInv.LockTestKeeps` | thread/sync.c:43-47 | the semaphore step of lock_acquire keeps one owner at most and lock fields that fit it |
| `LockInv.LockStepKeeps` | thread/sync.c:43-65 | so does each single assignment of lock_acquire and lock_release, with preemption between them |
| `LockInv.LockUpKeeps` | thread/sync.c:61-65 | so does the semaphore step of lock_release |
| `Interleaving.NextKeeps` | thread/sync.c:10-65 | every step of every thread keeps both invariants |
| `Interleaving.MutualExclusion` | thread/sync.c:10-65 | in every reachable state of every interleaving, where threads release locks they are in, the value of a lock's semaphore plus the number of threads in its owning section is 1, and an owner between calls is the holder with holder_repeat_nr its nesting depth |
| `Interleaving.ForeignReleaseBreaks` | thread/sync.c:55-65 | a release by a thread that is not in the lock always breaks it |
| `Interleaving.NoWakeupLost` | thread/sync.c:16-41 | in every reachable state, a positive value with waiters means that some thread woken from this semaphore, READY or RUNNING, has still to test |
| `LockCounts.StepsAreEvents` | thread/sync.c:43-65 | each step completes a lock_acquire, completes a lock_release, or neither |
| `LockCounts.DepthIsCalls` | thread/sync.c:43-65 | in every run the depth of a thread in a lock is its completed lock_acquire calls less its completed lock_release calls |
| `LockCounts.HolderCountsCalls` | thread/sync.c:43-65 | so a thread with n calls more of the one than of the other, and outside both, is holder and holder_repeat_nr is n |
| `LockCounts.ValueIsCalls` | thread/sync.c:16-41 | in every run a semaphore has its first value plus the sema_up calls less the sema_down calls that came through, modulo 256 |
| `Turns.NextMoves` | thread/thread.c:183-254 | every step leaves the ready list alone, puts a woken thread in front or a new one behind, or switches to the first |
| `Turns.StepOrder` | thread/thread.c:183-254 | a thread that is preempted or yields is ready behind all others, one that blocks or ends has its status and the first runs, one that is woken is ready and first, a new one ready and last |
| `Turns.NobodyOvertakes` | thread/thread.c:183-254 | in every run, of two threads that stay ready the one in front stays in front |
| `Turns.RunsFromFront` | thread/thread.c:199-221 | in every run a thread gets the processor from the front of the list, or as the idle thread when it is empty |
| `Turns.NobodyJumpsQueue` | thread/sync.c:16-41 | in every run, of two threads that wait for a semaphore the one that came first stays first |
| `Interleaving.SchedulerSafety` | thread/thread.c:199-254 | in every reachable state exactly one thread runs, the ready list is exact, a thread is on at most one list and the running one on none (so the panics of sema_down and thread_unblock are never reached), and blocking, yielding or preemption always finds a thread to run |
| `ProcessTable.ProcTable.Traverse` | lib/kernel/list.c:53-65 | list_traversal with pid_check, find_child or find_hanging_child returns the first task on the list that matches, or none |
| `ProcessTable.ProcTable.Adopt` | userprog/wait_exit.c:100-106 | the traversal gives exactly the children of the process to pid 1 |
| `ProcessTable.ProcTable.WaitTurn` | userprog/wait_exit.c:110-140 | one turn reaps the first child that hangs and answers with the pid and status this child has, fails iff no process names the caller as parent, and otherwise blocks; what each does to the table, and no more |
| `ProcessTable.ProcTable.ExitBegin` | userprog/wait_exit.c:143-151 | panics iff there is no parent; otherwise the status is recorded as an int8_t and exactly the children have parent 1 |
| `ProcessTable.ProcTable.ExitEnd` | userprog/wait_exit.c:157-163 | finds the parent by pid, makes it READY iff it waits, and hangs; nobody else changes |
| `ProcessRuns.OverlookedExactly` | userprog/wait_exit.c:100-106 | a step leaves a process waiting over a child that hangs iff it is the exit of a process with such a child while init waits |
| `ProcessExample.OverlookedExample` | userprog/wait_exit.c:100-106 | a run from the start of three forks and two exits after which init waits although its new child hangs |
| `ProcessRuns.StepKeepsInv` | userprog/wait_exit.c:80-164 | every step of fork, exit and wait keeps the list, the pids, the families, the waiters and the log in order |
| `ProcessRuns.ParentIsThere` | thread/thread.c:101-118 | in every run a process with a parent pid finds, first on the list, a parent that is alive and has not begun to exit |
| `ProcessRuns.WaitIsJustified` | userprog/wait_exit.c:131-138 | in every run a waiting process has a child, and unless it is init none of its children hangs |
| `ProcessLives.ReapedOnce` | userprog/wait_exit.c:110-164 | in every run each exit is reaped at most once, by the process whose pid it then had as parent, and answered for with its own pid and its own status as an int8_t; one not reaped yet is still on the list, with a living parent |
| `ProcessLives.PidIsForLife` | thread/thread.c:53-67 | in every run a process has one pid from beginning to end |
| `ProcessLives.AnswerIsPid` | userprog/wait_exit.c:118-128 | so the pid that sys_wait answers is the one the child had in every earlier state |
| `ProcessLives.ForkedChild` | userprog/fork.c:167-185 | in every run the process that fork lists has the lowest pid that was free when fork began, is READY, last on the list, and is the caller's child; a thread the kernel starts is nobody's |
| `ProcessRuns.PidsAreExact` | thread/thread.c:53-67 | in every run a pid bit is set iff a process has the pid or is about to list or return it, and no pid is claimed twice |
| `Ring.FullAndEmpty` | device/ioqueue.c:13-25 | full means 63 bytes, empty means none, and there are never more |
| `Ring.PutAppends` | device/ioqueue.c:62-63 | a put appends to what the ring holds, across the wrap |
| `Ring.GetTakesOldest` | device/ioqueue.c:46-47 | a get takes the oldest byte, across the wrap |
| `Ring.Queue.GetNow` | device/ioqueue.c:46-47 | the code takes the head of the contents |
| `Ring.Queue.PutNow` | device/ioqueue.c:62-63 | the code appends to the contents |
| `Ring.Queue.Len` | device/ioqueue.c:70-78 | ioq_length is the number of bytes in the ring |
| `Ring.Queue.PipeRead` | shell/pipe.c:38-55 | the oldest bytes, as many as wanted or there, without waiting |
| `Ring.Queue.PipeWrite` | shell/pipe.c:58-74 | waits iff the data is longer than 63 less the length; otherwise all of it is appended and its length returned; a write that waits has filled the ring |
| `RingRuns.TakenIsPrefix` | device/ioqueue.c:39-78 | in every interleaving the bytes taken are a prefix of the bytes put, and ioq_length is puts minus gets and at most 63 |
| `RingRuns.SlotsAreSafe` | device/ioqueue.c:27-67 | in every interleaving the slot that ioq_wait fills is empty, at most one slot is taken, and wakeup wakes a thread that sleeps in it |
| `RingRuns.WakesSleeper` | device/ioqueue.c:39-78 | in every interleaving a put empties the consumer slot and wakes whoever slept in it, and a get does so with the producer slot |
| `Pipes.FreeSlot` | fs/file.c:19-34 | the first slot from 3 on that is free, or -1 iff none is |
| `PipeInv.PipeExact` | shell/pipe.c:15-35 | after sys_pipe on tables in order every count is the number of descriptors iff the process had two unused ones |
| `PipeInv.OpenKeeps` | fs/file.c:170-194 | opening a file keeps every count exact; exactly the first unused descriptor, if there is one, names the slot |
| `PipeInv.RefusedKeeps` | fs/file.c:180-192 | an open that is refused because another process writes keeps every count exact, but its slot stays taken and no descriptor names it |
| `PipeInv.CloseExact` | fs/fs.c:304-321 | sys_close keeps counts exact and free slots unnamed iff it closes a pipe or a file no other descriptor names |
| `PipeInv.LastClose` | fs/fs.c:308-314 | closing a pipe gives back its page iff no live descriptor names it any more, and no other page |
| `PipeInv.ForkKeeps` | userprog/fork.c:117-132 | the child has exactly the descriptors of its parent, each is counted once, and every count stays exact |
| `PipeInv.ExitExact` | userprog/wait_exit.c:60-75 | exit keeps counts exact and free slots unnamed iff no other process has one of its files open |
| `PipeRuns.CloseKeepsPipes` | fs/fs.c:304-321 | sys_close of any descriptor, shared files included, keeps the counts of all pipes exact |
| `PipeRuns.PipeKeepsPipes` | shell/pipe.c:15-35 | so does sys_pipe iff the descriptors that still name the slot it takes and the unused ones it gets, at most two, are two together |
| `PipeRuns.CountsAreExact` | shell/pipe.c:15-35 | over every run of pipe, open, fork, close and exit, files being shared and closed in any way, a pipe's fd_pos is the number of live (process, descriptor) pairs that name it, and the pages held are those of pipes somebody can still use; the runs are those in which sys_pipe meets the condition of PipeKeepsPipes, and no call follows a descriptor whose slot is free |
| `PipeRuns.StepExact` | fs/fs.c:304-321 | a call leaves no descriptor that names a free slot iff it closes no file that another descriptor names |
| `PipeRuns.SlotsAreExact` | fs/fs.c:304-321 | as long as no shared file was closed, all slots are exact |
| `PipeRuns.SharedCloseExample` | fs/fs.c:304-321 | open, fork, close: the slot is free and the child's descriptor still names it |
| `PipeRuns.StaleDescriptorExample` | shell/pipe.c:15-35 | the next pipe gets that slot and count 2, and three descriptors name it |
| `Descriptors.Tables.GetFreeSlot` | fs/file.c:19-34 | the loop is the first free slot |
| `Descriptors.Tables.FdInstall` | fs/file.c:38-54 | the first unused descriptor names the slot; with none nothing changes and -1 is returned |
| `Descriptors.Tables.MakePipe` | shell/pipe.c:15-35 | the code is sys_pipe on the tables, and returns the two descriptors, -1 for one that could not be installed |
| `Descriptors.Tables.SysClose` | fs/fs.c:304-321 | the code is sys_close on the tables |
| `Descriptors.Tables.ForkRow` | userprog/fork.c:117-132 | the descriptor loop of fork is the counting function |
| `Descriptors.Tables.ReleaseRow` | userprog/wait_exit.c:60-75 | the descriptor loop of exit closes everything and the process is gone |
| `Pages.InitPoolsOk` | kernel/memory.c:457-486 | every kernel frame lies below the user pool, all lie above 2 MB, and inside the memory if there is that much |
| `Pages.InitPoolsCover` | kernel/memory.c:457-486 | the pools get half of the pages each, all free, and all but fewer than 16 pages are in them iff their number fits a uint16_t |
| `Pages.PallocTakes` | kernel/memory.c:82-90 | the lowest free frame of the pool, marked, or NULL iff none is free |
| `Pages.PfreeFrees` | kernel/memory.c:325-337 | the pool the address selects is the pool the frame is in, so exactly this frame is freed |
| `PageInv.MapPageWorks` | kernel/memory.c:92-114 | a page gets a frame that nobody used, and a page table if it has none; frames stay distinct and exactly marked |
| `PageInv.StarvesExact` | kernel/memory.c:92-135 | the loop of malloc_page meets a page table it cannot allocate iff the tables missing for the pages it has frames for are more than the free kernel frames |
| `PageInv.MallocExact` | kernel/memory.c:118-135 | unless it starves for page tables, malloc_page maps the leftmost free run, bit set iff mapped, iff the pool has a frame for each page; otherwise it returns NULL with bits set for pages it did not map; the scan takes the bit behind the bitmap as used |
| `PageInv.ShortExample` | kernel/memory.c:118-135 | two pages asked for and one frame free: NULL, one page mapped, the bits of both set |
| `PageInv.MfreeWorks` | kernel/memory.c:339-393 | exactly the pages named are unmapped, their bits cleared and their frames freed |
| `Heap.ClassOf` | kernel/memory.c:272-281 | the smallest block size that holds the request |
| `Heap.BlockFits` | kernel/memory.c:215-221 | every block lies in its arena's page behind the header, and block2arena finds the arena |
| `HeapInv.LiveApart` | kernel/memory.c:223-323 | two live blocks do not overlap within the sizes asked for |
| `HeapInv.HeadersApart` | kernel/memory.c:215-221 | no live block overlaps the header of any arena |
| `HeapInv.CounterIsOnList` | kernel/memory.c:298-318 | a small arena's cnt is the number of its blocks on the free list of its class |
| `HeapInv.TakeKeeps` | kernel/memory.c:313-321 | handing out the head of a list keeps lists, counters and arenas in agreement |
| `HeapOps.NewArenaKeeps` | kernel/memory.c:288-311 | so does a new arena, and also a malloc_page that fails |
| `HeapOps.MallocLargeKeeps` | kernel/memory.c:251-270 | so does a block of whole pages, which holds what was asked for |
| `HeapOps.GiveBackKeeps` | kernel/memory.c:422-427 | so does a block that comes back |
| `HeapOps.DropSmallKeeps` | kernel/memory.c:427-436 | when the counter says all blocks are free they all are, the list gives up exactly these, and the page goes |
| `HeapOps.DropLargeKeeps` | kernel/memory.c:416-418 | freeing a large block gives back exactly its pages |
| `HeapRuns.MallocKeeps` | kernel/memory.c:223-323 | sys_malloc keeps the heap in order whatever happens, unless malloc_page starves, and a block it returns was not live |
| `HeapRuns.MallocAnswers` | kernel/memory.c:223-323 | for a size in range: if an arena of the smallest class that holds it has a block, the first on the list, and no page is touched; otherwise NULL iff there is no run of the fewest pages that hold it or no frame for each, else the first block behind the header of the leftmost run; out of range NULL |
| `HeapRuns.BrokenExact` | kernel/memory.c:223-323 | sys_malloc loses its way iff no arena has a block, malloc_page finds a run of the pages needed and starves for page tables |
| `HeapRuns.FreeKeeps` | kernel/memory.c:395-440 | sys_free keeps the heap in order and exactly this block is no longer live; if its arena stays, the block is last on the list of its class and nothing else changed |
| `HeapRuns.HeapIsSafe` | kernel/memory.c:205-440 | over every run of sys_malloc and valid sys_free, failures included but for calls that starve for page tables: live blocks apart, large enough and clear of headers, counters equal to free blocks, each list exactly the free blocks of its class, once each |
| `HeapRestored.AllFreedRestores` | kernel/memory.c:395-440 | over every run without a failure midway, once nothing is live, in whatever order it was freed, virtual bitmap, mapping and user pool are as at the start, and for the kernel's heap the kernel pool too |
| `Allocator.Memory.SetBits` | kernel/memory.c:53-55 | the loop sets or clears exactly the run of bits |
| `Allocator.Memory.MallocPage` | kernel/memory.c:118-135 | the code, from the run that the scan of the bitmap alone finds, is malloc_page on values, each failure included |
| `Allocator.Memory.MfreePage` | kernel/memory.c:363-393 | the code is mfree_page on values |
| `Allocator.Memory.AppendBlocks` | kernel/memory.c:305-309 | the loop puts all blocks of the arena at the end of the list, in order |
| `Allocator.Memory.RemoveAll` | kernel/memory.c:429-433 | the loop takes the blocks of the arena off the list |
| `Allocator.Memory.PickClass` | kernel/memory.c:275-281 | the loop picks the smallest block size that is enough |
| `Allocator.Memory.SysMalloc` | kernel/memory.c:223-323 | the code is sys_malloc on values, for which MallocAnswers says what it answers; a block whenever an arena has one |
| `Allocator.Memory.SysFree` | kernel/memory.c:395-440 | the code is sys_free on values |
| `ForkPages.CopyOne` | userprog/fork.c:56-72 | one page more: same contents, in a frame nobody else uses, the parent and every other process unchanged |
| `ForkPages.Forking.CopyBody` | userprog/fork.c:42-79 | the loop over the bytes of the bitmap gives the child a copy of exactly the pages marked iff there are user frames for the pages and kernel frames for their page tables |
| `ForkPages.Forking.CopyByte` | userprog/fork.c:53-75 | the loop over the bits of one byte |
| `ForkPages.Forking.Release` | userprog/wait_exit.c:31-53 | the loops over directory and page tables give back every frame the process maps and every page table, and no other frame |
| `ForkPages.Forking.ReleaseTable` | userprog/wait_exit.c:36-47 | the loop over one page table |
| `LinkedList.List.InsertBefore` | lib/kernel/list.c:12-19 | relinking four pointers inserts the element at that place and keeps the chain intact |
| `LinkedList.List.Push` | lib/kernel/list.c:21-23 | to the front |
| `LinkedList.List.Append` | lib/kernel/list.c:25-27 | to the end |
| `LinkedList.List.Remove` | lib/kernel/list.c:29-34 | relinking two pointers takes out exactly this element |
| `LinkedList.List.Pop` | lib/kernel/list.c:36-40 | the first element of a list that has one |
| `LinkedList.List.Find` | lib/kernel/list.c:42-51 | true iff the element is on the list |
| `LinkedList.List.Empty` | lib/kernel/list.c:100-102 | true iff nothing is between the sentinels |

## Left out

- Boot code, assembly, console, keyboard, timer, interrupt tables, TSS and GDT: hardware setup with shallow properties; `switch_to` is a change of the running thread.
- Disk access: `ide_read` and `ide_write` are reads and writes of a sequence of sectors; the on-disk copies of the two bitmaps (`bitmap_sync`) are not kept apart from those in memory.
- Failures of `sys_malloc` for work buffers inside file system calls, and the arena save and restore inside `file_read`.
- `userprog/exec.c`, `start_process` and the building of stacks: register and stack layout.
- The shell, `printf`, `sys_ps`, `sys_stat`, `sys_lseek`, `sys_fd_redirect`, and of `sys_open` the flags: easy members, or not reachable.
- The superblock as bytes, and partitions of fewer than 611 sectors, for which `partition_format` computes sizes that wrap around.
- The contents of memory in the heap: that `sys_malloc` returns zeroed blocks is not stated.
- Progress: nothing says that a thread that waits is ever scheduled, nor that a blocked ring is ever drained.
- Fork that fails halfway: the pid and pages it leaks. A process table of 1024 live pids, where the next pid would be 0.
- Namespace.FileCreate: the part that changes the partition; the descriptor it installs is in Pipes, the open inode in InodeTable.
- VolumeRuns.Run: paths of fewer than 512 bytes with names of fewer than 16, which is what the code's buffers hold; one partition; the runs end with a call that breaks off, of which is said what it did, not what later calls make of it.
- FileData.FileWrite: nothing is said about the state after a sum that wraps around, where the code writes on.
- FileData.FileRead: nothing is said about the bytes that are read when the sum wraps around.
- Namespace.Rmdir: for a directory found under a name; the dots, which dir_remove does not find in the directory it looks in, are in Syscalls.Mount.Rmdir.
- Layout.BlockBitmap: for partitions of 611 sectors or more; with fewer the sizes wrap around.
- Resolve.SearchFile: a name of 16 bytes or more is searched for like any other; in the code it overflows the buffer for one name, and Legal calls have none.
- Syscalls.Mount.Rmdir: nothing keeps a directory from being removed that is the working directory of a process; GetCwd is for one that exists.
- Cwd.GetCwd: the path is not bounded; the code's buffers hold it if it has fewer than 512 bytes.
- PipeRuns.CountsAreExact: a call through a descriptor whose slot is free follows a NULL pointer, and `sys_pipe` without a free slot writes in front of file_table; such calls are not in the runs, nor is an exit of a process with two descriptors on one open file, whose second close would follow the slot that the first one freed.
- Descriptors.Tables.MakePipe: needs a free slot in file_table, for the same reason.
- Processes: a step may be taken by any process that is RUNNING; that only one is, is in Interleaving.
- Interleaving.MutualExclusion: for threads that release only locks they are in (ForeignReleaseBreaks is why) and end without one, and an idle thread that waits for no semaphore, as in this kernel.
- LinkedList.List.Pop: of an empty list, on which the code would take the tail sentinel; SchedulerSafety shows that schedule never does.
- HeapRuns.HeapIsSafe: a run ends where a page table cannot be allocated; BrokenExact says when that is.
- Allocator.Memory.MallocPage: nothing is said about the state after a page table that could not be allocated.
- Heap: one heap per address space; blocks that a child inherits from its parent are not in the child's lists.
- Allocator.Memory.SysMalloc: when the kernel pool has no frame for a page table the code writes a directory entry for frame 0; the result is Lost and nothing is said about the state.
- ForkPages.Forking.CopyBody: when it stops the code would fault on the page it could not map; nothing is said about the child then.
