# xv6 (RISC-V, FCFS scheduler): a verified model

This project models the parts of an xv6 kernel and its user library that carry
invariants over whole runs, and proves them in Dafny 4.11.  The kernel is xv6 for
RISC-V with its scheduler changed from round robin to first come, first served.

## Contents

| file | models | main results |
|---|---|---|
| Common.dfy | shared constants and types | |
| LogDisk.dfy | disk side of the write-ahead log | crash atomicity of commits; recovery may be cut off and restarted any number of times |
| LogProtocol.dfy | `begin_op`, `log_write`, `end_op`, `sys_sync`, interleaved | log-space reservation, one pin per logged block, no panic, what `log_write` and `sys_sync` promise, who may begin |
| Log.dfy | log.c as code | the methods issue exactly the writes, and make exactly the state changes, that the two modules above reason about |
| BufferCache.dfy | bio.c | one buffer per block, ring in release order, least recently released buffer recycled, no change lost by eviction |
| FsImage.dfy, Fs.dfy | blocks and inodes (fs.c), `filewrite` (file.c) | exclusive block ownership, byte-level `readi`/`writei`, exact `itrunc`, every change logged, transaction footprint |
| Links.dfy, Sysfile.dfy | directories and link counts (sysfile.c, fs.c) | directories as maps from names, link counts over create, link, unlink and all their rollbacks; exactly when they fail |
| PageTable.dfy | pages and Sv39 tables (kalloc.c, vm.c) | one holder for each page; the three-level tree refines a flat map |
| UserMemory.dfy | user memory as bytes | what faults, copies and growth show to the user |
| Vm.dfy | kalloc.c and vm.c as code | the methods, with their failure paths, against the two modules above |
| ProcMemory.dfy | `allocproc`, `freeproc`, `growproc`, `kfork`, `sbrk` | page conservation, failed fork gives back exactly what it took, lazy growth equals eager growth |
| SleepLock.dfy | `sleep`, `wakeup`, sleep locks, interleaved | no lost wakeup, one holder, bounded sleep once a release is under way |
| ExitWait.dfy | fork, exit, reparent, wait, interleaved | live parents, each exit reaped once by the parent with its own status, no missed exit, no deadlock, `getppid` of orphans |
| Scheduler.dfy | FCFS `scheduler`, and the round robin it replaced | least pid, locks at `swtch`, first dispatch in creation order; round-robin waiting bound |
| Umalloc.dfy | K&R `malloc`/`free` | ordered cycle without touching blocks, no overlap, conservation of units, termination |
| Pipe.dfy | pipe ring | equals a bounded queue across 32-bit wrap-around |
| Grep.dfy | regular-expression matcher | agrees with a declarative semantics |

Classes hold the state that the source updates in place; their ghost fields carry
histories and owners.  Protocols that depend on interleaving are state machines
whose steps are the sections between lock operations, and their theorems are about
every finite run.

## Modelling choices

- A block write, a spinlock exchange and `swtch` are atomic steps.  The disk is a
  sequence of blocks; a crash may fall between any two block writes.
- Log.dfy sees the buffer cache as a map of blocks that are ahead of the disk.
- In BufferCache.dfy the latest value of a block is whatever its holder stored last.
  The assumption that a change is written, or pinned by the log, before its buffer is
  released is the precondition of `brelse` and `bunpin`.
- In Log.dfy a logged block is one whose buffer the caller has changed; every call keeps
  this, so a commit writes what the callers stored.
- LogProtocol.dfy lets an operation log at most MAXOPBLOCKS new blocks.  For writes
  to files Fs.dfy discharges this, with a single bitmap block.  An operation without
  budget left may meet the "too big" panic even for a block already logged.
- The free bitmap is a sequence of booleans, block 0 and metadata set; indirect
  blocks are real bytes with 32-bit little-endian words.  The copy of an inode on
  disk is only a block number that `iupdate` logs.
- `readi` and `writei` are modelled for copies that succeed.
- In Sysfile.dfy path lookup has been done: operations get the parent directory and
  the last name, on one device.  Whether a directory can grow by an entry is a
  parameter.  `sys_link` has two sections with anything in between; links counted but
  not yet entered are a ghost field.
- Managed pages are numbered from the kernel's end; the trampoline page lies outside.
  A page holds bytes or entries, so that no table is ever read from a data page is
  part of the proof.  Virtual addresses are page numbers where bytes do not matter.
- An address space has the number of its process slot.  `kfork` and the other memory
  operations are atomic with respect to each other.
- A user page below the size that is not mapped is seen as a zeroed page.  Because
  the last page may be partly above the size, memory is compared by whole pages: a
  shrink inside a page leaves its bytes, and both ways of growing show them again.
- `sbrk` with a negative argument larger than the size wraps round as an unsigned
  64-bit sum, so it changes nothing and still reports success.
- ExitWait.dfy, SleepLock.dfy and LogProtocol.dfy take `nextpid` and `ncommit` as
  unbounded.  Scheduler.dfy is for one CPU, which README.md:61 of the repository fixes.
- The project describes FCFS as strict order of arrival.  The code orders by pid:
  the first dispatches follow creation order, but a woken process with a smaller pid
  goes before one that has been RUNNABLE for longer.
- `sbrk` regions given to `malloc` are parameters: fresh, aligned, above `base` and as
  large as the int that `sbrk` got.

## Properties that fail, and exactly when

Nothing in `create` or `sys_link` checks that the parent directory is still linked.
`Links.LostFile` gives an image in which a file is created in a directory that has
been unlinked but is still in use: once the directory goes, the file keeps a link
that no entry accounts for.  `Links.LostDir` makes a directory there instead: the
unlinked directory has a link again, so its ".." counts in a parent that no longer
counts it.  `Links.EnterFileIff` and `Links.MakeDirIff` show that the condition is
exact: entering a file, or making a directory, keeps the link counts if and only if
the parent still has a link at that moment.

`malloc` takes any unsigned request, but `morecore` passes its byte count to `sbrk`
as an int.  `Umalloc.SbrkArgument` shows that the count survives if and only if the
request is at most INT_MAX-31 bytes, slightly less than 2^31; `Umalloc.SbrkMisled`
gives two larger requests and what `sbrk` is told instead.  `Umalloc.Heap.Malloc` is
stated up to that bound.

## Model

| member | source | states |
|---|---|---|
| `LogDisk.CommitAtomic` | code/kernel/log.c:181-206 | Stop a commit after any number of its block writes: a restart shows every home block old if the header write was not reached, and every logged block new (all others unchanged) if it was; a finished commit has an empty header and the new values at home |
| `LogDisk.RecoveryRestartable` | code/kernel/log.c:67-125 | Stop a recovery after any of its writes: a restart still shows exactly what it showed before; a finished recovery has copied all of that home and emptied the header |
| `LogDisk.EveryRun` | code/kernel/log.c:67-206 | Any run of commits and recoveries, each cut off anywhere, any number of times: the disk always represents the state in which each commit has happened entirely or not at all |
| `LogDisk.NextRepresents` | code/kernel/log.c:67-206 | One commit or recovery, cut off anywhere, keeps the disk a representation of the atomic specification state |
| `LogDisk.CommitPoint` | code/kernel/log.c:196-206 | Right after the first write_head the log holds the transaction, home blocks are untouched, and what is left to write is exactly a recovery of that log |
| `LogDisk.BeforeCommitPoint` | code/kernel/log.c:181-201 | Until the header write, a restart shows the disk as it was |
| `LogDisk.AfterCommitPoint` | code/kernel/log.c:196-206 | From the header write on, every stopping point shows the same durable contents, and the last one has them at home |
| `LogDisk.CommitValue` | code/kernel/log.c:181-206 | At the commit point the durable value of a block is its logged data if it was logged, else its old contents |
| `LogDisk.LoggedValues` | code/kernel/log.c:67-85 | What a header over filled slots promises for each block: the logged data, else the home block |
| `LogDisk.RecoverPrefix` | code/kernel/log.c:67-85 | After k home writes the log is intact, durable contents are unchanged and the first k blocks are home |
| `LogDisk.LogPrefix` | code/kernel/log.c:181-194 | Filling k log slots changes those slots and no other block |
| `LogDisk.HomeWrite` | code/kernel/log.c:72-79 | Overwriting the home of a logged block never shows, because the log wins at restart |
| `LogDisk.EmptyLog` | code/kernel/log.c:203-204 | Under an empty header the home blocks are what a restart shows |
| `LogProtocol.Admission` | code/kernel/log.c:128-178 | Every interleaving from boot: committing excludes any operation; logged block numbers are distinct with one pin each; an operation with budget left finds room; a returned sys_sync has seen every operation that had ended when it was called become durable |
| `LogProtocol.NoPanic` | code/kernel/log.c:217-238 | With the budget kept, neither "log.committing" nor the two panics of log_write can fire |
| `LogProtocol.StepInv` | code/kernel/log.c:128-252 | Every critical section keeps the reservation, pin, commit and sync invariants |
| `LogProtocol.RunInv` | code/kernel/log.c:128-252 | The same over every finite run |
| `LogProtocol.UnpinAllOf` | code/kernel/log.c:72-84 | Unpinning all logged blocks takes exactly one pin from each of them and none from others |
| `LogProtocol.UnusedBound` | code/kernel/log.c:133-142 | Unused budgets are at most MAXOPBLOCKS for each running operation |
| `LogProtocol.TwoCommitters` | code/kernel/log.c:153-178 | Two threads in commit would count as two committers, so there is at most one |
| `LogProtocol.LoggedTillCommitted` | code/kernel/log.c:217-238 | Every run: a block passed to log_write is in the log until a commit that came after it has returned |
| `LogProtocol.SyncWaits` | code/kernel/log.c:240-252 | Every run from boot: once sys_sync has returned, each operation that ended before it was called has been followed by a commit that has returned |
| `LogProtocol.IdleAdmits` | code/kernel/log.c:128-144 | While nobody is in an operation or a commit, anybody may begin one and sys_sync returns at once |
| `LogProtocol.FinishWakes` | code/kernel/log.c:172-176 | The end of a commit lets any waiting operation in and every waiting sys_sync out |
| `LogProtocol.RecordLogs` | code/kernel/log.c:228-236 | log_write adds its block and nothing else |
| `Log.Log.WriteLog` | code/kernel/log.c:181-194 | Issues one slot write per logged block, in order, with the cached data; header and cache unchanged |
| `Log.Log.WriteHead` | code/kernel/log.c:104-116 | Overwrites count and used entries of the header block, leaving stale words, in one write |
| `Log.Log.InstallBlock` | code/kernel/log.c:72-84 | One turn: the slot goes home in one write; unpinned only outside recovery |
| `Log.Log.InstallTrans` | code/kernel/log.c:67-85 | Issues exactly the home writes of all slots in order; unpins each block once, and not when recovering |
| `Log.Log.LogTransaction` | code/kernel/log.c:200-201 | Slot writes, then the header write |
| `Log.Log.InstallTransaction` | code/kernel/log.c:202-204 | Home writes, then the empty header; in-memory count 0 and all pins taken back |
| `Log.Log.Commit` | code/kernel/log.c:196-206 | The writes it issues are exactly those CommitAtomic speaks about; afterwards logged blocks are on the disk as the callers left them, other home blocks are unchanged, the log is empty and every pin is gone |
| `Log.Log.ReadHead` | code/kernel/log.c:88-99 | Loads count and block numbers from the header block |
| `Log.Log.RecoverFromLog` | code/kernel/log.c:118-125 | Issues exactly the writes of a recovery; the durable contents are what they were, the log is empty |
| `Log.Log.TryBeginOp` | code/kernel/log.c:129-143 | One turn of the loop admits exactly under the admission condition and then counts the operation |
| `Log.Log.EndOp` | code/kernel/log.c:149-166 | First section of end_op: the panic exactly when committing; the last operation becomes the committer |
| `Log.Log.FinishCommit` | code/kernel/log.c:172-176 | Second section: clears committing and counts the commit |
| `Log.Log.LogWrite` | code/kernel/log.c:217-238 | Afterwards the logged blocks are exactly those before and this one; a new one is pinned once, a repeated one not again; panics exactly on a full log or outside an operation |
| `Log.Log.WriteThrough` | code/kernel/log.c:181-238 | A change that is logged is on the disk after the next commit, with every change logged before it and nothing else |
| `Log.CommitParts` | code/kernel/log.c:199-205 | The two halves of a commit put together are its specified writes |
| `Log.RecoverParts` | code/kernel/log.c:119-125 | The phases of a recovery put together are its specified writes |
| `Log.RecoverDone` | code/kernel/log.c:119-125 | All writes of a recovery change nothing that a restart would show and empty the log |
| `Log.CommitDone` | code/kernel/log.c:196-206 | All writes of a commit bring its blocks home and empty the log |
| `BufferCache.Bcache.constructor` | code/kernel/bio.c:35-52 | The list is a circular permutation of all buffers, all unused |
| `BufferCache.Bcache.Bget` | code/kernel/bio.c:57-88 | A hit returns the buffer of that block with one more reference; a miss recycles, among the unused buffers, the one released longest ago; "no buffers" exactly when all are in use; uniqueness, order and coherence kept |
| `BufferCache.Bcache.FindCached` | code/kernel/bio.c:65-72 | The forward scan finds the buffer of the block, or there is none |
| `BufferCache.Bcache.FindOldest` | code/kernel/bio.c:76-86 | The backward scan finds the unused buffer released longest ago, or all are in use |
| `BufferCache.Bcache.Bread` | code/kernel/bio.c:91-102 | The buffer returned is valid and holds the latest value of the block; none is returned only when all are in use |
| `BufferCache.Bcache.Bwrite` | code/kernel/bio.c:105-111 | The disk takes the buffer value; the cache stays coherent |
| `BufferCache.Bcache.Brelse` | code/kernel/bio.c:115-136 | One reference less; the last one moves the buffer to the front with the newest release stamp |
| `BufferCache.Bcache.TakeOff` | code/kernel/bio.c:127-128 | Unsplices one buffer; the others stay a circular list in release order |
| `BufferCache.Bcache.PushFront` | code/kernel/bio.c:129-132 | Splices a buffer in at the front of the circular list |
| `BufferCache.Bcache.Bpin` | code/kernel/bio.c:138-144 | One reference more and nothing else |
| `BufferCache.Bcache.Bunpin` | code/kernel/bio.c:146-152 | One reference less, list position unchanged |
| `BufferCache.Unlink` | code/kernel/bio.c:127-128 | Pointer surgery of removal keeps both directions of the ring |
| `BufferCache.LinkFront` | code/kernel/bio.c:129-132 | Pointer surgery of insertion keeps both directions of the ring |
| `BufferCache.Recycled` | code/kernel/bio.c:76-86 | Recycling an unused buffer loses no change, provided changes were written or pinned before release, and keeps keys unique |
| `BufferCache.Changed` | code/kernel/bio.c:57-152 | A change to one buffer, and to the disk and latest value of its block, keeps uniqueness and coherence |
| `FsImage.ReferencedOnce` | code/kernel/fs.c:406-477 | Every block number reachable from an inode lies in the data area, has its bit set and is referenced exactly once |
| `FsImage.WordSet` | code/kernel/fs.c:431-437 | Setting one 32-bit word of an indirect block changes that word only |
| `FsImage.Assigned` | code/kernel/fs.c:406-445 | Recording a fresh block at an empty reference keeps exclusive ownership |
| `FsImage.Emptied` | code/kernel/fs.c:456-461 | Clearing a reference gives up exactly its block |
| `FsImage.EntryDropped` | code/kernel/fs.c:463-469 | Freeing the block of an indirect entry while the entry still stands in the indirect block |
| `FsImage.IndirectDropped` | code/kernel/fs.c:470-473 | With its entries dropped, the indirect block goes and nothing dangles |
| `FsImage.SetEntry` | code/kernel/fs.c:431-437 | Writing an indirect entry changes that reference and no other |
| `FsImage.DataWrite` | code/kernel/fs.c:540-552 | Rewriting a data block changes no reference |
| `FsImage.DataBytes` | code/kernel/fs.c:540-552 | Rewriting the block of one place in a file changes the bytes of that block of that file and no others |
| `FsImage.BytesKept` | code/kernel/fs.c:406-445 | Mapping more blocks keeps every byte of every mapped stretch |
| `Fs.Fs.Take` | code/kernel/fs.c:53-83 | Marks a free block, zeroes it, logs bitmap and block |
| `Fs.Fs.Balloc` | code/kernel/fs.c:67-90 | A zeroed block that was free, or 0 exactly when no bit is clear and then nothing changed |
| `Fs.Fs.BmapDirect` | code/kernel/fs.c:406-422 | Direct block found or allocated; ownership kept, also on a full disk |
| `Fs.Fs.LoadIndirect` | code/kernel/fs.c:425-430 | Indirect block found or allocated; ownership kept |
| `Fs.Fs.LoadEntry` | code/kernel/fs.c:431-441 | Indirect entry found or allocated; ownership kept |
| `Fs.Fs.BmapIndirect` | code/kernel/fs.c:423-442 | Both indirect steps, including the one that fails in between |
| `Fs.Fs.Bmap` | code/kernel/fs.c:406-445 | The block recorded for bn, mapped if there was room; every file keeps its bytes; at most bitmap, indirect and new blocks are logged; the panic exactly from MAXFILE on |
| `Fs.Fs.Bfree` | code/kernel/fs.c:93-107 | Clears one set bit; "freeing free block" exactly when it is clear |
| `Fs.Fs.TruncDirect` | code/kernel/fs.c:456-461 | Frees the direct blocks without meeting a free one |
| `Fs.Fs.TruncIndirect` | code/kernel/fs.c:463-473 | Frees the entries and then the indirect block without meeting a free one |
| `Fs.Fs.Itrunc` | code/kernel/fs.c:449-477 | No panic; the size is 0, all references are empty, and exactly that file's bits are cleared; every bitmap block changed and the inode block are logged |
| `Fs.Fs.ReadPiece` | code/kernel/fs.c:506-518 | One turn: the bytes of the file within one block; nothing changes |
| `Fs.Fs.Readi` | code/kernel/fs.c:495-520 | Exactly the bytes of the file that the request covers, clipped to the size; refusals as in the code; nothing changes |
| `Fs.Fs.PutPiece` | code/kernel/fs.c:540-552 | A piece inside one block replaces exactly its bytes |
| `Fs.Fs.WritePiece` | code/kernel/fs.c:540-553 | One turn: bmap and copy; every other byte of every file kept |
| `Fs.Fs.WriteTurn` | code/kernel/fs.c:540-553 | One turn advances the write or stops on a full disk; logged blocks stay within the footprint |
| `Fs.Fs.WriteLoop` | code/kernel/fs.c:540-553 | The loop writes a prefix, all of it unless the disk is full |
| `Fs.Fs.GrowTo` | code/kernel/fs.c:554-560 | The size becomes the larger of the old size and the end of the bytes written; no byte of any file changes |
| `Fs.Fs.Writei` | code/kernel/fs.c:529-563 | Replaces exactly the first r bytes at off and nothing else in any file; size is the larger of old size and off+r; -1 exactly for the three refusals and then nothing changes; blocks below the size stay mapped; every block changed is logged |
| `Fs.Fs.WriteThenRead` | code/kernel/fs.c:495-563 | Reading back the place of a write returns the bytes written |
| `Fs.Fs.WriteChunk` | code/kernel/file.c:155-171 | One turn of the loop: the bytes written so far stand; it falls short only on a full disk or where the whole write had to be refused; at most MAXOPBLOCKS distinct blocks logged, with one bitmap block |
| `Fs.Fs.WriteSection` | code/kernel/file.c:160-165 | One transaction: every data or bitmap block it changed, and the inode block, was logged; at most MAXOPBLOCKS of them with one bitmap block |
| `Fs.Fs.FileLoop` | code/kernel/file.c:153-172 | The loop stops early only on a full disk or for a write that had to be refused |
| `Fs.Fs.FileWrite` | code/kernel/file.c:148-173 | The chunks together write the request from f->off on; -1 only on a full disk, beyond the end or for too large a file, and always in the last two cases; every transaction logs at most MAXOPBLOCKS distinct blocks |
| `Fs.FootprintSmall` | code/kernel/file.c:149-153 | Any offset and length up to the chunk size: data, bitmap, indirect and inode blocks together are at most MAXOPBLOCKS |
| `Links.NewFile` | code/kernel/sysfile.c:265-274 | A fresh file has one link that is still to be entered |
| `Links.EnterFile` | code/kernel/fs.c:603-630 | Entering a file in a linked directory keeps every link count |
| `Links.EraseFile` | code/kernel/sysfile.c:222-233 | Clearing a file's entry leaves one link to take back |
| `Links.CountLink` | code/kernel/sysfile.c:145-147 | Raising or lowering nlink together with the pending links keeps every count |
| `Links.MakeDir` | code/kernel/sysfile.c:276-289 | Making a directory in a linked directory keeps counts and tree |
| `Links.RemoveDir` | code/kernel/sysfile.c:217-233 | Removing an empty directory keeps counts and tree |
| `Links.FreeInode` | code/kernel/fs.c:338-364 | The last iput of an inode without links frees an inode that nothing names and that names nothing |
| `Links.NamedByParent` | code/kernel/sysfile.c:188-226 | A directory is named once, by the directory its ".." points to |
| `Links.EmptyHasOneLink` | code/kernel/sysfile.c:215-220 | An empty linked directory has exactly one link |
| `Links.EnterFileIff` | code/kernel/sysfile.c:282-283 | After entering a file and the eventual last iput of its directory all counts are right if and only if the directory was still linked |
| `Links.MakeDirIff` | code/kernel/sysfile.c:276-289 | Making a directory keeps the link counts, and the whole invariant, if and only if the parent was still linked |
| `Links.LostFile` | code/kernel/sysfile.c:245-302 | An image that satisfies the invariant and in which a file created in an unlinked directory keeps a link nobody holds |
| `Links.LostDir` | code/kernel/sysfile.c:245-302 | In the same image a directory made in the unlinked directory makes the count of its old parent wrong |
| `Links.MadeUnlinked` | code/kernel/sysfile.c:276-289 | What a directory made in an unlinked directory adds to the counts: also the ".." of that directory, which counts again |
| `Sysfile.Inodes.constructor` | code/mkfs/mkfs.c:121-132 | A file system with only the root directory satisfies the invariant |
| `Sysfile.Inodes.Dirlookup` | code/kernel/fs.c:575-599 | The first used entry with the name, or the end |
| `Sysfile.Inodes.Dirlink` | code/kernel/fs.c:603-630 | Succeeds exactly when the name is new and there is an empty entry or room; takes the first empty entry, else the end; nothing changes on failure |
| `Sysfile.Inodes.IsDirEmpty` | code/kernel/sysfile.c:173-186 | True exactly when no entry after "." and ".." is used |
| `Sysfile.Inodes.Ialloc` | code/kernel/fs.c:200-221 | The first free inode, or 0 |
| `Sysfile.Inodes.Iput` | code/kernel/fs.c:338-364 | In a consistent image the inode is freed exactly when this was the last reference and it had no links; then no directory entry names it; link counts are kept either way |
| `Sysfile.Inodes.FillDir` | code/kernel/sysfile.c:276-280 | A new directory gets "." and "..", or fails |
| `Sysfile.Inodes.Enter` | code/kernel/sysfile.c:270-301 | A fresh inode is entered, or given back with everything as before |
| `Sysfile.Inodes.Create` | code/kernel/sysfile.c:245-302 | Opens an existing file, refuses other existing names; a new name then stands for the first free inode, fresh with one link, other names for what they did, and nothing else changed; on every failure the image is exactly the old one; link counts kept when the parent is linked |
| `Sysfile.Inodes.LinkBegin` | code/kernel/sysfile.c:138-147 | Refuses directories; counts the link before it is entered |
| `Sysfile.Inodes.LinkEnd` | code/kernel/sysfile.c:149-169 | The name stands for the inode and other names for what they did, or the link is taken back, with any calls in between |
| `Sysfile.Inodes.Unlink` | code/kernel/sysfile.c:188-243 | Succeeds exactly for a found name other than "." and ".." whose inode is no directory or an empty one; then that entry is empty and all others are as before, the name stands for nothing and other names for what they did, the inode has one link less or is free, the parent has one less exactly for a directory, and nothing else changed; counts kept; "unlink: nlink < 1" not reached |
| `Sysfile.DotsTaken` | code/kernel/fs.c:575-599 | "." and ".." are found in the first two entries of every directory, and only these names |
| `Sysfile.PlacedBinds` | code/kernel/fs.c:611-628 | Entering a new name makes it stand for the inode and changes no other name |
| `Sysfile.ClearedUnbinds` | code/kernel/sysfile.c:222-224 | Clearing the entry of a name leaves it standing for nothing and changes no other name, as names in a directory differ |
| `Sysfile.CreatedEntered` | code/kernel/sysfile.c:265-291 | What create leaves, inode by inode |
| `Sysfile.UnlinkedOut` | code/kernel/sysfile.c:211-233 | What unlink leaves, inode by inode |
| `Sysfile.CreateKeeps` | code/kernel/sysfile.c:265-291 | Creation of a file or directory keeps every link count |
| `Sysfile.UnlinkKeeps` | code/kernel/sysfile.c:211-233 | A found entry has an inode with at least one link, and unlinking keeps every count |
| `PageTable.Path` | code/kernel/vm.c:98-116 | Every table a walk goes through is held by the entry above it, and a valid bottom entry is a leaf |
| `PageTable.OnePath` | code/kernel/vm.c:98-116 | Two virtual pages of any two spaces share a bottom table only if they agree in space and upper indices |
| `PageTable.WalkRefines` | code/kernel/vm.c:98-116 | What a walk with alloc, also one that fails halfway, keeps for its own space (method Walk) holds for every space: no translation changes |
| `PageTable.MapRefines` | code/kernel/vm.c:141-175 | What method Mappages does to its own space is all it does to the flat maps of all spaces: exactly its range is added |
| `PageTable.UnmapRefines` | code/kernel/vm.c:190-213 | What method Uvmunmap does to its own space is all it does to the flat maps of all spaces: exactly its range is removed |
| `PageTable.HungTr` | code/kernel/vm.c:107-114 | A new empty table translates nothing, and what was translated still is |
| `PageTable.EnteredTr` | code/kernel/vm.c:168 | Writing one bottom entry changes the translation of one virtual page |
| `PageTable.TakenKeeps` | code/kernel/kalloc.c:68-82 | Taking a page keeps every page with exactly one holder |
| `PageTable.FreedKeeps` | code/kernel/kalloc.c:46-63 | Freeing a page keeps every page with exactly one holder |
| `PageTable.HungKeeps` | code/kernel/vm.c:109-113 | Hanging a table keeps every page with exactly one holder |
| `PageTable.EnteredKeeps` | code/kernel/vm.c:160-173 | Setting or clearing a leaf keeps every page with exactly one holder |
| `PageTable.Extinct` | code/kernel/vm.c:264-290 | When a root is gone and nothing is half torn down, no table and no memory page of the space is left |
| `PageTable.BareSpace` | code/kernel/vm.c:264-280 | A space that translates nothing has no leaf in any of its tables |
| `PageTable.SpaceEnds` | code/kernel/vm.c:284-290 | Unmapping all pages and tearing down the tree frees every page of the space and nothing else |
| `PageTable.OnlyView` | code/kernel/vm.c:298-405 | What is done for one space changes no translation, ownership or byte of another |
| `UserMemory.GainedUndo` | code/kernel/vm.c:225-241 | Unmapping a grown range gives back every page it held |
| `UserMemory.FaultSeen` | code/kernel/vm.c:450-475 | Mapping a zeroed page on a fault is not seen |
| `UserMemory.StoreSeen` | code/kernel/vm.c:344-377 | A store into one page is seen there and nowhere else |
| `UserMemory.WroteNext` | code/kernel/vm.c:368-375 | One page of a copyout replaces exactly the next bytes |
| `UserMemory.CopyingNext` | code/kernel/vm.c:387-403 | One page of a copyin appends exactly the next bytes seen |
| `Vm.Memory.constructor` | code/kernel/kalloc.c:26-31 | After kinit every page is free |
| `Vm.Memory.Freerange` | code/kernel/kalloc.c:33-40 | Exactly the pages of the range become free |
| `Vm.Memory.Kalloc` | code/kernel/kalloc.c:68-82 | The page at the head of the list, filled with junk, or -1 exactly when the list is empty |
| `Vm.Memory.Kfree` | code/kernel/kalloc.c:46-63 | The page goes to the list, filled with junk; the panic exactly outside the managed pages, with nothing changed |
| `Vm.Memory.NewTable` | code/kernel/vm.c:109-113 | A zeroed page hung under an empty entry, or -1 on an empty free list |
| `Vm.Memory.Walk` | code/kernel/vm.c:98-116 | The bottom table for the address or -1; no translation changes; without alloc nothing changes; with alloc it fails only out of memory; the panic exactly from MAXVA on |
| `Vm.Memory.Mappages` | code/kernel/vm.c:141-175 | Adds exactly the first done pages of its range, all of them unless memory runs out; panics exactly for no pages, beyond MAXVA or at a page already mapped |
| `Vm.Memory.UnmapPage` | code/kernel/vm.c:202-212 | One page unmapped and, when asked to, freed |
| `Vm.Memory.Uvmunmap` | code/kernel/vm.c:190-213 | Removes exactly its range; frees exactly the pages it held when asked to |
| `Vm.Memory.Uvmcreate` | code/kernel/vm.c:177-188 | A root that translates nothing, or -1 with nothing changed |
| `Vm.Memory.AddPage` | code/kernel/vm.c:225-239 | A page with the given bytes mapped at v, or only tables gained and fewer than three pages had been free |
| `Vm.Memory.Uvmalloc` | code/kernel/vm.c:215-242 | Zeroed pages exactly in the new range; on failure every leaf page is given back |
| `Vm.Memory.Uvmdealloc` | code/kernel/vm.c:244-260 | Exactly the pages between the rounded sizes are given back |
| `Vm.Memory.FreeEntry` | code/kernel/vm.c:268-278 | One entry: the table below is freed, then the entry cleared; "freewalk: leaf" not reached |
| `Vm.Memory.Freewalk` | code/kernel/vm.c:264-280 | Frees the table and all tables below it, and touches nothing else |
| `Vm.Memory.Uvmfree` | code/kernel/vm.c:284-290 | No page of the space is left but those in the kernel's hand |
| `Vm.Memory.CopyPage` | code/kernel/vm.c:307-320 | One page of the parent copied with its permissions, or nothing where the parent has none |
| `Vm.Memory.Uvmcopy` | code/kernel/vm.c:298-326 | Child pages equal parent pages; on failure every copied page is given back |
| `Vm.Memory.Vmfault` | code/kernel/vm.c:450-475 | Maps a zeroed page exactly for an unmapped address below the size while memory lasts; the user sees no change |
| `Vm.Memory.UserPage` | code/kernel/vm.c:121-139 | The page behind a user address, faulted in if needed; only user pages below the size |
| `Vm.Memory.CopyinPage` | code/kernel/vm.c:387-403 | The bytes seen from the address to the end of its page |
| `Vm.Memory.CopyinTurn` | code/kernel/vm.c:387-403 | The copy goes on by a page, or stops at one that is not readable or for want of memory |
| `Vm.Memory.Copyin` | code/kernel/vm.c:382-405 | Succeeds only on readable pages and returns exactly the bytes seen; fails only at a page that is not readable or for want of memory; nothing seen changes |
| `Vm.Memory.WritablePage` | code/kernel/vm.c:355-366 | The page behind the next byte, faulted in if needed, only if the user may write it |
| `Vm.Memory.CopyoutPage` | code/kernel/vm.c:350-375 | Writes the next bytes up to the end of the page, or stops |
| `Vm.Memory.Copyout` | code/kernel/vm.c:344-377 | Exactly the bytes of a prefix are written, all of them on success; fails only at a page that is not writable or for want of memory; rights unchanged |
| `ProcMemory.Conservation` | code/kernel/kalloc.c:46-82 | Every managed page is in exactly one place: one position of the free list, the tables of one process, one page of one process's memory, or one trapframe |
| `ProcMemory.HeldThere` | code/kernel/proc.c:109-216 | A page found in a place by reading the structures has exactly that place as its holder |
| `ProcMemory.HeldBy` | code/kernel/proc.c:109-216 | Every page is found in the place its holder names |
| `ProcMemory.RestoredBy` | code/kernel/proc.c:259-277 | Once a space is gone the same pages are free as before and all others are untouched |
| `ProcMemory.Kernel.ProcPagetable` | code/kernel/proc.c:176-206 | A space with trampoline and trapframe only, or -1 with all its pages given back |
| `ProcMemory.Kernel.ProcFreePagetable` | code/kernel/proc.c:210-216 | No page of the space is left |
| `ProcMemory.Kernel.Freeproc` | code/kernel/proc.c:155-172 | A process, also a half-built one, gives back all its pages; after a complete one page conservation holds again |
| `ProcMemory.Kernel.Allocproc` | code/kernel/proc.c:109-150 | The first unused slot gets the next pid, a trapframe and a space; it fails only when every slot is in use or fewer than 6 pages are free, and then the same pages are free as before |
| `ProcMemory.Kernel.Growproc` | code/kernel/proc.c:236-255 | Growth shows zeros in the new pages, shrinking keeps what is left, shrinking below zero changes nothing; failure only beyond TRAPFRAME or for want of memory |
| `ProcMemory.Kernel.Sbrk` | code/kernel/sysproc.c:39-65 | The size changes by n, or not at all beyond TRAPFRAME, below zero or for want of memory; lazy and eager growth give the same size and the same memory as seen |
| `ProcMemory.SbrkBothWays` | code/kernel/sysproc.c:39-65 | The same sbrk on two kernels that see the same memory, lazily on one and eagerly on the other: same result and same memory, or eager growth ran out of memory |
| `ProcMemory.Kernel.Fault` | code/kernel/vm.c:450-475 | A fault maps a user page exactly for an unmapped address below the size while memory lasts, keeps page conservation and is seen by nobody |
| `ProcMemory.Kernel.ReadUser` | code/kernel/vm.c:382-405 | copyin for a process keeps page conservation, is seen by nobody and returns what is seen |
| `ProcMemory.Kernel.WriteUser` | code/kernel/vm.c:344-377 | copyout for a process keeps page conservation and is seen by no other process |
| `ProcMemory.Kernel.Kfork` | code/kernel/proc.c:259-306 | The child, in the first unused slot with the next pid, sees the parent's memory and has its registers with a0 zero; the parent sees no change; it fails only when every slot is in use or for want of pages, and then exactly the pages taken are free again |
| `ProcMemory.Kernel.ForkMemory` | code/kernel/proc.c:259-277 | The part of kfork that takes pages, and when it may fail |
| `ProcMemory.Kernel.GiveUp` | code/kernel/proc.c:272-276 | freeproc of a process made since an earlier state: process table and pages are as they were then |
| `ProcMemory.UserKept` | code/kernel/vm.c:344-475 | Faults and copies for one process keep page conservation and are seen by no other process |
| `ProcMemory.AlikeStep` | code/kernel/sysproc.c:39-65 | Two machines that see the same memory do so after the same operation |
| `ProcMemory.LazyIsEager` | code/kernel/sysproc.c:39-65 | Two runs of the same successful operations, each step as Sbrk, Fault, ReadUser and WriteUser promise it, see the same memory throughout, whichever way each of them grew |
| `ProcMemory.AlikeReads` | code/kernel/vm.c:382-405 | Machines that see the same memory read the same bytes |
| `SleepLock.NoLostWakeup` | code/kernel/sleeplock.c:21-41 | Every interleaving: a process sleeping on a free lock is still ahead of a releaser that holds the inner spinlock; at most one holder, and holdingsleep is true for it alone |
| `SleepLock.RunInv` | code/kernel/proc.c:552-597 | The invariant over every run |
| `SleepLock.StepInv` | code/kernel/proc.c:552-597 | Every step of sleep, wakeup, acquiresleep and releasesleep keeps the invariant |
| `SleepLock.BoundedSleep` | code/kernel/proc.c:583-597 | A process asleep on a lock that is being released stays asleep for at most a bounded number of the releaser's steps, whatever the others do |
| `SleepLock.ComesNearer` | code/kernel/proc.c:583-597 | Every step of the releaser that does not wake the sleeper brings it nearer, and nobody else's step moves it |
| `SleepLock.NotStuck` | code/kernel/proc.c:583-597 | The releaser can move, or the process whose entry lock it waits for can |
| `ExitWait.FamilyOrder` | code/kernel/proc.c:259-415 | Every interleaving from boot: processes from SLEEPING through ZOMBIE other than init have a live parent; while wait_lock is free nobody asleep in kwait has a zombie child; no two reaped statuses belong to the same process |
| `ExitWait.ReapedExits` | code/kernel/proc.c:326-415 | Every run from boot: each status that kwait returned for a pid is what the process with that pid passed to kexit at an earlier move |
| `ExitWait.WaitersHaveKids` | code/kernel/proc.c:370-415 | Every run from boot: whoever sleeps in kwait, or is about to, has a child |
| `ExitWait.OrphanToInit` | code/kernel/proc.c:309-321 | Once its parent has exited, a process that still exists is a child of init, and getppid says 1 |
| `ExitWait.HolderMoves` | code/kernel/proc.c:309-415 | Whoever holds wait_lock can move, or waits for a process that can |
| `ExitWait.RunInv` | code/kernel/proc.c:259-415 | The family invariant over every run |
| `ExitWait.StructureKept` | code/kernel/proc.c:259-415 | Every step of kfork, kexit, reparent, kwait, sleep and wakeup keeps the family structure |
| `ExitWait.ForkSteps` | code/kernel/proc.c:259-306 | The steps of kfork keep what every entry keeps with its parent |
| `ExitWait.ExitSteps` | code/kernel/proc.c:309-366 | The steps of kexit and reparent keep it |
| `ExitWait.WaitSteps` | code/kernel/proc.c:370-415 | The steps of kwait keep it |
| `ExitWait.StateSteps` | code/kernel/proc.c:552-597 | sleep, wakeup and dispatch keep it |
| `ExitWait.PidsKept` | code/kernel/proc.c:92-103 | Pids in use stay distinct, and records of exits and reaps stay consistent |
| `ExitWait.NoChildrenLeft` | code/kernel/proc.c:379-410 | A scan of kwait that saw no child means there is none |
| `ExitWait.ReapedByParent` | code/kernel/proc.c:382-404 | Only the current parent reaps, only a zombie, once, with its status |
| `ExitWait.GetppidLive` | code/kernel/sysproc.c:118-127 | getppid returns the pid of a live process, 1 exactly for init and children of init |
| `Scheduler.Cpu.Choose` | code/kernel/proc.c:424-474 | The RUNNABLE process with the least pid is made RUNNING and exactly its lock is held; nothing happens if there is none |
| `Scheduler.Cpu.Turn` | code/kernel/proc.c:431-467 | A whole turn of the loop is a dispatch and a leave of the machine that FirstComeFirstServed is about, keeps its invariant, and ends with no lock held |
| `Scheduler.FirstComeFirstServed` | code/kernel/proc.c:424-511 | Every run from boot: when a process is dispatched for the first time, every process dispatched before it was created before it |
| `Scheduler.OneRunning` | code/kernel/proc.c:424-511 | Every run from boot: exactly the CPU's process is RUNNING |
| `Scheduler.StepInv` | code/kernel/proc.c:424-511 | Every step keeps pids distinct and those never dispatched RUNNABLE |
| `Scheduler.InitInv` | code/kernel/proc.c:219-232 | The table after userinit satisfies the invariant |
| `Scheduler.RoundRobinBound` | code/kernel/proc_RR_backup.c:419-457 | Under round robin a process that stays RUNNABLE waits for at most NPROC-1 dispatches of others |
| `Pipe.RingIsQueue` | code/kernel/pipe.c:76-134 | Any interleaving of reads and writes from any counter values: the ring delivers what a bounded queue delivers |
| `Pipe.PutQueues` | code/kernel/pipe.c:95-96 | A byte put into a ring that is not full is the next byte accepted, also across wrap-around |
| `Pipe.DropQueues` | code/kernel/pipe.c:121-129 | The head of a ring that is not empty is the next byte to deliver |
| `Pipe.FullEmpty` | code/kernel/pipe.c:88-121 | The wrapped counters compare as the true counts do |
| `Pipe.WrapCompare` | code/kernel/pipe.c:88-121 | Equality of 32-bit counters decides full and empty |
| `Pipe.Pipe.constructor` | code/kernel/pipe.c:22-56 | An empty pipe, both ends open |
| `Pipe.Pipe.CloseThenRead` | code/kernel/pipe.c:58-134 | End of file: once the writer has closed, a reader never sleeps and gets exactly what is left, in order, then nothing; the pipe goes only if the reader has closed too |
| `Pipe.Pipe.CloseThenWrite` | code/kernel/pipe.c:58-103 | Broken pipe: once the reader has closed, a write of anything fails and accepts nothing; the pipe goes only if the writer has closed too |
| `Pipe.Pipe.PutByte` | code/kernel/pipe.c:95-96 | One byte more accepted |
| `Pipe.Pipe.WriteSection` | code/kernel/pipe.c:76-103 | Accepts exactly the bytes it reports; sleeps only on a full ring; -1 exactly for a closed reader or a killed process |
| `Pipe.Pipe.ReadSection` | code/kernel/pipe.c:105-134 | Delivers exactly the next bytes; sleeps exactly on an empty ring with the writer open; a failed copy delivers nothing more |
| `Grep.Match` | code/user/grep.c:72-82 | True exactly when the pattern, by its declarative meaning, matches at some position; terminates |
| `Grep.MatchHere` | code/user/grep.c:85-97 | True exactly when a division of the text from here on fits the pattern |
| `Grep.MatchStar` | code/user/grep.c:100-108 | True exactly when some run of c followed by a match exists |
| `Grep.MatchesFirst` | code/user/grep.c:85-97 | A pattern matches exactly when its first item covers a stretch after which the rest matches |
| `Grep.MatchesOne` | code/user/grep.c:94-96 | The single-character case |
| `Grep.MatchesEnd` | code/user/grep.c:92-93 | A trailing $ matches exactly at the end |
| `Umalloc.Heap.Malloc` | code/user/umalloc.c:63-90 | For requests up to INT_MAX-31 bytes: a block that holds the request and overlaps no live block, or 0 only when sbrk failed; sbrk is asked, with the true byte count, only when nothing fits; units free, live and obtained stay in balance |
| `Umalloc.Heap.Free` | code/user/umalloc.c:24-44 | The block stops being live; its units stay in the heap; the list stays one ordered cycle with no two blocks touching |
| `Umalloc.Heap.FindPlace` | code/user/umalloc.c:30-32 | The search ends at the free block below the freed one |
| `Umalloc.Heap.JoinAbove` | code/user/umalloc.c:33-37 | The block above is swallowed when it touches |
| `Umalloc.Heap.JoinBelow` | code/user/umalloc.c:38-43 | The block below grows when it touches, else the freed block is linked in |
| `Umalloc.Heap.Release` | code/user/umalloc.c:24-44 | A loose block becomes free, and a request of its size now fits |
| `Umalloc.Heap.Morecore` | code/user/umalloc.c:46-61 | At least the units asked for are added from sbrk, or nothing changes |
| `Umalloc.Heap.Cut` | code/user/umalloc.c:75-84 | A fitting block is taken whole or by its tail |
| `Umalloc.Heap.Search` | code/user/umalloc.c:74-89 | The search terminates, finds a fitting block if there is one, and asks sbrk at most once |
| `Umalloc.Heap.Start` | code/user/umalloc.c:70-73 | The first call makes a cycle of the base header |
| `Umalloc.OneOwner` | code/user/umalloc.c:24-90 | Every unit belongs to at most one block, free or live |
| `Umalloc.AbsorbNext` | code/user/umalloc.c:33-35 | Joining the block above keeps the cycle, the live blocks and the balance of units |
| `Umalloc.GrowBelow` | code/user/umalloc.c:38-40 | Joining the block below keeps them |
| `Umalloc.Insert` | code/user/umalloc.c:36-43 | Linking the block in keeps them |
| `Umalloc.TakeWhole` | code/user/umalloc.c:76-77 | Taking a block whole keeps them |
| `Umalloc.TakeTail` | code/user/umalloc.c:78-82 | Splitting a block keeps them |
| `Umalloc.UnitsEnough` | code/user/umalloc.c:69 | The units asked for hold the request and one header, with less than one unit to spare |
| `Umalloc.SbrkArgument` | code/user/umalloc.c:52-54 | For every 32-bit request: the int that sbrk gets is the byte count that morecore goes on to free if and only if the request is at most INT_MAX-31 bytes |
| `Umalloc.SbrkMisled` | code/user/umalloc.c:52-54 | Above that bound sbrk is told to shrink, or gets 16 bytes where morecore frees 2^28+1 units |
| `Umalloc.StopsAt` | code/user/umalloc.c:30-32 | The search of free stops at one block of the cycle only |

## Left out

- Device drivers, traps, start-up, assembly, console and formatted output: interfaces to hardware and display.
- `exec` and ELF loading: mostly file reading and register set-up on top of the page-table functions.
- `copyinstr`: it does not fault pages in, so the lazy-memory result does not hold for it.
- `mkfs` beyond the initial image it leaves.
- Path parsing, `namex`, file descriptors, the inode table with its reference counts, and `ireclaim`.
- User copies that fail halfway in `readi` or `writei`.
- That `bget` always finds a buffer: it depends on the footprints of all operations.
- Several file-system devices, and uniqueness of buffers for device 0.
- Kernel page table and kernel stacks: built once at boot from pages that are then no longer managed here.
- Pipe buffers, which `pipealloc` takes with `kalloc`: they are not among the places of a page here.
- `uvmclear` and the guard page are not operations here, although mapped pages closed to the user are allowed for.
- Choice of the least pid on several CPUs: locks of rejected candidates are released during the scan.
- The rest of `grep.c` (buffering of lines), the shell and the other user programs.
- BufferCache.Bcache.Bget: does not model the buffer's sleep lock, because SleepLock covers it on its own.
- BufferCache.Bcache.Bwrite: does not model the holdingsleep panic, for the same reason.
- BufferCache.Bcache.Brelse: does not model the holdingsleep panic, for the same reason.
- Fs.Fs.Readi: does not model a copy to the caller that fails, because the copy is not part of the file system image.
- Fs.Fs.WritePiece: does not model a copy from the caller that fails, because the source then releases a changed buffer unlogged.
- Fs.Fs.WriteTurn: as WritePiece.
- Fs.Fs.WriteLoop: as WritePiece.
- Fs.Fs.Writei: as WritePiece.
- Fs.Fs.FileWrite: does not model other writers of the same file between its transactions.
- Sysfile.Inodes.Dirlink: takes room for one more entry as a parameter, because Fs models when a write finds a block.
- Sysfile.Inodes.FillDir: takes room as a parameter.
- Sysfile.Inodes.Enter: takes room as a parameter.
- Sysfile.Inodes.Create: takes room as a parameter, and path lookup as done.
- Sysfile.Inodes.LinkEnd: takes room and the last reference as parameters.
- Sysfile.Inodes.Unlink: takes the last reference as a parameter.
- Scheduler.FirstComeFirstServed: takes a kernel call that does not sleep as one step, because nothing preempts it on one CPU.
- Scheduler.Cpu.Turn: lets the chosen process do nothing but leave the CPU; what it does before is in the other actions of the machine.
- Vm.Memory.Mappages: the panics for unaligned addresses do not arise, because addresses are page numbers.
- ProcMemory.Kernel.Kfork: does not model open files, current directory, name and parent link; ExitWait models the parent link.
- ProcMemory.LazyIsEager: is about operations that succeed, because the two ways of growing run out of memory at different times.
- Umalloc.Heap.Malloc: requests above INT_MAX-31 bytes, where the code breaks as SbrkMisled shows.
- Umalloc.Heap.Morecore: the same bound, in units.
