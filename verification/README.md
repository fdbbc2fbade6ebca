# MINIX 2.0.3: file system, packet buffers and boot monitor

This project models the parts of MINIX whose correctness depends on state that
is shared, linked or counted, and proves what they keep over every run:

- the **two-level block cache** of the file system server: LRU list, hash chains,
  pins, dirty bits, grouped write-back, and a FIFO of evicted blocks on the RAM
  disk (`Level2`, `ShellSort`, `CacheLinks`, `Coherence`, `Cache`, `ReadAhead`,
  `CacheRuns`);
- **zones and files**: the bit maps with their search hints, zone maps with
  single and double indirect blocks, truncation, and the contents of regular
  files as sparse byte arrays (`Bitmap`, `Super`, `Indirect`, `ZoneMap`,
  `Geometry`, `Files`, `FileZones`, `Truncate`, `FileData`, `FileWrite`,
  `FileCalls`, `FileRuns`, `FileStale`);
- the **packet buffers** of the network server: chains of reference-counted
  accessors on reference-counted buffers (`PacketHeap`, `PacketSteps`, `Packet`,
  `PacketOps`, `PacketAppend`, `PacketMerge`, `PacketJoin`, `PacketResult`,
  `PacketRuns`);
- **pipes** that suspend and revive processes (`Pipes`, `PipeRuns`), **record
  locks** (`Locks`, `LockRuns`), **link counts** (`Links`, `LinkCalls`,
  `LinkRuns`), the **timer chain** of the network server (`Timers`,
  `TimerRuns`), and the **command language** of the boot monitor (`Monitor`).

Objects that the C code updates in place are classes with the same fields;
C pointers into tables are indexes, and `NIL` (or `None`) is the null pointer.
Loops of the C code are loops.  Ghost fields hold what the invariants talk
about: the LRU order, the owner of each zone, the bytes visible through an
accessor, the bytes a pipe has accepted.  Names that end in `Ok`, `Good` or
`Keeps` are lemmas about one step of an invariant.

What the outside world decides is a parameter or an arbitrary choice: device
transfers of one block or more, the contents of a buffer taken without reading
it, permission checks, the clock, the processes that keep an inode open, and
what an expired timer's function does.

Predicates that many steps pass on begin with `true ==`, and contracts that
pass them on sometimes end with `== true`: the definition is then one fact for
the verifier, which would otherwise prove each of its parts separately at every
step.

Where a promise of the code has an exception, the exception is stated exactly,
as a condition on the state before the call, with a state in which it happens:

- A write that starts at the end of a file inside a zone that was never
  allocated (the state a write beyond the end leaves when it runs out of space)
  exposes what the new zone held, unless the end lies in the first block of that
  zone.  `FileCalls.Write` says what the file then holds, and that it is right if
  and only if the write does not begin at such an end (`TailHole`) or the leading
  blocks of the zone that `alloc_zone` is going to pick (`NextFor`) are zero;
  `FileStale.WhateverFree` says when it is right whatever free zones hold;
  `FileStale.OldBytesShow` is a run of four calls after which a file shows the
  bytes of another one.
- The size check of `read_write` is exact only for counts up to the maximum file
  size, and it is made before `O_APPEND` moves the position
  (`FileCalls.SizeCheck`, `FileCalls.OutgrowsWhen`, `FileCalls.OutgrowsExamples`).
- An unlock runs out of lock slots if and only if `Locks.Overflow` holds of the
  table before, and then revives nobody: waiting processes are stuck unless what
  is left of the locks still blocks them (`Locks.LockTable.Unlock`,
  `Locks.LoseWakeup`).
- A partial count stays behind in a process whose resumed pipe write is turned
  away, which depends on the pipe alone (`PipeRuns.ResumeOne`); its next call
  then reports too many bytes (`PipeRuns.Serve`, `PipeRuns.OverReport`).
- An inode has as many links as entries name it after every call, except that
  unlinking the last name of a directory nobody uses loses the entries that are
  left in it (`LinkRuns.Run`, `LinkRuns.LostLink`).
- `truncate` leaves zones behind the end of a file allocated
  (`Truncate.Truncate`); files that show their contents have none.
- A function body of the boot monitor reads back as the same tokens if and only
  if no argument but the last lacks its closing parenthesis (`Monitor.RoundTrip`,
  `Monitor.UnreadableLine`), and defining it follows a null pointer if and only if
  the body ends with a word at the end of the token list
  (`Monitor.DefineFunction`, `Monitor.RunsOffLine`, `Monitor.RunsOffExample`).

## Model

| member | source | states |
|---|---|---|
| Level2.LookupAt | minix/src/fs/cache2.c:67-82 | scanning backwards from the newest slot finds the most recently stored version of a block |
| Level2.LookupPush | minix/src/fs/cache2.c:88-109 | a stored block is found afterwards; any other block is found as before or has dropped out, never changed |
| Level2.LookupPurge | minix/src/fs/cache2.c:115-128 | purging a device hides its blocks and no others |
| Level2.Level2.constructor | minix/src/fs/cache2.c:40-46 | the second level starts empty, with at most MAX_BUF2 slots |
| Level2.Level2.Get | minix/src/fs/cache2.c:52-82 | a hit is exactly what the FIFO holds newest, the key counts never hide a hit, and use of the RAM disk as a device turns the level off |
| Level2.Level2.Put | minix/src/fs/cache2.c:88-109 | a store is a push on the bounded FIFO; the key counts stay exact |
| Level2.Level2.Invalidate | minix/src/fs/cache2.c:115-128 | all entries of the device, and only those, are dropped |
| ShellSort.Sort | minix/src/fs/cache.c:339-355 | the queue ends ordered by block number and is a permutation of what it was |
| CacheLinks.RmLruStep | minix/src/fs/cache.c:412-431 | unlinking a free buffer leaves a well-formed chain of the other free buffers |
| CacheLinks.PutFrontStep | minix/src/fs/cache.c:151-161 | a released one-shot buffer becomes the head of the free chain |
| CacheLinks.PutRearStep | minix/src/fs/cache.c:162-173 | a released buffer becomes the tail of the free chain |
| CacheLinks.PinnedCount | minix/src/fs/main.c:182-203 | the buffers missing from the LRU list are exactly the pinned ones, so bufs_in_use counts them |
| Coherence.WrittenCoherent | minix/src/fs/cache.c:306-320 | writing dirty buffers back to their own blocks changes nothing a client can see |
| Coherence.DropCoherent | minix/src/fs/cache.c:91-103 | replacing a clean buffer loses no contents, whether its block goes to the second level or not |
| Coherence.PurgeCoherent | minix/src/fs/cache.c:287-300 | once the device is invalidated, clients see what its medium holds |
| Coherence.PurgedSame | minix/src/fs/cache.c:287-300 | that loses nothing if and only if every dirty buffer of the device agrees with its block |
| Cache.Cache.constructor | minix/src/fs/main.c:182-203 | buf_pool leaves all buffers free, on one LRU list and one hash chain, showing what the disks hold |
| Cache.Cache.Unhash | minix/src/fs/cache.c:75-89 | the evicted buffer leaves its hash chain, the chains still partition the others |
| Cache.Cache.Find | minix/src/fs/cache.c:55-69 | the hash chain is searched completely: a buffer is found if and only if the block is held |
| Cache.Cache.RunLength | minix/src/fs/cache.c:361-369 | the next request covers as many consecutive blocks as there are, at least one of them |
| Cache.Cache.WriteScattered | minix/src/fs/cache.c:324-406 | with a device that moves at least one block a call, every queued buffer reaches its own block and is clean |
| Cache.Cache.FlushAll | minix/src/fs/cache.c:306-320 | exactly the dirty buffers of the device are written, each to its own block |
| Cache.Cache.Evict | minix/src/fs/cache.c:71-99 | the least recently used free buffer is taken; a dirty one is flushed with its whole device first |
| Cache.Cache.Fill | minix/src/fs/cache.c:109-119 | the new buffer shows the client's contents, from the second level or from disk, unless it was not to be read |
| Cache.Cache.GetBlock | minix/src/fs/cache.c:27-119 | get_block returns the last contents written, pins one buffer, takes the least recently used one on a miss, keeps all pinned buffers, and panics only when every buffer is pinned |
| Cache.Cache.PutBlock | minix/src/fs/cache.c:126-181 | one pin is dropped; the block keeps its identity and its contents, and its place in the LRU order is the front or the rear |
| Cache.Cache.Modify | minix/src/fs/write.c:235-236 | a buffer overwritten in hand becomes the contents of its block |
| Cache.Cache.Flush | minix/src/fs/cache.c:306-320 | no buffer of the device stays dirty and no contents change |
| Cache.Cache.Invalidate | minix/src/fs/cache.c:287-300 | no buffer keeps the device; exactly the contents that were not written back are lost |
| ReadAhead.ReadScattered | minix/src/fs/cache.c:360-405 | of the queue in block order, buffer j of the request holds block base + j with its contents as far as the driver gets; the rest are released without a device, and no other buffer changes |
| ReadAhead.Rahead | minix/src/fs/read.c:402-512 | read-ahead returns the block asked for with its contents and leaves every pinned buffer alone |
| CacheRuns.Run | minix/src/fs/cache.c:27-181 | every run of get, new block, hole read, read-ahead, modify, put, flush and invalidate-after-sync shows what a plain map from addresses to blocks shows, also after use of the RAM disk has ended the second level |
| Bitmap.ConvBitsTwice | minix/src/fs/utility.c:122-130 | swapping the bytes of a bit map word twice gives it back |
| Bitmap.StoreBit | minix/src/fs/super.c:84-88 | storing a word with one bit changed changes that bit of the map only, in either byte order |
| Bitmap.ScanFound | minix/src/fs/super.c:55-96 | the first clear bit met by the circular scan is the least one from its start, or the least one of all |
| Bitmap.BitMap.AllocBit | minix/src/fs/super.c:26-97 | NO_BIT if and only if no bit below map_bits is clear; otherwise the least clear bit from the start of the search, else of all, and only it is set |
| Bitmap.BitMap.FreeBit | minix/src/fs/super.c:103-141 | the bit is cleared and no other; freeing a clear bit is the panic |
| Super.HintFinds | minix/src/fs/cache.c:206-222 | as all bits below the hint are set, the search from it finds the least clear bit of the map |
| Super.OneInUse | minix/src/fs/cache.c:196-203 | bit b stands for zone b + firstdatazone - 1, one to one |
| Super.SuperBlock.AllocZone | minix/src/fs/cache.c:187-223 | the zone that map and hint determine beforehand, which was free; none only if all are in use; the least one when hunting from the first data zone; hints stay below every free zone |
| Super.SuperBlock.FreeZone | minix/src/fs/cache.c:229-244 | the zone is free again; outside the data zones nothing happens; only a free zone causes the panic |
| Super.SuperBlock.AllocInode | minix/src/fs/inode.c:105-141 | the least free inode number; none is lost when the inode table is full |
| Super.SuperBlock.FreeInode | minix/src/fs/inode.c:184-198 | the number is free again and the hint stays right |
| Indirect.RdIndir | minix/src/fs/read.c:350-376 | an entry of an indirect block, V1 or V2, in either byte order |
| Indirect.WrIndir | minix/src/fs/write.c:128-144 | the entry reads back as written and all other entries are as before, V1 and V2, both byte orders |
| Indirect.SameConversion | minix/src/fs/utility.c:122-130 | conv2 on the bits of a bit map word is conv2 on the number they stand for |
| Indirect.Conv4Back | minix/src/fs/utility.c:136-150 | reversing the four bytes of a zone number twice gives it back |
| ZoneMap.MappedAdd | minix/src/fs/write.c:37-122 | naming a free zone in one empty place keeps every zone in use named in exactly one place |
| ZoneMap.MappedSet | minix/src/fs/write.c:37-122 | naming a free zone in any place leaves every zone named in exactly one place, but for the zone that was there |
| ZoneMap.EntryStored | minix/src/fs/write.c:113-118 | a store into one indirect block changes the zone of that place in no other place of any file |
| ZoneMap.SubStored | minix/src/fs/write.c:86-111 | a new single indirect block, zeroed, changes no zone number but its own place |
| ZoneMap.RootStored | minix/src/fs/write.c:58-72 | a store into the inode changes the zone of that place only |
| Geometry.DoubleIndex | minix/src/fs/read.c:322-331 | quotient and remainder by the entries of a block find the place of a doubly indirect zone |
| Files.Fs.ReadMap | minix/src/fs/read.c:286-344 | the block of the zone that the file's place names, or NO_BLOCK exactly where none is named |
| Files.Fs.WriteMap | minix/src/fs/write.c:37-122 | on success the position maps to the zone, every other position of every file as before, and a zone that was there is the only one in use that nobody names; on failure, only for lack of space, nothing is remapped |
| FileZones.ClearZone | minix/src/fs/write.c:150-185 | the blocks from the given point to the end of its zone become zero, if they are in the zone and it exists; nothing else changes |
| FileZones.NewBlock | minix/src/fs/write.c:191-238 | a zero block of an existing zone or of the zone that alloc_zone was going to pick, whose earlier blocks are left alone at the end of the file and zeroed otherwise; or a failure that frees the zone again and leaves all files as they were, and that takes a lack of free zones where the inode itself names the zone |
| Truncate.Truncate | minix/src/fs/link.c:318-372 | every zone of the file below its size is freed exactly once and so are its indirect zones, none of any other file, and free_bit does not panic; nothing of the file is left in use if and only if all its zones start below its size |
| Truncate.Empty | minix/src/fs/open.c:121-126 | truncate and wipe_inode leave an empty file; the zones in use are those of the other files if and only if none started behind the end |
| FileData.OneContents | minix/src/fs/read.c:104-173 | what a file shows determines its contents |
| FileData.SpliceTwice | minix/src/fs/read.c:127-157 | chunks written one after another are one write |
| FileData.ChunkStored | minix/src/fs/read.c:210-274 | a chunk changes its own block of its own file; the file has the new contents if and only if its other blocks were right |
| FileData.HoleFilled | minix/src/fs/write.c:222-236 | a zone put into a hole shows the old contents if it was zeroed; at the end of the file its earlier blocks show what they held |
| FileData.FoundSame | minix/src/fs/write.c:222-236 | the contents survive that if and only if the zone about to be taken holds zeros there |
| FileWrite.WriteMapped | minix/src/fs/read.c:238-264 | writing into an existing block, read first unless it lies beyond the end or is overwritten whole, gives exactly the new contents |
| FileWrite.WriteHole | minix/src/fs/read.c:244-246 | writing into a hole lays the chunk over the contents, or over what the zone about to be taken uncovers; a failure changes no file |
| FileWrite.WriteChunk | minix/src/fs/read.c:210-274 | rw_chunk as a whole: the file, the sizes and all other files after it |
| FileWrite.ChunkExact | minix/src/fs/read.c:210-274 | the file is right after a chunk if and only if the zone about to be taken uncovered nothing but zeros |
| FileWrite.Extended | minix/src/fs/read.c:108-115 | after clear_zone the file reads as zeros up to the later position |
| FileCalls.SizeCheck | minix/src/fs/read.c:105-106 | the unsigned size check is right if and only if the count does not exceed the maximum size, or the position lies beyond the wrapped bound |
| FileCalls.OutgrowsWhen | minix/src/fs/read.c:105-109 | a write that passes the check outgrows the maximum exactly for an append whose old position fits, or a count above the maximum |
| FileCalls.OutgrowsExamples | minix/src/fs/read.c:105-109 | an append and a large write that pass the check and leave a file larger than the maximum |
| FileCalls.Write | minix/src/fs/read.c:104-180 | refused exactly when the size check says so; else the bytes written are in place, a gap before them reads as zeros, every other byte of every file is as before, also when space runs out; right if and only if the write does not begin at an unallocated tail, or the next zone is clean there; where the inode itself names the zone, nothing is written only if no zone was free |
| FileCalls.WriteExact | minix/src/fs/write.c:222-236 | the same equivalence for any outcome of a write |
| FileCalls.Read | minix/src/fs/read.c:127-157 | the bytes of the contents from the position on, as many as there are |
| FileRuns.TruncateReady | minix/src/fs/link.c:341-347 | a file that shows its contents has no zone that starts at or after its size |
| FileRuns.Run | minix/src/fs/read.c:42-204 | any run of writes, reads and truncations, also after writes that ran out of space, reads and leaves what byte arrays would, but for a write at the end of a file with an unallocated tail; a write that runs out of space reports ENOSPC whatever it has written, one that is refused EFBIG |
| FileRuns.Determined | minix/src/fs/read.c:104-180 | unless it begins at such an end, a write does exactly what it does to a byte array |
| FileRuns.FullRun | minix/src/fs/read.c:42-204 | as long as no call reports ENOSPC, no file gets such an end and every call is that of byte arrays whose unwritten bytes are zero |
| FileStale.WhateverFree | minix/src/fs/write.c:206-238 | a write is right whatever the free zone holds if and only if it does not begin at the end of a file inside an unallocated zone |
| FileStale.GrowInVain | minix/src/fs/read.c:104-187 | on a full file system, two blocks to a zone, a byte written behind the end of an empty file is not written, but the file grows and ends inside a zone that it does not have |
| FileStale.WriteAtHole | minix/src/fs/write.c:206-236 | a byte written at the end of that file, once a zone is free, makes the old block of that zone readable as the first block of the file |
| FileStale.OldBytesShow | minix/src/fs/read.c:42-204 | the run from an empty file and one that has the only zone: a write in vain, the other file truncated, the write again, and a read that returns the other file's bytes |
| PacketHeap.ViewUnique | minix/src/inet/buf.c:877-1001 | the bytes behind a reference are determined by the heap |
| PacketHeap.EditOwned | minix/src/inet/buf.c:658-684 | changing slices, private buffers and the last link of an unshared chain keeps all counts and every other view |
| PacketSteps.DupKeeps | minix/src/inet/buf.c:414-445 | bf_dupacc keeps all counts and lists and shows the same bytes |
| PacketSteps.AllocKeeps | minix/src/inet/buf.c:227-330 | taking a free buffer keeps one accessor per free buffer |
| PacketSteps.FreeKeeps | minix/src/inet/buf.c:358-412 | releasing the last reference returns the accessor to the right free list and changes no remaining view |
| Packet.Pool.constructor | minix/src/inet/buf.c:115-181 | bf_init sets one accessor aside for each buffer; it panics exactly when there are fewer accessors than buffers |
| Packet.Pool.DupAcc | minix/src/inet/buf.c:414-445 | a private accessor with the same fields and bytes; it fails exactly when no accessor is free |
| Packet.Pool.Afree | minix/src/inet/buf.c:347-412 | one reference is dropped; what is still referenced is untouched and shows the same bytes |
| Packet.Pool.BufSize | minix/src/inet/buf.c:447-463 | the number of bytes visible from the accessor |
| Packet.Pool.Cut | minix/src/inet/buf.c:546-631 | exactly the bytes asked for, in a chain of its own; every older accessor is untouched |
| Packet.Pool.DelHead | minix/src/inet/buf.c:637-684 | exactly the bytes after the offset; no other reference shows different bytes |
| PacketOps.MemReq | minix/src/inet/buf.c:227-330 | a fresh chain of exactly the size asked for, on buffers nobody else uses |
| PacketOps.CopyChain | minix/src/inet/buf.c:512-540 | all bytes of the source, in order, across accessors of any lengths |
| PacketOps.Pack | minix/src/inet/buf.c:488-543 | the same bytes, in one private accessor when they fit one buffer; other references unchanged |
| PacketAppend.Privatize | minix/src/inet/buf.c:712-742 | the first chain made private without its empty accessors, with the same bytes |
| PacketMerge.MergeInPlace | minix/src/inet/buf.c:762-780 | the merge inside a buffer that nobody else uses: both parts, and no other view changes |
| PacketJoin.MergeFresh | minix/src/inet/buf.c:782-831 | the merge into a fresh buffer and the exchange of accessors: both parts, and no other view changes |
| PacketResult.Append | minix/src/inet/buf.c:691-838 | exactly the concatenation; both references are used up, all others show the same bytes |
| PacketResult.Align | minix/src/inet/buf.c:1145-1187 | the same bytes through one new reference, the first `size` of them (or all there are) in one piece; all others unchanged |
| PacketRuns.FillChain | minix/src/inet/buf.c:227-330 | writing data through a fresh chain leaves exactly that data in it and nothing else changed |
| PacketRuns.Run | minix/src/inet/buf.c:877-1001 | in every run of the buffer operations all counts are exact and every reference shows the bytes that the same operations on strings give; it ends early only with an empty free list |
| Pipes.ReleaseGood | minix/src/fs/pipe.c:188-211 | waking all sleepers of one kind on a pipe is safe, and none of them is left |
| Pipes.SleepGood | minix/src/fs/pipe.c:161-182 | a process may go to sleep when nobody sleeps at the other end |
| Pipes.DescriptorGood | minix/src/fs/open.c:409-416 | counts of open ends stay exact, and an end goes only when nobody sleeps at the other |
| Pipes.Server.Release | minix/src/fs/pipe.c:188-211 | with a count no smaller than the sleepers, every sleeper of that kind is revived; susp_count and reviving stay exact |
| Pipes.Server.DoRead | minix/src/fs/pipe.c:99-115 | a read suspends exactly on an empty pipe with a writer, wakes the writers then, and otherwise returns the next bytes of the stream |
| Pipes.Server.DoWrite | minix/src/fs/pipe.c:117-154 | writes up to PIPE_SIZE are never split, a nonblocking write suspends only at exactly PIPE_SIZE bytes, what is accepted is appended to the stream, and the reply is what was accepted if and only if no count was left over |
| Pipes.Server.NewPipe | minix/src/fs/pipe.c:30-78 | a new pipe with one reader, one writer and no bytes |
| Pipes.Server.Close | minix/src/fs/open.c:409-433 | everyone sleeping at the other end is woken before the count goes down |
| Pipes.Server.GetWork | minix/src/fs/main.c:74-97 | while anyone is being revived there is a process to resume, the first one, so get_work does not panic |
| PipeRuns.FewerStuck | minix/src/fs/pipe.c:107-113 | a reader that finds its pipe empty leaves fewer writers stuck on it, or none were |
| PipeRuns.ResumeOne | minix/src/fs/main.c:82-97 | each resumed call makes progress; the partial count goes stale exactly when the first revived process is in the middle of a write that its pipe turns away |
| PipeRuns.Serve | minix/src/fs/read.c:60-204 | the number replied is the number of bytes moved if and only if no count was left over |
| PipeRuns.TurnedAway | minix/src/fs/pipe.c:117-154 | 8000 bytes to an empty pipe whose last reader then closes: the writer is turned away with a count of PIPE_SIZE |
| PipeRuns.OverReport | minix/src/fs/read.c:195-204 | its next write of one byte reports PIPE_SIZE + 1 |
| PipeRuns.Drain | minix/src/fs/main.c:39-68 | the revival loop ends |
| PipeRuns.Run | minix/src/fs/main.c:39-68 | in every signal-free run no reader and writer sleep on one pipe, sleepers have a live partner, counts are exact and delivered plus buffered bytes are the accepted ones; the numbers that the replies of the whole run tell add up to the bytes that went into and out of pipes, but for the partial counts still kept; no count is left over if no write exceeds the pipe, or no reading end is closed and no writer made nonblocking |
| Locks.Bounds | minix/src/fs/lock.c:48-64 | the region of a request, accepted exactly when it does not wrap around |
| Locks.StillConflictFree | minix/src/fs/lock.c:90-130 | cutting locks back creates no conflict |
| Locks.CutBackCovers | minix/src/fs/lock.c:96-130 | cutting or splitting one lock loses no byte outside the region, for any holder |
| Locks.LockTable.Unlock | minix/src/fs/lock.c:66-131 | fails if and only if the locks, taken in order, run out of slots at one that must be split; the locks left are those and pieces; on success exactly the bytes of the region are unlocked, for every process and kind; on failure nobody waits in vain if and only if what is left still blocks them |
| Locks.LockTable.GetLock | minix/src/fs/lock.c:133-151 | a lock that conflicts with the request, or none exactly if there is none |
| Locks.LockTable.SetLock | minix/src/fs/lock.c:66-158 | granted exactly when nothing conflicts and a slot is free; locks of different processes overlap only if both are read locks |
| Locks.LockTable.ReleaseAll | minix/src/fs/open.c:433-443 | closing gives up all locks of the process on the inode and no others, and revives those who wait |
| Locks.WakeupLost | minix/src/fs/lock.c:118-131 | a full table and a waiting request that the unlock leaves unblocked |
| Locks.LoseWakeup | minix/src/fs/lock.c:118-131 | the calls that lead there: the unlock fails and the process is not revived |
| LockRuns.Run | minix/src/fs/lock.c:48-158 | over all runs of lock, unlock and close no locks conflict, nr_locks counts the slots in use, each call does what it should, and unless an unlock fails nobody waits in vain |
| Links.EnterGood | minix/src/fs/link.c:85-93 | an entry and a count together change no difference between i_nlinks and the entries naming an inode |
| Links.EraseGood | minix/src/fs/link.c:419-447 | unlink_file changes no such difference |
| Links.FreeGood | minix/src/fs/inode.c:86-93 | after giving back an inode without links all counts are exact if and only if they were and it has no entries |
| Links.NoLinks | minix/src/fs/inode.c:86-93 | a directory nobody names has no entries, as it would name itself |
| LinkCalls.Tree.Search | minix/src/fs/path.c:285-335 | the first entry with the name, if there is one |
| LinkCalls.Tree.FreeSlot | minix/src/fs/path.c:290-352 | a free slot, room in the last block, or a new block; none only without space |
| LinkCalls.Tree.PutInode | minix/src/fs/inode.c:76-98 | the last user of an inode without links gives it back; exact counts stay so unless it is a directory with entries |
| LinkCalls.Tree.Link | minix/src/fs/link.c:35-99 | succeeds exactly when permission, counts and names allow it; the new name stands for the inode, no other name changes, and counts stay exact |
| LinkCalls.Tree.Unlink | minix/src/fs/link.c:105-158 | the name is gone exactly when permission, root and directory rules allow it; counts stay exact unless the last link of an unused directory with other entries goes |
| LinkCalls.Tree.RemoveDir | minix/src/fs/link.c:378-413 | only an empty directory goes, with its "." and "..", and its parent loses a link for each |
| LinkCalls.Tree.Rmdir | minix/src/fs/link.c:105-158 | rmdir as a whole: counts stay exact; on failure nothing changes |
| LinkCalls.Tree.NewNode | minix/src/fs/open.c:201-260 | a fresh inode with one name and one link and no other change, or no change at all |
| LinkCalls.Tree.Mknod | minix/src/fs/open.c:295-310 | only the superuser makes nodes other than FIFOs; the name stands for the new inode and nothing else changes |
| LinkCalls.Tree.Mkdir | minix/src/fs/open.c:316-370 | the new directory has only "." and "..", with both counts right, and no other name changes; the undo path leaves every name as it was |
| LinkCalls.Tree.Rename | minix/src/fs/link.c:164-312 | what every name in every directory stands for afterwards: the new name for the old inode, the old name for nothing, the ".." of a directory with a new parent for that parent, nothing in a replaced inode, all others as before; counts stay exact, and failure changes nothing |
| LinkCalls.Tree.MoveAndFix | minix/src/fs/link.c:260-304 | the same for the moving half: a moved directory's ".." names its new parent, every other name is kept, with the counts of both parents right |
| LinkCalls.NotOrphaned | minix/src/fs/link.c:419-447 | a directory with its "." entry is never lost when another name of it goes |
| LinkRuns.Run | minix/src/fs/link.c:35-449 | over every run of link, unlink, rmdir, mknod, mkdir and rename the counts are exact at the end if and only if they were and no call frees a directory that still has entries; they are if names are entered only in directories with a "." entry |
| LinkRuns.LostLink | minix/src/fs/open.c:295-310 | mknod of a directory, a file in it, unlink of the directory: the file keeps a link that no entry accounts for |
| Timers.InsertOk | minix/src/inet/clock.c:84-99 | linking a timer in keeps the chain sorted and complete |
| Timers.RemoveOk | minix/src/inet/clock.c:111-130 | taking a timer out keeps the chain sorted and complete |
| Timers.Clock.SetTimer | minix/src/inet/clock.c:132-162 | afterwards expiry is requested or an alarm is set no later than the first timer |
| Timers.Clock.SetOne | minix/src/inet/clock.c:66-102 | the timer is in the chain once, at its time, and the first timer will be noticed |
| Timers.Clock.Untimer | minix/src/inet/clock.c:164-169 | the timer is out and the first timer will be noticed |
| Timers.Clock.Tick | minix/src/inet/clock.c:104-109 | after an alarm the first timer will be noticed again |
| Timers.Clock.ExpireTimers | minix/src/inet/clock.c:171-191 | each timer that fires is due and the earliest of those set at that moment, the times set afterwards are those that these firings and the functions they call leave, none is overdue, and the next one will be noticed |
| Timers.Accounted | minix/src/inet/clock.c:171-191 | a timer that was set and is not any more has fired, unless an expiry function cancelled it |
| TimerRuns.Run | minix/src/inet/clock.c:66-191 | in every run the chain is sorted and complete, each call does what it should to each timer, every timer that fires is due and the earliest, no expiry leaves one overdue, and the first timer will be noticed |
| Monitor.BodyFits | minix/src/boot/boot.c:1449-1469 | the printed body and its 0 fit the length computed for it |
| Monitor.TokensOk | minix/src/boot/boot.c:318-358 | every token is a word, a special character or an argument |
| Monitor.RoundTrip | minix/src/boot/boot.c:1460-1469 | reading a printed body gives back its tokens if and only if no argument but the last is left open |
| Monitor.OneToken | minix/src/boot/boot.c:318-358 | the first token of the line and the position behind it |
| Monitor.Tokenize | minix/src/boot/boot.c:366-385 | all tokens of the line, in front of the commands still to come |
| Monitor.DefineFunction | minix/src/boot/boot.c:1440-1469 | the body up to its end, printed within its allotted length; a null pointer exactly when it ends with a word that nothing follows |
| Monitor.DefineAndCall | minix/src/boot/boot.c:1470-1608 | a call of a function defined with matching braces puts the tokens of its definition in front of the commands, if and only if they read back |
| Monitor.RunsOffLine | minix/src/boot/boot.c:1460-1469 | a command like f() boot: behind the argument a word that nothing follows |
| Monitor.RunsOffExample | minix/src/boot/boot.c:1460-1469 | the command f() boot itself |
| Monitor.UnreadableLine | minix/src/boot/boot.c:1460-1469 | a body with an argument ended by a line break does not read back |

## Left out

- Device errors: transfers of the block devices succeed, though possibly for only part of a request at a time; `rw_scattered` makes no progress on a write error.
- The block cache behind the file layers: zones and files work on the block contents that `CacheRuns.Run` shows the cache to present; they do not call it, and a block number is kept as its zone and its place in the zone.
- `b_count` is a `char` in the source; here pin counts are unbounded.
- Cache.Cache.GetBlock: contents of the RAM disk are promised only once the second level cache is off, because that cache overwrites its blocks; `CacheRuns.Run` takes what is left there as it is.
- Read-ahead for devices other than the one read, and the tuning of its distance by seek flags.
- FileCalls.Write: positions beyond the doubly indirect range, where `write_map` leaves a double indirect block unzeroed, are not reached.
- Truncate.Truncate: for regular files and directories whose size is within the range of the zone map; the inode slots in which a pipe keeps its file positions are not modelled.
- The panic of `rd_indir` for a zone number outside the file system; it cannot occur while the zone maps are consistent.
- Block and character special files, and failing copies to user space.
- Reading and writing inodes on disk, and the three timestamps.
- Packet buffers of 2K and 32K: one size, 512 bytes, as in the standard configuration.
- Packet.Pool.DupAcc: the free-space callbacks of the clients are left out, here and in `bf_append`; running out of accessors is the panic right away.
- PacketOps.MemReq: the same for buffers.
- PacketResult.Align: says nothing about the address of the resulting piece, which `bf_pack` does not align for an unshared accessor.
- Order of two updates in packet buffers: a link that moves from one accessor to another is cleared first here; `bf_append` and `bf_delhead` clear it later.
- Named FIFOs, `UNPAUSE` and processes that exit while suspended: `do_unpause` does not adjust `susp_count`.
- Pipes.Server.DoWrite: the size check of `read_write` that precedes `pipe_check` is left out; it cannot refuse a write while the maximum file size is at least the count plus `PIPE_SIZE`.
- Lack of space for the zones of a pipe, and the failures of `do_pipe`, which leave nothing behind.
- Errors of `lock_op` about the request itself (unknown type, wrong mode, not a regular file).
- Access permissions, path walking above the final component, mount points and other devices: their outcomes are parameters of the directory calls.
- The walk of `do_rename` up to the root directory; what it finds is a parameter, and that it ends is not shown.
- LinkCalls.Tree.Unlink: ".." stands for what the entry names, also in the directory that a process sees as its root and at a mount point.
- Releasing the directory itself and the inodes that a removed "." or ".." named is the separate step `LinkCalls.Tree.PutInode`, which `LinkRuns.Run` may take after any call.
- The width of `i_nlinks` and the mask with which it is compared.
- Message passing, scheduling of requests and the reply messages; a reply is a result.
- Timers: the request for an alarm is not a message, and functions called on expiry come from a script of finite length.
- The other commands and the environment of the boot monitor, and characters as C strings with an explicit length.
