# Verified models of four POSIX projects and of the kernel files beside them

This project models, in Dafny, the state machines and transformations of the four programs in this
repository (`client-server`, `dirlist`, `pardirlist`, `fsa`) and of the Linux file-system sources kept
with `dirlist`, and proves what they are for: exclusion, conservation, order, layout, and agreement of
fast or in-place code with a plain definition.

Code that changes state is a class or a method with a loop, tied by its contract to functions on values;
protocols are machines whose steps may be interleaved in any way, and their properties hold over every
run. `dafny verify dfyconfig.toml` checks everything.

| file | what it models |
|---|---|
| `IoctlTable.dfy` | the table of compatible ioctl commands |
| `BlockClaim.dfy` | exclusive claims on block devices |
| `RequestQueue.dfy` | the shared-memory request queue, with the guard as written and as documented |
| `AioRing.dfy`, `AioContext.dfy` | the AIO completion ring: credits, completion, refill, reader |
| `Listing.dfy`, `DirList.dfy` | the directory listing: its meaning, and the program on its linked list |
| `Text.dfy`, `ParDirList.dfy` | reading text, and the listing with one thread per file |
| `DirectIo.dfy` | coalescing of direct-I/O sections into bios |
| `ThreadBuffer.dfy` | the server's ring between worker threads and the printer |
| `DentryWalk.dfy` | `d_walk` |
| `DentryMove.dfy`, `DentryNames.dfy` | moving dentries, and where their names are kept |
| `BufferLru.dfy` | the per-CPU buffer LRUs |
| `CoreFile.dfy`, `CoreDump.dfy`, `CoreReader.dfy` | core dumps, and reading them back |
| `Paths.dfy`, `PathIndex.dfy`, `Ext2Walk.dfy` | paths, and the ext2 path index |
| `Modulo.dfy`, `Collections.dfy` | reduction modulo a ring size, and small shared definitions |

Properties that the code does not have, each with the exact condition under which it has them and an
input where it fails:

- The queue as written does not join split requests (`client-server/server.c:479`). It is FIFO if and
  only if no delivered request has a character beyond the end of the ring. The guard described in
  `client-server/README.txt` is kept beside it under the name `AsDocumented`.
- The level sort never moves a node before the head. It sorts if and only if the head has the smallest
  level, which the starting directory has.
- The moved subtree of `__d_move` gets the target's old path if and only if the target was not a root.
  With a root as target `__d_move` stops at its locks, as it locks the target's parent and then the target.
  Of its callers in `dcache.c`, `d_exchange` warns of roots, `d_splice_alias` and `__d_unalias` have a
  dentry as target that is being looked up in a directory, and `d_move` hands on what it is given.
- `__d_drop` locks the list a dentry should be on. A move keeps that the list it is on, if and only if it
  is not an exchange of a root.
- After a write that took only some of the bytes, `dump_emit` goes on from the first byte again. It puts
  out what it was given, however its writes are cut, if and only if all the bytes are equal; lengths and
  positions are right in any case. A core dump is the file its headers describe where a write that does
  not fail takes all it is given.
- A core dump stores a thread's notes by register set, in as many slots as there are sets with a note
  type. All dumps of a view stay inside the slots, and write the notes they counted, if and only if the
  sets with a note type come first in the view.
- `d_walk` passes over killed dentries that it comes to going up. With a callback that always continues
  it enters all of the preorder if and only if there is none of these. As `dentry_unlist` takes a dentry
  off its list when it marks it killed, a list at rest has none.
- Counting a keyword by pieces of 1024 characters gives the count in the whole file, for every keyword,
  if and only if no piece ends inside a token.
- Direct I/O takes a section that continues the deferred one in memory and on the disk to continue it in
  the file. File offsets are kept, whatever `bio_add_page` refuses, if and only if that is so for every
  section behind one that may be deferred. It is not so for a read into three buffers, the first and the
  third side by side in one page, with a hole of the file for the second: the hole is zeroed without
  sending the deferred section.
- io_setup doubles the number of events as an unsigned. A context has room for the events asked for if
  and only if twice their number is an unsigned.

And two comments in the sources that the code does not bear out:

- The comment at `fsa/fsa.c:248` speaks of "." and ".."; the code leaves out every name with a leading dot.
- The comment on `struct aio_ring` gives its size as 128 bytes; its fields take 32, which is what the model
  uses.

## Model

| member | source | states |
|---|---|---|
| IoctlTable.XformIsAnInvolution | dirlist/BlackBoxTesting/files/linux-master/fs/compat_ioctl.c:833 | XFORM undoes itself on all 32-bit words |
| IoctlTable.XformIsInjective | dirlist/BlackBoxTesting/files/linux-master/fs/compat_ioctl.c:833 | so different commands have different table entries |
| IoctlTable.CheckTable | dirlist/BlackBoxTesting/files/linux-master/fs/compat_ioctl.c:1520-1540 | on every sorted table of 1 to 2^16 entries the two scans from the interpolated guess answer true exactly when the key is in the table, and stay inside it |
| IoctlTable.TableHoldsExactlyTheCommands | dirlist/BlackBoxTesting/files/linux-master/fs/compat_ioctl.c:1624-1641 | after transforming and sorting, a transformed command is in the table exactly when the command is in the list |
| IoctlTable.IsCompatible | dirlist/BlackBoxTesting/files/linux-master/fs/compat_ioctl.c:1605 | end to end: the lookup of XFORM(cmd) is true exactly for the listed commands |
| BlockClaim.MayClaimIsCompatibility | dirlist/BlackBoxTesting/files/linux-master/fs/block_dev.c:1010-1030 | the decision from two holder records agrees with comparing the claim against every outstanding claim |
| BlockClaim.BdMayClaim | dirlist/BlackBoxTesting/files/linux-master/fs/block_dev.c:1010-1030 | the branches of bd_may_claim on the device objects compute that decision |
| BlockClaim.StartClaiming | dirlist/BlackBoxTesting/files/linux-master/fs/block_dev.c:1046-1142 | EBUSY, wait or grant, and on a grant only bd_claiming of the whole disk changes |
| BlockClaim.FinishClaiming | dirlist/BlackBoxTesting/files/linux-master/fs/block_dev.c:1602-1628 | the exact condition of the two BUG_ONs, and the whole new state otherwise |
| BlockClaim.PutClaim | dirlist/BlackBoxTesting/files/linux-master/fs/block_dev.c:1802-1821 | the exact condition of the two WARN_ONs, and the whole new state |
| BlockClaim.StillMayClaim | dirlist/BlackBoxTesting/files/linux-master/fs/block_dev.c:1610 | a claim that was granted may still be made after the lock was dropped and other threads ran |
| BlockClaim.PutIsCounted | dirlist/BlackBoxTesting/files/linux-master/fs/block_dev.c:1812-1813 | a claim being put is counted on its device and on the whole disk |
| BlockClaim.StepKeepsInv | dirlist/BlackBoxTesting/files/linux-master/fs/block_dev.c:1046-1142 | every start, finish, abandon and put keeps records, counters and reservations in agreement with the outstanding claims |
| BlockClaim.ClaimsNeverConflict | dirlist/BlackBoxTesting/files/linux-master/fs/block_dev.c:1010-1142 | over all interleavings no device is claimed by two holders, and no whole disk together with one of its partitions |
| BlockClaim.CountersAreExact | dirlist/BlackBoxTesting/files/linux-master/fs/block_dev.c:1612-1621 | bd_holders of a whole disk is twice its own claims plus its partitions' claims; of a partition, its claims |
| BlockClaim.NoAssertionFires | dirlist/BlackBoxTesting/files/linux-master/fs/block_dev.c:1602-1628 | no BUG_ON or WARN_ON fires on any step of any interleaving |
| BlockClaim.RefusedExactlyOnConflict | dirlist/BlackBoxTesting/files/linux-master/fs/block_dev.c:1046-1090 | EBUSY exactly when an outstanding claim conflicts; waiting exactly when another claim on the disk is between its phases |
| RequestQueue.PrintString | client-server/client.c:104 | the bytes sprintf leaves in the region, and that no other changes |
| RequestQueue.CopyString | client-server/server.c:480 | strcpy yields the characters before the first NUL |
| RequestQueue.WriteRequest | client-server/client.c:103-110 | both branches of the write, the split one with its overlap |
| RequestQueue.Enqueue | client-server/client.c:94-116 | the whole new queue state |
| RequestQueue.FetchRequest | client-server/server.c:479-485 | what is copied out under either guard, and what becomes of overlap |
| RequestQueue.Dequeue | client-server/server.c:472-492 | the request and the whole new queue state |
| RequestQueue.EnqueueSparesPendingBytes | client-server/client.c:64-69 | for every history: pending bytes fit the ring and an enqueue changes none of them |
| RequestQueue.AtMostOneSplitPending | client-server/client.c:106-109 | for every history: two split requests are never pending together |
| RequestQueue.DocumentedGuardIsRight | client-server/README.txt:9-11 | under the documented meaning of overlap, the guard selects the join exactly when the oldest request is split |
| RequestQueue.DocumentedQueueIsFifo | client-server/README.txt:11 | with that guard every history delivers the sent requests in order, byte for byte |
| RequestQueue.WrittenJoinIsUnreachable | client-server/server.c:481-485 | with the guard as written, front stays below size, so the join branch is never taken |
| RequestQueue.WrittenQueueIsFifoExactlyWhen | client-server/server.c:479-491 | with the guard as written, what is delivered is a prefix of what was sent if and only if no delivered request has a character beyond the end of the ring |
| RequestQueue.WrittenQueueTruncates | client-server/server.c:479-480 | a history of two requests in which the second arrives cut off |
| AioRing.StepKeepsCredits | dirlist/BlackBoxTesting/files/linux-master/fs/aio.c:897-974 | every step on any CPU, and any value stored in the head by user space, keeps the sum of the credits |
| AioRing.CreditsAreConserved | dirlist/BlackBoxTesting/files/linux-master/fs/aio.c:760-763 | in every reachable state global, per-CPU, in-flight and completed credits add up to nr_events - 1 |
| AioRing.CountersNeverUnderflow | dirlist/BlackBoxTesting/files/linux-master/fs/aio.c:897-974 | no counter goes below zero: in every reachable state the plain additions and subtractions of every step on the shared, the per-CPU and the completed counter give the next state |
| AioRing.RefusalMeansQuotaUsed | dirlist/BlackBoxTesting/files/linux-master/fs/aio.c:914-942 | credits are refused only when half the slots hold requests or events or are on their way through another CPU's credit operation |
| AioRing.ExcessSparesUnread | dirlist/BlackBoxTesting/files/linux-master/fs/aio.c:951-974 | a refill from a stale head frees no slot of an unread event |
| AioRing.StepKeepsRing | dirlist/BlackBoxTesting/files/linux-master/fs/aio.c:1115-1154 | every step other than a user-space store to the head keeps the ring consistent with what was stored and delivered |
| AioRing.NoUnreadEventIsOverwritten | dirlist/BlackBoxTesting/files/linux-master/fs/aio.c:1117-1129 | a completion never stores into the slot of an unread event |
| AioRing.FullIsNeverMistakenForEmpty | dirlist/BlackBoxTesting/files/linux-master/fs/aio.c:1145-1153 | unread events are at most the completed count, that at most nr_events - 1; head equals tail exactly when nothing is unread |
| AioRing.DeliveryIsFifo | dirlist/BlackBoxTesting/files/linux-master/fs/aio.c:1187-1262 | with readers copying in chunks between completions, the delivered events are a prefix of the completed ones |
| AioContext.RingHoldsTheQuota | dirlist/BlackBoxTesting/files/linux-master/fs/aio.c:454-472 | the ring has room for the asked events and two more, and fills its pages exactly |
| AioContext.BatchesLeaveHalf | dirlist/BlackBoxTesting/files/linux-master/fs/aio.c:761-763 | batches in all per-CPU pools leave half the slots |
| AioContext.SetupHasRoomExactlyWhen | dirlist/BlackBoxTesting/files/linux-master/fs/aio.c:718-725 | the sizes computed for nr events, if not refused, leave two slots for each of them and half the slots besides the batches, if and only if twice nr is an unsigned |
| AioContext.TooManyEventsWrap | dirlist/BlackBoxTesting/files/linux-master/fs/aio.c:718-719 | a number of events that is not refused and gets one page |
| AioContext.QuotaIsHonoured | dirlist/BlackBoxTesting/files/linux-master/fs/aio.c:1010-1020 | with such room a request is refused only when nr are in flight, completed, or on their way through another CPU's credit operation |
| AioContext.Kioctx.constructor | dirlist/BlackBoxTesting/files/linux-master/fs/aio.c:444-540 | a new ring: distinct pages, all credits in the shared counter |
| AioContext.IoctxAlloc | dirlist/BlackBoxTesting/files/linux-master/fs/aio.c:703-805 | each error or a new context, each with its exact condition, and the count of events in the system |
| AioContext.SlotsAreDistinctEntries | dirlist/BlackBoxTesting/files/linux-master/fs/aio.c:1118-1124 | different slots are different entries of pages in range |
| AioContext.DrainedProperties | dirlist/BlackBoxTesting/files/linux-master/fs/aio.c:897-912 | whole batches move to the global counter and less than two stay |
| AioContext.Kioctx.PutReqsAvailable | dirlist/BlackBoxTesting/files/linux-master/fs/aio.c:897-912 | the loop computes that split; other CPUs are untouched |
| AioContext.Kioctx.GetReqsAvailable | dirlist/BlackBoxTesting/files/linux-master/fs/aio.c:914-942 | whatever other CPUs do to the shared counter between read and cmpxchg: a batch is taken off the value that was found, or the request is refused because that value is below a batch |
| AioContext.Kioctx.RefillReqsAvailable | dirlist/BlackBoxTesting/files/linux-master/fs/aio.c:951-974 | completed_events falls by the slots known free, and the credits rise by as many |
| AioContext.Kioctx.CopyLoop | dirlist/BlackBoxTesting/files/linux-master/fs/aio.c:1221-1254 | chunks end at the page, the ring end or the tail, and together are the unread events in order, up to a fault |
| AioContext.Kioctx.ReadEventsRing | dirlist/BlackBoxTesting/files/linux-master/fs/aio.c:1187-1266 | the oldest min(nr, available) events in order across page and ring ends, and the new head; on -EFAULT the head stays |
| Listing.WalkIsLedTo | dirlist/dirlist.c:78-107 | every entry of the walk is reached by non-hidden names that spell its path and give its level |
| Listing.LedToIsWalked | dirlist/dirlist.c:89-105 | everything such names reach is in the walk |
| Listing.FoundIsDistinct | dirlist/dirlist.c:93-96 | the walk of a tree with distinct slash-free names creates no path twice |
| Listing.InsertedAllIsByPath | dirlist/dirlist.c:54-76 | the insertions give a permutation of the entries in strcmp order |
| Listing.RoundsArePermutation | dirlist/dirlist.c:141-163 | the level sort loses and duplicates nothing and keeps the first node first |
| Listing.SortIsRightExactlyWhenHeadIsLeast | dirlist/dirlist.c:150-151 | since the scan stops at the head, the sort orders by level and path if and only if no level is below the head's |
| Listing.SmallerLevelStaysSecond | dirlist/dirlist.c:150-151 | a list of two that it leaves out of order |
| Listing.RootHeadsTheList | dirlist/dirlist.c:81-84 | the starting directory heads the list with the only smallest level |
| Listing.OrderCountsUpTo | dirlist/dirlist.c:131-134 | the printed order is the rank among the entries of the level |
| Listing.OutputIsTheListing | dirlist/dirlist.c:176-178 | end to end: exactly the entries reached by non-hidden names, each once, ordered by level and path, level equal to depth, order equal to rank |
| DirList.List.LinkFirst | dirlist/dirlist.c:59-62 | the new node comes first in the doubly linked list |
| DirList.List.LinkLast | dirlist/dirlist.c:63-66 | the new node comes last |
| DirList.List.LinkBefore | dirlist/dirlist.c:71-74 | the new node comes before the one found, with both links right |
| DirList.List.FindPlace | dirlist/dirlist.c:68-70 | the scan finds the first node the path does not exceed |
| DirList.List.InsertSorted | dirlist/dirlist.c:54-76 | all four branches insert at that place |
| DirList.List.PopulateList | dirlist/dirlist.c:78-107 | the list becomes the sorted insertion of the whole walk; the static level is restored |
| DirList.List.Unlink | dirlist/dirlist.c:154-156 | the node leaves the list, which stays linked |
| DirList.List.LinkBehind | dirlist/dirlist.c:157-161 | the node is linked behind the one the scan stopped at |
| DirList.List.InsertionSortByLevel | dirlist/dirlist.c:141-163 | the same nodes, relinked in place, in the order of the specified sort |
| DirList.List.PrintList | dirlist/dirlist.c:125-139 | the printed lines |
| DirList.DirListMain | dirlist/dirlist.c:167-181 | for every tree, heap program and specification agree; for well-named trees the lines are the listing |
| Text.TokensOfParts | pardirlist/pardirlist.c:79 | the tokens of a text in two parts are those of the parts, or one less where the cut is inside a token |
| ParDirList.SearchFile | pardirlist/pardirlist.c:66-84 | the nested loops count the keyword among the tokens of all chunks |
| ParDirList.ChunksCountWholeTokensExactlyWhen | pardirlist/pardirlist.c:77-81 | for every keyword that is the count in the whole file, if and only if no chunk ends inside a token |
| ParDirList.LongWordIsCut | pardirlist/pardirlist.c:77-81 | a file of one word where it is not |
| ParDirList.ChunksCountWholeTokens | pardirlist/pardirlist.c:77-81 | so it is if no 1024 characters before the end are without a newline |
| ParDirList.WorkAgrees | pardirlist/pardirlist.c:107-128 | a thread's step does not change the frequency its node is going to have |
| ParDirList.MainAgrees | pardirlist/pardirlist.c:209-229 | a step of the main thread in parallel mode matches the one in sequential mode |
| ParDirList.ParallelPrintsWhatSequentialPrints | pardirlist/pardirlist.c:156-191 | for every schedule of the threads that finishes, the printed lines are those of the sequential mode |
| ParDirList.SomeoneCanMove | pardirlist/pardirlist.c:215-220 | until the main thread is done someone can move |
| ParDirList.SchedulesAreBounded | pardirlist/pardirlist.c:93-128 | no schedule goes on for ever |
| ParDirList.EveryRunPrintsTheListing | pardirlist/pardirlist.c:257-278 | in either mode and under any schedule, the lines are those of dirlist, each with the frequency of its file |
| DirectIo.DioSubmit.BioSubmit | dirlist/BlackBoxTesting/files/linux-master/fs/direct-io.c:401-425 | submitting changes nothing of what has been packed |
| DirectIo.DioSubmit.BioAddPage | dirlist/BlackBoxTesting/files/linux-master/fs/direct-io.c:696-716 | an accepted section extends the bio by exactly its bytes; an empty bio accepts |
| DirectIo.DioSubmit.SendCurPage | dirlist/BlackBoxTesting/files/linux-master/fs/direct-io.c:728-773 | whatever is submitted, started or refused on the way, the packed bytes grow by the deferred section |
| DirectIo.DioSubmit.SubmitPageSection | dirlist/BlackBoxTesting/files/linux-master/fs/direct-io.c:792-846 | packed and deferred bytes grow by exactly the section, in memory and on disk; in the file from its own offset, or from the end of the deferred section if it extends that; and whether the section is deferred afterwards |
| DirectIo.DioSubmit.Flush | dirlist/BlackBoxTesting/files/linux-master/fs/direct-io.c:1282-1292 | at the end everything is in submitted bios |
| DirectIo.SubmitAll | dirlist/BlackBoxTesting/files/linux-master/fs/direct-io.c:728-846 | for every stream, boundary marks and refusals: the bios, read at consecutive blocks, map each byte of memory to the disk byte the stream maps it to, in order; and to its file offset, whatever is refused, if and only if sections that continue in memory and on disk one that may be deferred continue it in the file |
| DirectIo.LoseOffset | dirlist/BlackBoxTesting/files/linux-master/fs/direct-io.c:809-815 | a stream of two sections, whose bios do not have the file offsets of the stream |
| ThreadBuffer.RetrieveKeyword | client-server/server.c:223-275 | with its two streams a worker sends every fgets piece of the file that has the keyword, once, with its number, and then the sentinel |
| ThreadBuffer.Buffer.BufferFill | client-server/server.c:191-198 | with a slot to spare the pending items gain one at the end |
| ThreadBuffer.Buffer.BufferGet | client-server/server.c:207-215 | the oldest pending item |
| ThreadBuffer.WorkerKeepsSemaphores | client-server/server.c:247-251 | every slot, every filled slot and the mutex stay accounted for |
| ThreadBuffer.PrinterKeepsSemaphores | client-server/server.c:292-296 | the same for the printer's steps |
| ThreadBuffer.NothingIsOverwritten | client-server/server.c:247-249 | no fill hits a slot with a pending item |
| ThreadBuffer.NothingEmptyIsRead | client-server/server.c:292-294 | every get finds the oldest pending item |
| ThreadBuffer.PrinterStopsAtTheEnd | client-server/server.c:291-321 | the printer leaves its loop only after one sentinel from every worker, with the ring empty and everything printed in each worker's order |
| ThreadBuffer.NoDeadlock | client-server/server.c:247-266 | some thread can move until all are finished |
| ThreadBuffer.SchedulesAreBounded | client-server/server.c:291-320 | no schedule goes on for ever |
| ThreadBuffer.ZeroMeansStopped | client-server/server.c:395 | threadcount is 0 exactly when the printer has stopped |
| ThreadBuffer.EveryMaximalRunPrintsEverything | client-server/server.c:361-366 | for any number of workers, any ring and any schedule: a run that cannot go on has printed every match once, in its worker's order |
| ThreadBuffer.SearchPrintsTheMatches | client-server/server.c:223-321 | end to end: for any files, keyword, ring and schedule, a run that cannot go on has printed for each file exactly its pieces with the keyword, numbered and in order, and nothing else |
| DentryWalk.DWalk | dirlist/BlackBoxTesting/files/linux-master/fs/dcache.c:1200-1297 | for every callback the walk terminates and enters what its recursive form enters, in preorder and no dentry twice; if the callback always continues, all of the preorder exactly when no killed dentry is passed over |
| DentryWalk.WalkDown | dirlist/BlackBoxTesting/files/linux-master/fs/dcache.c:1226-1292 | the goto loop does what the recursive form does; finish is called exactly when nothing was cut short |
| DentryWalk.PassOver | dirlist/BlackBoxTesting/files/linux-master/fs/dcache.c:1279-1284 | after an ascent killed siblings are passed over |
| DentryWalk.VisitIsPreorder | dirlist/BlackBoxTesting/files/linux-master/fs/dcache.c:1229-1262 | where no listed dentry is killed, the recursive form is preorder with Continue, Skip and Quit |
| DentryWalk.ContinuingVisitsAll | dirlist/BlackBoxTesting/files/linux-master/fs/dcache.c:1239-1260 | a callback that always continues is called on every dentry but cursors, in preorder |
| DentryWalk.OnePlace | dirlist/BlackBoxTesting/files/linux-master/fs/dcache.c:1227-1232 | from d_parent, d_subdirs and d_child alone: no dentry has two places in a tree |
| DentryWalk.PreorderIsDistinct | dirlist/BlackBoxTesting/files/linux-master/fs/dcache.c:1227-1232 | so a preorder names no dentry twice |
| DentryWalk.VisitIsSubsequence | dirlist/BlackBoxTesting/files/linux-master/fs/dcache.c:1229-1287 | whatever the callback answers, it is called on the preorder with some dentries left out |
| DentryWalk.ContinuingVisit | dirlist/BlackBoxTesting/files/linux-master/fs/dcache.c:1279-1284 | a callback that always continues is called on all of the preorder exactly when no killed dentry is passed over |
| DentryWalk.KilledBehindAParentIsMissed | dirlist/BlackBoxTesting/files/linux-master/fs/dcache.c:1279-1284 | a tree where one is passed over |
| DentryWalk.AtRootOnlyAtTop | dirlist/BlackBoxTesting/files/linux-master/fs/dcache.c:1268 | comparing with the starting dentry tells whether the walk is below it |
| DentryWalk.WalkOfLiving | dirlist/BlackBoxTesting/files/linux-master/fs/dcache.c:1200-1297 | where no listed dentry is killed: the walk against plain preorder, when finish is called, and every dentry once if the callback always continues |
| DentryMove.DAncestor | dirlist/BlackBoxTesting/files/linux-master/fs/dcache.c:2906-2915 | a dentry is returned exactly when p1 is a proper ancestor of p2, and it is the child of p1 on the way |
| DentryMove.MoveKeepsForest | dirlist/BlackBoxTesting/files/linux-master/fs/dcache.c:2836-2852 | a move, by splice or by swap, keeps the parents acyclic |
| DentryMove.MoveKeepsInverse | dirlist/BlackBoxTesting/files/linux-master/fs/dcache.c:2842-2848 | and d_subdirs the exact inverse of d_parent |
| DentryMove.MoveKeepsTable | dirlist/BlackBoxTesting/files/linux-master/fs/dcache.c:2820-2834 | and every dentry in at most one hash chain, the one it says it is in |
| DentryMove.MoveKeepsFiled | dirlist/BlackBoxTesting/files/linux-master/fs/dcache.c:2831-2834 | and every hashed dentry in the chain of its hash |
| DentryMove.MoveKeepsPickedExactlyWhen | dirlist/BlackBoxTesting/files/linux-master/fs/dcache.c:482-485 | the list __d_drop locks stays the one the dentry is on, if and only if the move is not an exchange of a root |
| DentryMove.ExchangeOfRootMisfiles | dirlist/BlackBoxTesting/files/linux-master/fs/dcache.c:2833-2841 | an exchange of a root that leaves the target a root in a hash chain |
| DentryMove.MoveKeepsKeys | dirlist/BlackBoxTesting/files/linux-master/fs/dcache.c:2825-2829 | and every hash that of the parent and name |
| DentryMove.MoveKeepsConsistent | dirlist/BlackBoxTesting/files/linux-master/fs/dcache.c:2799-2860 | all of these together |
| DentryMove.MovedAreHashed | dirlist/BlackBoxTesting/files/linux-master/fs/dcache.c:2831-2834 | afterwards the dentry is hashed under the target's hash, the target exactly with exchange, all others as before |
| DentryMove.OutsideKeepsPath | dirlist/BlackBoxTesting/files/linux-master/fs/dcache.c:3363-3373 | paths outside the two subtrees do not change |
| DentryMove.MovedSubtreeTakesPath | dirlist/BlackBoxTesting/files/linux-master/fs/dcache.c:2836-2852 | every path in the moved subtree is the target's old path and its old suffix if and only if the target was not a root |
| DentryMove.NoLockTwiceExactlyWhen | dirlist/BlackBoxTesting/files/linux-master/fs/dcache.c:2737-2762 | the locks for a move are all different if and only if the target is not a root |
| DentryMove.MoveOntoRootMisses | dirlist/BlackBoxTesting/files/linux-master/fs/dcache.c:2742-2761 | a cache and a root as target, whose lock is taken twice; past the locks the dentry would have another path than the root had |
| DentryMove.ExchangedSubtreeTakesPath | dirlist/BlackBoxTesting/files/linux-master/fs/dcache.c:2844-2848 | with exchange the target's subtree takes the dentry's old path, roots or not |
| DentryMove.DentryPath | dirlist/BlackBoxTesting/files/linux-master/fs/dcache.c:3343-3386 | the path from the root, or an error exactly when the buffer is too small |
| DentryMove.AllocKeepsConsistent | dirlist/BlackBoxTesting/files/linux-master/fs/dcache.c:1596-1699 | a new dentry, below another or as a root, keeps forest, lists and table in agreement |
| DentryMove.Dcache.RawAlloc | dirlist/BlackBoxTesting/files/linux-master/fs/dcache.c:1596-1671 | a root that is not hashed and has no children |
| DentryMove.Dcache.DAlloc | dirlist/BlackBoxTesting/files/linux-master/fs/dcache.c:1682-1699 | a dentry below another, at the head of its list |
| DentryMove.Dcache.DAdd | dirlist/BlackBoxTesting/files/linux-master/fs/dcache.c:2397-2402 | a dentry hashed under the key of its place keeps the cache valid |
| DentryMove.Dcache.DDrop | dirlist/BlackBoxTesting/files/linux-master/fs/dcache.c:473-494 | the dentry leaves its chain, if it is in one, and the list locked for that is the one it is on |
| DentryMove.Dcache.DRehash | dirlist/BlackBoxTesting/files/linux-master/fs/dcache.c:2381-2388 | it heads the chain of its hash |
| DentryMove.Dcache.DLookup | dirlist/BlackBoxTesting/files/linux-master/fs/dcache.c:2248-2302 | a hashed dentry with that parent and name is found exactly when there is one |
| DentryMove.Dcache.Splice | dirlist/BlackBoxTesting/files/linux-master/fs/dcache.c:2837-2843 | a root takes the target's place and the target becomes a root |
| DentryMove.Dcache.SwapPlaces | dirlist/BlackBoxTesting/files/linux-master/fs/dcache.c:2844-2848 | the two dentries trade parents and places in the child lists |
| DentryMove.Dcache.LockForMove | dirlist/BlackBoxTesting/files/linux-master/fs/dcache.c:2737-2762 | all locks are free exactly when the target is not a root |
| DentryMove.Dcache.DMove | dirlist/BlackBoxTesting/files/linux-master/fs/dcache.c:2799-2860 | the move happens exactly when the target is not a root, and its steps in order give that state; the BUG_ONs do not fire |
| DentryNames.Names.SwapNames | dirlist/BlackBoxTesting/files/linux-master/fs/dcache.c:2674-2717 | in all four cases of inline and external names the two strings are exchanged and every count stays exact |
| DentryNames.Names.CopyName | dirlist/BlackBoxTesting/files/linux-master/fs/dcache.c:2719-2735 | the dentry gets the target's string, counts stay exact, and storage is freed with its last user |
| DentryNames.SwapPair | dirlist/BlackBoxTesting/files/linux-master/fs/dcache.c:2676-2715 | no case writes more than an inline buffer holds |
| BufferLru.InstalledHolds | dirlist/BlackBoxTesting/files/linux-master/fs/buffer.c:1283-1309 | an LRU stays distinct and within 16, gains the buffer and loses only the evicted one |
| BufferLru.InstalledIsRecent | dirlist/BlackBoxTesting/files/linux-master/fs/buffer.c:1288-1304 | it is then the 16 most recently used buffers of the longer history |
| BufferLru.BhLru.SwapIn | dirlist/BlackBoxTesting/files/linux-master/fs/buffer.c:1298-1304 | the swaps through the array give that list, and what falls out at the end |
| BufferLru.BhLru.InstallBh | dirlist/BlackBoxTesting/files/linux-master/fs/buffer.c:1288-1309 | with them bh_lru_install gives that list and those counts |
| BufferLru.BhLru.LookupBh | dirlist/BlackBoxTesting/files/linux-master/fs/buffer.c:1314-1342 | found exactly when some buffer of the LRU matches; it moves to the front and gains a reference |
| BufferLru.BhLru.InvalidateBhs | dirlist/BlackBoxTesting/files/linux-master/fs/buffer.c:1429-1439 | the LRU is empty and every buffer in it has lost one reference |
| BufferLru.DropBuffers | dirlist/BlackBoxTesting/files/linux-master/fs/buffer.c:3272-3297 | a page's buffers may go exactly when none is busy |
| BufferLru.StepKeepsInv | dirlist/BlackBoxTesting/files/linux-master/fs/buffer.c:1288-1363 | every step on any CPU keeps order, distinctness and counts |
| BufferLru.FreeKeepsInv | dirlist/BlackBoxTesting/files/linux-master/fs/buffer.c:3299-3345 | what is freed is in no LRU |
| BufferLru.RunsAreRight | dirlist/BlackBoxTesting/files/linux-master/fs/buffer.c:1260-1266 | after any history on any CPUs: most-recently-used order, exact counts never below zero, and no buffer of an LRU freed |
| CoreFile.EmitIsRightExactlyWhenUniform | dirlist/BlackBoxTesting/files/linux-master/fs/coredump.c:794-804 | since every round begins at the first byte again, what is put out is the data however the writes are cut, if and only if all its bytes are equal |
| CoreFile.ShortWriteRepeats | dirlist/BlackBoxTesting/files/linux-master/fs/coredump.c:794-804 | two bytes of which two short writes put out the first twice |
| CoreFile.Cprm.DumpEmit | dirlist/BlackBoxTesting/files/linux-master/fs/coredump.c:787-806 | what is put out for any lengths the writes take; position and count rise by the length asked for; all of the bytes or none where writes are not cut short; if nothing fails, success exactly when the limit allows it |
| CoreFile.Cprm.DumpSkip | dirlist/BlackBoxTesting/files/linux-master/fs/coredump.c:809-827 | zeros, by seeking or by writing, however the writes are cut, or a prefix; if nothing fails, all of them exactly when the limit allows what is written |
| CoreFile.Cprm.DumpAlign | dirlist/BlackBoxTesting/files/linux-master/fs/coredump.c:830-836 | zeros to the next multiple, for powers of two only; if nothing fails, exactly when the limit allows it |
| CoreFile.Cprm.DumpTruncate | dirlist/BlackBoxTesting/files/linux-master/fs/coredump.c:844-854 | a hole at the end, which only a seekable file can have, becomes part of the file |
| CoreDump.NoteSize | dirlist/BlackBoxTesting/files/linux-master/fs/binfmt_elf.c:1396-1405 | a multiple of 4 that covers the header |
| CoreDump.NoteBytes | dirlist/BlackBoxTesting/files/linux-master/fs/binfmt_elf.c:1387-1394 | the note format takes exactly the counted size |
| CoreDump.WriteNote | dirlist/BlackBoxTesting/files/linux-master/fs/binfmt_elf.c:1407-1417 | from a multiple of 4 a note takes its counted size, and where writes are not cut short, padding relative to the file position gives the format |
| CoreDump.CountNoted | dirlist/BlackBoxTesting/files/linux-master/fs/binfmt_elf.c:1780-1783 | thread_notes is the number of register sets with a note type |
| CoreDump.FillThread | dirlist/BlackBoxTesting/files/linux-master/fs/binfmt_elf.c:1694-1753 | the slots and the size of one thread, or an index outside the slots exactly when a set behind them yields a note |
| CoreDump.FillNoteInfo | dirlist/BlackBoxTesting/files/linux-master/fs/binfmt_elf.c:1755-1848 | refused exactly when set 0 is not NT_PRSTATUS; outside exactly when some thread stores outside its slots; otherwise the counted size and all slots |
| CoreDump.WriteNoteInfo | dirlist/BlackBoxTesting/files/linux-master/fs/binfmt_elf.c:1859-1891 | the length of all notes, and where writes are not cut short the order in which they are written, the process-wide ones after the first |
| CoreDump.NotesSizeIsRightExactlyWhenInside | dirlist/BlackBoxTesting/files/linux-master/fs/binfmt_elf.c:1722-1747 | a dump writes as many bytes of notes as it counted if and only if it stores all notes inside the slots allocated |
| CoreDump.NotedFirstMeansNoneBehind | dirlist/BlackBoxTesting/files/linux-master/fs/binfmt_elf.c:1780-1783 | the sets with a note type come first exactly when there is none from index thread_notes on |
| CoreDump.DumpsAreRightExactlyWhenNotedFirst | dirlist/BlackBoxTesting/files/linux-master/fs/binfmt_elf.c:1780-1806 | for a view: every dump of it stores inside its slots and writes what it counted, if and only if the register sets with a note type come first |
| CoreDump.GapInTheViewFails | dirlist/BlackBoxTesting/files/linux-master/fs/binfmt_elf.c:1722-1747 | a view of three sets and a dump of it where neither holds |
| CoreDump.AllAreVisited | dirlist/BlackBoxTesting/files/linux-master/fs/binfmt_elf.c:2135-2159 | first_vma and next_vma visit all mappings and then the gate |
| CoreDump.SizeVmas | dirlist/BlackBoxTesting/files/linux-master/fs/binfmt_elf.c:2272-2279 | vma_filesz and its sum |
| CoreDump.Plan | dirlist/BlackBoxTesting/files/linux-master/fs/binfmt_elf.c:2230-2290 | everything pass one puts into the headers |
| CoreDump.WriteLoads | dirlist/BlackBoxTesting/files/linux-master/fs/binfmt_elf.c:2300-2321 | the length of the program headers, and where writes are not cut short the headers with the running offset |
| CoreDump.WritePages | dirlist/BlackBoxTesting/files/linux-master/fs/binfmt_elf.c:2342-2358 | a page for every page up to the dump size; where writes are not cut short, its bytes or zeros |
| CoreDump.WriteSegment | dirlist/BlackBoxTesting/files/linux-master/fs/binfmt_elf.c:2342-2358 | one segment, with its saved size, likewise |
| CoreDump.WriteData | dirlist/BlackBoxTesting/files/linux-master/fs/binfmt_elf.c:2337-2359 | the segments one after the other, likewise |
| CoreDump.SegmentHeadersAreInPlace | dirlist/BlackBoxTesting/files/linux-master/fs/binfmt_elf.c:2305-2319 | the k-th header is in its place and has p_offset as computed |
| CoreDump.SegmentsAreWhereTheHeadersSay | dirlist/BlackBoxTesting/files/linux-master/fs/binfmt_elf.c:2306-2311 | at p_offset of a segment there are its p_filesz bytes |
| CoreDump.SegmentsArePageAligned | dirlist/BlackBoxTesting/files/linux-master/fs/binfmt_elf.c:2264 | every p_offset is a multiple of the page size |
| CoreDump.NotesAreWhereTheHeaderSays | dirlist/BlackBoxTesting/files/linux-master/fs/binfmt_elf.c:2250-2262 | the notes are at p_offset, and p_filesz is their size exactly when all were stored inside their slots |
| CoreDump.SectionHeaderIsAtShOff | dirlist/BlackBoxTesting/files/linux-master/fs/binfmt_elf.c:2281-2290 | with 0xffff headers or more, the extra section header is at e_shoff and ends the file; otherwise there is none |
| CoreDump.ElfCoreDump | dirlist/BlackBoxTesting/files/linux-master/fs/binfmt_elf.c:2184-2381 | however the writes are cut, a dump that goes through has the length laid out above; where they are not cut short it is the file laid out above, and one that stops is a prefix of it; if no write, seek or signal gets in the way it goes through exactly when the view is sane, the notes are inside their slots and the bytes written are within the limit; nothing is written for a refused view |
| CoreDump.HeaderMayComeOutWrong | dirlist/BlackBoxTesting/files/linux-master/fs/binfmt_elf.c:2294-2295 | for every dump there is a way to cut the writes under which its header does not come out |
| CoreDump.UnseekablePaysForAll | dirlist/BlackBoxTesting/files/linux-master/fs/coredump.c:817-826 | a file that cannot seek has every byte counted against the limit |
| CoreReader.ReaderCountsHeaders | dirlist/BlackBoxTesting/files/linux-master/fs/binfmt_elf.c:2285-2290 | round trip: e_phnum, or sh_info at e_shoff, read from the bytes of the file gives the number of headers, however many |
| CoreReader.ReaderFindsSegments | dirlist/BlackBoxTesting/files/linux-master/fs/binfmt_elf.c:2300-2321 | round trip: offset and size read from the bytes of a segment's header lead to exactly its pages |
| CoreReader.NotesReadBack | dirlist/BlackBoxTesting/files/linux-master/fs/binfmt_elf.c:1407-1417 | round trip: parsing written notes gives the notes back |
| CoreReader.ReaderFindsNotes | dirlist/BlackBoxTesting/files/linux-master/fs/binfmt_elf.c:2250-2262 | round trip: for every view whose noted sets come first, parsing what the notes' header points at gives all notes in order |
| PathIndex.SearchByPath | fsa/fsa.c:135-146 | the first entry with the path, or 0 |
| PathIndex.SplitIsSlashed | fsa/fsa.c:256-260 | joining the components of a path gives the path back |
| Paths.SlashedIsUnique | fsa/fsa.c:257-260 | slash-free names can be read back from the path they spell |
| PathIndex.FoundIsResolved | fsa/fsa.c:135-146 | looking a spelled path up in the preorder is resolving its names one by one |
| PathIndex.SearchIsResolution | fsa/fsa.c:285-296 | for every path string the index gives what component-by-component resolution gives, and 0 exactly when that fails |
| Ext2Walk.ReadEntry | fsa/fsa.c:246-271 | a live record adds its node and everything below it |
| Ext2Walk.ReadBlock | fsa/fsa.c:226-274 | the records of a block in order, skipping unused ones and names with a leading dot |
| Ext2Walk.ReadDirectory | fsa/fsa.c:220-277 | for every well-formed image the walk terminates and appends the preorder of the directory |
| Ext2Walk.PopulateList | fsa/fsa.c:285-296 | the preorder of the whole tree followed by the root, and every lookup in it is a resolution |

## Left out

- System calls, mmap, fork, fcntl locks and printing: files are sequences of characters, semaphores are guarded steps, fgets and strtok_r are pure splitters, printed output is a sequence of records.
- Memory barriers, RCU, seqlock retries and interrupt masking: every critical section is one step, and no rename happens during d_walk.
- Fixed-size path and line buffers of the four programs, and NUL characters inside names or lines.
- The order of the printer's first look at threadcount and the insertion of its node is assumed, and increments of threadcount by the creating thread are not interleaved with the printer's.
- More than one client of the request queue; each client starts writing at 0.
- `list->tail` after the level sort, which nothing reads.
- Per-field interleaving inside list operations of pardirlist: they touch no field a search thread reads or writes, and are single steps.
- print_file of fsa, and inodes outside group 0 or with indirect blocks.
- get_block, page pinning, completion and errors of direct I/O; bio_add_page is an arbitrary refusal that spares empty bios.
- The file names in the server's items: an item names its worker, while the server keeps a pointer into a directory entry that may be gone when the directory is closed.
- CoreDump.FillThread: a note outside the slots ends the model, because the memory fill_thread_core_info then writes to is not modelled.
- Failing allocations in core dumps.
- CoreDump.ElfCoreDump: promises the bytes of the file only where writes are not cut short, because dump_emit repeats its first bytes after a short write.
- DentryMove.Dcache.DMove: promises the new state only for a target that is not a root, because the locks of a root stop the move.
- Unlisting of dentries during d_walk.
- Extra program headers, extra notes and extra data of special architectures in core dumps, vma_dump_size itself, and the contents of the individual notes.
- d_in_lookup, fsnotify and lock order in `__d_move`; moving a dentry onto itself.
- `__find_get_block_slow` and page-cache state: a slow lookup is a step that gives some live buffer.
- Range registration in char_dev.c, the program loaders, and the remaining file-system sources, which add only branch-by-branch properties.
