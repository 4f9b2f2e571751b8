# Verified models of virt-v2v's hard parts

This project models the parts of virt-v2v whose correctness is hard to see by reading, and proves what
they promise for every input, every run or every interleaving.

- **The chained hash table** (`gnulib/lib/hash.c`), in two layers. On values (`HashBuckets`,
  `HashRehash`, `HashMemory`, `HashSizing`, `HashOps`, `HashGrowth`, `HashWalk`) a table is a sequence of buckets with a count of
  free entries, and allocation is an oracle asked once per call. On pointers (`HashEntries`,
  `HashTable`, `HashTransfer`, `HashApi`, `HashCalls`, `HashReads`, `HashRuns`) it is the bucket array, linked
  overflow entries and the free list, changed in place; each method is proved to compute what the value
  layer says, with chains and free list disjoint and acyclic. `Primes` treats `is_prime` and
  `next_prime` on 64-bit words. The main results: a rehash is all or nothing and its `abort ()` is
  unreachable by a counting argument; every run of operations refines a set modulo the comparator.
- **The connection pool** of `output/rhv-upload-plugin.py` (`Pool`, `PoolOwnership`, `PoolBarrier`,
  `PoolProgress`, `PoolTiming`, `PoolIdle`, `PoolHistory`): requests, flushes, the close and the keeper thread as interleaved steps
  over one bounded queue, with ownership, barrier, progress and timing theorems.
- **The slot allocator** of `convert/target_bus_assignment.ml` (`BusSlots`, `BusAssignment`,
  `BusArrays`): probing insertions commute on the occupied set, lifted to all permutations, and the
  growable arrays refine the value model.
- **The finalize client** of `output/rhv-upload-finalize.py` against an interleaved engine (`Finalize`).
- **Unit suffixes** of `gnulib/lib/xstrtol.c` (`Xstrtol`): repeated saturation equals one clamp.
- **Grub1 editing** in `convert/linux_bootloaders.ml` (`Augeas`, `GrubConsoles`, `GrubKernels`,
  `GrubRoundTrip`, `Grub1`), over a small model of Augeas trees and canonical paths.
- **`is_zero`** in `lib/guestfs-internal-all.h` (`IsZero`).

Where a promise turned out false, the model follows the code, and both a counterexample and the exact
condition are proved:

- `hash.c`: a tuning accepted by `check_tuning` can fail to grow without `is_n_buckets`
  (`EntryGrowthCanStall`, `GrowthEnlargesExactlyWhen`), and one can fail to shrink (`ShrinkCanStall`,
  `ShrinksExactlyWhen`).
- The pool: two simultaneous lock-all operations can stop for good (`TwoFlushesCanHalt`). What has been
  begun can still be finished exactly when no two threads clash (`FinishesExactlyWithoutClash`), and
  while nobody closes the pool a clash is just that: two lock-all operations that each hold some of the connections.
- The pool: a connection held by a flush that waits can be idle for any time, whatever the keeper does
  (`WaitingFlushIdlesForever`). With the threads standing still, a used connection can be idle for longer
  than every bound exactly when a thread holds it (`IdlesExactlyWhenHeld`).
- Grub1: an entry with two kernel lines can be made the default, after which `list_kernels` fails
  (`SecondKernelBreaksList`, `DefaultRoundTrip`). A kernel listed without its drive prefix cannot be set
  unless some line consists of the bare name (`DrivePrefixIsNotFound`, `ListedCanBeDefault`). A default
  that numbers no title with exactly one kernel line makes the whole list fail
  (`DefaultPastEndBreaksList`, `ListSucceedsExactlyWhen`).
- Bus assignment: a negative slot raises (`TargetBusAssignment`).

`is_prime` turned out better than its loop suggests: although the square can wrap for candidates near
2^64, the answer is right for every odd 64-bit candidate.

`dafny verify dfyconfig.toml` checks the whole project.

## Model

| member | source | states |
|---|---|---|
| `Primes.WrappedSquareIsSquare` | gnulib/lib/hash.c:405-413 | the incrementally updated `square` is the divisor's square modulo 2^64 in every iteration, also after it wraps |
| `Primes.ScanStops` | gnulib/lib/hash.c:408-413 | for every odd candidate up to 2^64 − 7 some trial divisor below the candidate has a wrapped square that reaches it, so the scan ends before the divisor gets to the candidate |
| `Primes.Verdict` | gnulib/lib/hash.c:415-417 | wherever the scan stops, exact or wrapped, its remainder test decides primality |
| `Primes.IsPrime` | gnulib/lib/hash.c:402-418 | for every odd 64-bit candidate ≥ 11, and not only where the square does not wrap, the answer is true exactly for primes |
| `Primes.NextPrimeIsNearest` | gnulib/lib/hash.c:420-435 | the result is the least prime ≥ max(candidate, 11), or `SIZE_MAX`; it is never below the candidate |
| `Primes.ComputeNextPrime` | gnulib/lib/hash.c:421-435 | the loop computes that number and ends without wrapping around |
| `HashBuckets.OverflowIsSizeLessUsed` | gnulib/lib/hash.c:775-848 | overflow entries in use = entries − used buckets, the equation behind the counting argument |
| `HashBuckets.PutLaws` | gnulib/lib/hash.c:792-812 | placing one datum adds exactly it, and needs an overflow entry exactly when its bucket is used |
| `HashBuckets.HashedBucketsAgree` | gnulib/lib/hash.c:850-927 | two well-hashed tables of one size with the same data agree bucket by bucket and in both counters |
| `HashRehash.TransferKeeps` | gnulib/lib/hash.c:775-848 | for every oracle, `transfer_entries` conserves the data of both tables and never loses an overflow or free entry; it fails only unsafe and with an empty free list; safe mode allocates nothing and leaves only bucket heads |
| `HashRehash.FreeEntryForHead` | gnulib/lib/hash.c:898-919 | while undoing, a head that collides always finds a free entry |
| `HashRehash.RefillNeedsNoMemory` | gnulib/lib/hash.c:919-923 | the second pass of the undo succeeds without a single allocation |
| `HashRehash.RollbackRestores` | gnulib/lib/hash.c:898-925 | both passes together restore all data of the original table without allocating, whatever was moved before |
| `HashRehash.FailedTransferIsUndone` | gnulib/lib/hash.c:882-926 | after a transfer that failed midway the undo succeeds and every bucket holds the data it held |
| `HashRehash.RehashIsAllOrNothing` | gnulib/lib/hash.c:850-927 | for every pattern of allocation failures: `abort ()` is not reached; success keeps the data at the new size; failure leaves the size, both counters and each bucket's data as they were; no overflow entry is lost |
| `HashMemory.TransferAccounts` | gnulib/lib/hash.c:775-848 | `transfer_entries` fails exactly when an allocation call it made failed, and each successful one adds exactly one overflow entry |
| `HashMemory.RehashGivesUpExactlyWhen` | gnulib/lib/hash.c:850-927 | `hash_rehash` gives up exactly when it is asked for no buckets or an allocation call it made failed; beyond the bucket array every successful call has added one entry, and none is lost |
| `HashMemory.RehashWithSpareEntries` | gnulib/lib/hash.c:876-889 | with as many free entries as used buckets less one, a rehash allocates the bucket array and nothing else, and succeeds |
| `HashSizing.SaneAtTheEdges` | gnulib/lib/hash.c:478-492 | how far each tuning field may go with the others at usual values, on both sides |
| `HashSizing.NeverBoth` | gnulib/lib/hash.c:485-491 | with a valid tuning no table is asked to grow and to shrink at once |
| `HashSizing.RoomForCandidate` | gnulib/lib/hash.h:142-145 | fewer than CANDIDATE used buckets never count as overfull in a table made for CANDIDATE |
| `HashSizing.DefaultGrowthEnlarges` | gnulib/lib/hash.c:955-976 | with default tuning a growth that computes a size computes a larger one |
| `HashSizing.BucketGrowthEnlarges` | gnulib/lib/hash.c:955-976 | so it does for every valid tuning with `is_n_buckets` |
| `HashSizing.EntryGrowthCanStall` | gnulib/lib/hash.c:478-492 | without `is_n_buckets` a tuning that passes `check_tuning` can "grow" 11 buckets to 11, against the comment there |
| `HashSizing.GrowthEnlargesExactlyWhen` | gnulib/lib/hash.c:955-976 | for a prime bucket count and such a tuning, growth enlarges exactly when the truncated candidate divided by the threshold reaches n + 1 |
| `HashSizing.BucketSizeIs` | gnulib/lib/hash.c:498-516 | the size is the least prime from 11 and the wanted size on, and 0 only when no possible table has one |
| `HashSizing.GrownSizeIs` | gnulib/lib/hash.c:961-976 | a grown table has the least prime from n × factor on, scaled as the tuning says, and 0 only when no possible table has one |
| `HashSizing.ShrunkSizeIs` | gnulib/lib/hash.c:1047-1056 | the same for a shrunk table, never more than it had |
| `HashSizing.ShrinksExactlyWhen` | gnulib/lib/hash.c:1038-1056 | shrinking a prime bucket count never enlarges it, and reduces it exactly when a prime from 11 and the wanted size on lies below it |
| `HashSizing.ShrinkCanStall` | gnulib/lib/hash.c:478-492 | a tuning that passes `check_tuning` "shrinks" 11 buckets to 11, against the comment there |
| `HashOps.LookupFindsTheMatch` | gnulib/lib/hash.c:247-261 | lookup finds something exactly when an equal datum is stored, and then it is the only one |
| `HashOps.InsertRefinesSet` | gnulib/lib/hash.c:929-1009 | insertion adds the datum, reports the stored match, or runs out of memory and changes no contents; the `abort ()` on finding the entry after growth is not reached |
| `HashOps.RemoveRefinesSet` | gnulib/lib/hash.c:1021-1079 | removal takes out exactly the match, whether or not shrinking succeeds |
| `HashOps.Checked` | gnulib/lib/hash.c:470-496 | the tuning changes exactly when it is neither the default for good nor valid, and then to the default for good |
| `HashGrowth.InsertFailsExactlyWhen` | gnulib/lib/hash.c:946-1008 | something absent is refused exactly when an allocation call it took failed, or the table is crowded and no prime is left; a crowded table grows to the least prime its tuning asks for, others keep their size, and every entry is accounted for |
| `HashGrowth.InsertRecycles` | gnulib/lib/hash.c:664-685 | with an empty bucket or a free entry no memory is asked for |
| `HashGrowth.RemoveShrinksExactlyWhen` | gnulib/lib/hash.c:1026-1076 | a removal shrinks exactly when it empties a bucket and leaves too few used, to the least prime asked for; if memory fails it gives the free entries up; otherwise size, memory and entries are left alone |
| `HashGrowth.ClearRecycles` | gnulib/lib/hash.c:573-609 | clearing puts every overflow entry on the free list |
| `HashOps.StepRefinesSet` | gnulib/lib/hash.c:929-1079 | every operation keeps the invariant and is a step of the mathematical set |
| `HashOps.RunRefinesSet` | gnulib/lib/hash.c:929-1079 | over every sequence of operations and every pattern of allocation failures the table is the set modulo the comparator, and no `abort ()` is reached |
| `HashOps.InsertCounts` | gnulib/lib/hash.c:986-1008 | the number of entries goes up by one exactly on answer 1 |
| `HashOps.RemoveCounts` | gnulib/lib/hash.c:1026-1032 | the number of entries goes down by one exactly when something was removed |
| `HashWalk.FlatIsData` | gnulib/lib/hash.c:305-327 | the bucket-by-bucket order contains each stored datum as often as it is stored |
| `HashWalk.NextStep` | gnulib/lib/hash.c:280-303 | `hash_get_next` of the k-th datum is the (k+1)-th, or NULL after the last |
| `HashWalk.WalkVisitsAll` | gnulib/lib/hash.c:265-327 | in every table satisfying the invariant the walk from `hash_get_first` visits every datum exactly once, in the order `hash_get_entries` writes |
| `HashWalk.PutInWalk` | gnulib/lib/hash.c:978-1008 | a placed datum comes right behind the head of its bucket in the walk, and the order of the others stays |
| `HashWalk.RemoveBehindWalk` | gnulib/lib/hash.h:95-100 | without a shrink threshold an entry the walk has passed may be removed: just it leaves the walk, and every later entry has the successor it had |
| `HashWalk.NoGrowthBeforeCandidate` | gnulib/lib/hash.h:142-145 | after initialisation for CANDIDATE none of up to CANDIDATE insertions finds the table overfull, so none even tries to grow it, and the bucket count stays |
| `HashEntries.Entry.Search` | gnulib/lib/hash.c:247-261 | walking the linked chain finds the first match of the bucket's contents |
| `HashEntries.Entry.Delete` | gnulib/lib/hash.c:716-766 | deleting removes exactly the first match from the chain, in head, middle or end, and gives one entry to the free list unless the bucket becomes empty |
| `HashEntries.Entry.Clear` | gnulib/lib/hash.c:583-602 | a cleared bucket has no chain and all its entries are on the free list |
| `HashEntries.FreeList.FreeEntry` | gnulib/lib/hash.c:691-697 | the freed entry is pushed on the free list, which stays acyclic |
| `HashEntries.FreeList.AllocateEntry` | gnulib/lib/hash.c:666-685 | an entry comes from the free list if there is one, otherwise from one call of `malloc` |
| `HashTable.Hashtable.TakeOver` | gnulib/lib/hash.c:792-814 | an overflow entry is relinked behind a used head, or becomes the head's datum and is freed; chains and free list stay disjoint and acyclic |
| `HashTable.Hashtable.AddDatum` | gnulib/lib/hash.c:978-1008 | the datum goes to an empty head or to an overflow entry; fails exactly when the bucket is used, the free list empty and `malloc` fails |
| `HashTable.Hashtable.DeleteFrom` | gnulib/lib/hash.c:705-767 | the match leaves bucket and counters as the value model says, with all entries still accounted for |
| `HashTransfer.TransferChain` | gnulib/lib/hash.c:792-820 | moving one chain node by node between the linked tables is the value model's move; the source head is left without a chain |
| `HashTransfer.TransferEntries` | gnulib/lib/hash.c:775-848 | the two nested loops over linked entries compute the value model's transfer, on success and on failure |
| `HashApi.Undo` | gnulib/lib/hash.c:918-925 | both undo passes run on the linked tables, and `abort ()` after them cannot be reached |
| `HashApi.RehashTo` | gnulib/lib/hash.c:850-927 | the whole rehash on pointers is the value model's rehash, so it is all or nothing, and it fails exactly when asked for nothing or when an allocation call failed |
| `HashApi.ComputeBucketSize` | gnulib/lib/hash.c:502-516 | the size is the value model's, 0 when it cannot be allocated |
| `HashApi.CheckTuning` | gnulib/lib/hash.c:470-496 | an invalid tuning is replaced by the default for good |
| `HashCalls.Lookup` | gnulib/lib/hash.c:247-261 | the pointer walk answers the value model's lookup |
| `HashCalls.InsertIfAbsent` | gnulib/lib/hash.c:929-1009 | 1, 0 with the match, or −1, with the resulting table, as the value model says, and −1 exactly when memory or the primes refuse something absent; every invariant of the linked table is kept |
| `HashCalls.Remove` | gnulib/lib/hash.c:1021-1079 | the removed datum and the resulting table are the value model's, including shrinking and the release of the free list |
| `HashReads.Resize` | gnulib/lib/hash.c:850-927 | the user's call of `hash_rehash` keeps every invariant and answers as the value model |
| `HashReads.Initialize` | gnulib/lib/hash.c:518-571 | NULL exactly when an allocation fails, the tuning is invalid or the size cannot be had; otherwise an empty valid table of the computed size |
| `HashReads.Clear` | gnulib/lib/hash.c:573-609 | empties every bucket, resets both counters and recycles all overflow entries |
| `HashReads.TableOk` | gnulib/lib/hash.c:190-217 | for every table with proper chains, true exactly when both counters are right; so it is true of every valid table, and every operation keeps tables valid |
| `HashReads.GetFirst` | gnulib/lib/hash.c:265-278 | the first datum of the walk; NULL exactly when there are no entries, so `abort ()` is not reached |
| `HashReads.GetNext` | gnulib/lib/hash.c:280-303 | the next datum of the walk, also when the argument is not stored |
| `HashReads.GetEntries` | gnulib/lib/hash.c:305-327 | the buffer receives the walk as far as it reaches and is otherwise unchanged |
| `HashRuns.Drive` | gnulib/lib/hash.c:247-1079 | every run of operations on the linked table keeps it valid, computes the value model's run with the same answers, and so answers as a mathematical set |
| `PoolOwnership.StepKeepsOwned` | output/rhv-upload-plugin.py:297-458 | every step of every thread and of the keeper keeps the connections conserved |
| `PoolOwnership.ReachableIsOwned` | output/rhv-upload-plugin.py:359-374 | so they are in every state reachable from the filled pool |
| `PoolOwnership.ExactlyOneOwner` | output/rhv-upload-plugin.py:303-440 | in every interleaving each connection has exactly one owner among the queue, a request, a lock-all operation and the keeper |
| `PoolOwnership.Exclusive` | output/rhv-upload-plugin.py:435-440 | what one thread holds no other thread, queue or keeper has |
| `PoolOwnership.PutNeverBlocks` | output/rhv-upload-plugin.py:314-440 | whoever holds a connection finds room in the queue |
| `PoolBarrier.FlushedMeaning` | output/rhv-upload-plugin.py:309-312 | a connection absent from the set of unflushed ones has had a flush after each of its writes |
| `PoolBarrier.LockedPoolIsWhole` | output/rhv-upload-plugin.py:305-307 | a thread that holds as many connections as the pool has holds them all, and nobody else holds any |
| `PoolBarrier.FlushIsBarrier` | output/rhv-upload-plugin.py:301-316 | when the send loop of a flush ends, no request is in flight and every write completed before has had a flush sent on its connection |
| `PoolHistory.LogIsHistory` | output/rhv-upload-plugin.py:309-312 | the record of writes and flushes is just what the steps of the run did |
| `PoolHistory.FlushCoversHistory` | output/rhv-upload-plugin.py:301-316 | when the send loop of a flush ends, every write that any step of the run completed was followed by a flush on its connection |
| `PoolBarrier.NoUseAfterClose` | output/rhv-upload-plugin.py:443-458 | in no reachable state is a closed connection in the pool, with the keeper, or with any thread but the one that closed it, so no read, write, flush or keep-alive, successful or not, is ever on it |
| `PoolHistory.ClosedMeansAllShut` | output/rhv-upload-plugin.py:443-458 | when the close completes every connection has been closed |
| `PoolHistory.QueueIsFifo` | output/rhv-upload-plugin.py:368-372 | over every run what has been in the pool is what was taken from it, in that order, followed by what is left |
| `PoolHistory.StartsExactlyWithoutError` | output/rhv-upload-plugin.py:298-433 | after every run a thread at rest may start a request or a flush exactly when no keep-alive has ever failed, and the keeper may wake up exactly when no cleanup has begun |
| `PoolProgress.ClashIsForever` | output/rhv-upload-plugin.py:305-307 | two threads in a clash stay in it whatever anybody does, in every run, and the second never gets its connections |
| `PoolProgress.FinishesExactlyWithoutClash` | output/rhv-upload-plugin.py:399-458 | from a reachable state some way of going on brings everything begun to rest exactly when no two threads clash: two lock-alls with some connections each, a close with one and another lock-all, or a close with all and a waiting request; with a clash no run whatsoever does |
| `PoolProgress.FinishesUnlessTwoLockers` | output/rhv-upload-plugin.py:305-307 | while nobody closes the pool the condition is that no two lock-all operations each hold some of the connections, which needs two connections at least |
| `PoolProgress.ProductiveRunEnds` | output/rhv-upload-plugin.py:297-458 | no endless run consists of productive steps, those that go on with something begun other than completing a write |
| `PoolProgress.OneLockerAlwaysFinishes` | output/rhv-upload-plugin.py:297-440 | while nobody closes the pool and one thread at most is locking it, every run of productive steps that cannot be extended ends with everything at rest |
| `PoolProgress.TwoFlushesCanHalt` | output/rhv-upload-plugin.py:306-307 | for every pool size ≥ 2 a run of two flushes reaches a state after which, in every run, both are still locking the pool |
| `PoolHistory.RecordsAreHistory` | output/rhv-upload-plugin.py:409-440 | after every timely run `last_used` is the time of the last request or flush on the connection, unless a keep-alive failed since |
| `PoolHistory.IdleTimeIsBounded` | output/rhv-upload-plugin.py:381-421 | with instantaneous passes every 15 s, a connection that has carried a request or a flush has been idle since for at most 45 s, below the server's 60 s, unless a thread held it at a wake-up since or its keep-alive failed |
| `PoolHistory.KeepsAliveExactlyWhenIdle` | output/rhv-upload-plugin.py:408-421 | the keeper flushes a connection exactly when its last request or flush was more than 30 s ago |
| `PoolTiming.OnlyHeldAreMissed` | output/rhv-upload-plugin.py:402-406 | a wake-up misses only connections that some thread holds |
| `PoolIdle.IdlesExactlyWhenHeld` | output/rhv-upload-plugin.py:381-421 | in every timely reachable state before the cleanup, a used connection can, with the threads standing still, be idle for longer than every bound exactly when a thread holds it; for one not missed since its last use or service, longer than 45 s exactly then too |
| `PoolHistory.IdlesOnlyInHands` | output/rhv-upload-plugin.py:381-421 | the same in terms of the requests and flushes of the run instead of the records |
| `PoolIdle.InPoolIsServed` | output/rhv-upload-plugin.py:399-421 | a used connection that no thread holds stays idle for at most 45 s, or 15 s more than it has been when it had been missed |
| `PoolIdle.WaitingFlushIdlesForever` | output/rhv-upload-plugin.py:381-385 | for every pool of two or more and every bound there is a timely run in which a flush, waiting for a slow request, holds a used connection idle for longer, against the documentation of the keeper |
| `BusSlots.InsertionsCommute` | convert/target_bus_assignment.ml:114-119 | two probing insertions occupy the same slots in either order |
| `BusSlots.FillIgnoresOrder` | convert/target_bus_assignment.ml:64-92 | so do all permutations of a list of wishes |
| `BusSlots.InsertAllKeeps` | convert/target_bus_assignment.ml:100-108 | insertions lose and overwrite nothing, add each device once, and leave the last slot occupied |
| `BusSlots.InsertAllSettles` | convert/target_bus_assignment.ml:110-119 | each device ends where probing put it at its turn |
| `BusAssignment.AssignByBus` | convert/target_bus_assignment.ml:57-92 | the buses do not interfere: each receives its own devices, those with a wish first |
| `BusAssignment.OccupiedIgnoresOrder` | convert/target_bus_assignment.ml:57-92 | on every bus the occupied slots depend neither on the order of the removables nor on the split into the two groups |
| `BusAssignment.AssignmentIsComplete` | convert/target_bus_assignment.ml:34-97 | disk i is in slot i of the chosen bus; every removable is there exactly once, in the least slot from its wish on that was free at its turn; nothing is overwritten; a non-empty bus ends in an occupied slot |
| `BusAssignment.RemovablesGoWhere` | convert/target_bus_assignment.ml:64-92 | each removable is on one bus as often as given: floppies on the floppy bus, CD-ROMs on virtio-blk, IDE or SCSI by controller, IDE if none is known |
| `BusAssignment.DisksGoWhere` | convert/target_bus_assignment.ml:34-43 | fixed disks are on virtio-blk or IDE by the guest's capabilities, in their order, and on no other bus |
| `BusAssignment.GroupsAreStable` | convert/target_bus_assignment.ml:57-62 | both groups keep the order in which their members were given |
| `BusAssignment.WishesFirst` | convert/target_bus_assignment.ml:91-92 | those with a wish are served before those without |
| `BusAssignment.AloneGetsWish` | convert/target_bus_assignment.ml:79-83 | a removable on its own gets the slot it wishes if that is free, and the first free one without a wish |
| `BusArrays.BusRef.Insert` | convert/target_bus_assignment.ml:100-108 | the array is grown when needed and receives the device in an empty slot, so the `assert` holds |
| `BusArrays.BusRef.InsertAfter` | convert/target_bus_assignment.ml:114-119 | the recursion ends and answers whether the wished slot was free |
| `BusArrays.Machine.AssignRemovables` | convert/target_bus_assignment.ml:64-90 | the loop over growable arrays is the value model's placement; it fails exactly on a negative slot |
| `BusArrays.TargetBusAssignment` | convert/target_bus_assignment.ml:25-97 | the whole function on arrays equals the value model; it raises exactly when a removable asks for a negative slot |
| `Finalize.StepKeepsInv` | output/rhv-upload-finalize.py:43-132 | every step of the script or of the engine, with its failures in any order, keeps what the documented order promises, the finished transfers ready and the time bound |
| `Finalize.NormalEndMeansReady` | output/rhv-upload-finalize.py:76-171 | in every interleaving a normal end means that every listed disk is OK and unlocked, and no wait makes more than 301 polls |
| `Finalize.RaisesExactlyWhen` | output/rhv-upload-finalize.py:97-132 | the script raises in a step exactly when it sees a failed, paused or removed transfer without an OK disk, or more than 300 s have passed |
| `Finalize.AdvancesExactlyWhen` | output/rhv-upload-finalize.py:106-118 | it goes on to the next transfer, or ends, exactly when it sees success, and then the disk is OK and unlocked |
| `Finalize.RaisesOnlyForCause` | output/rhv-upload-finalize.py:76-132 | in every interleaving a raise means that the engine has failed the current transfer, or that more than 300 s have passed since `finalize ()` was called for it |
| `Finalize.SuccessEndsNormally` | output/rhv-upload-finalize.py:76-171 | with an engine that brings every transfer to success in time the script ends normally, whatever their number |
| `Finalize.FinishedHasAsked` | output/rhv-upload-finalize.py:78-171 | it ends normally only after asking for every transfer |
| `Finalize.ReadyForGood` | output/rhv-upload-finalize.py:43-65 | a disk once OK and unlocked stays so, whatever the engine does |
| `Finalize.OkButLocked` | output/rhv-upload-finalize.py:43-46 | a state with the disk OK and still locked is reachable |
| `Finalize.BoundIsReached` | output/rhv-upload-finalize.py:80-132 | a run with 301 polls exists, so the bound is exact |
| `Xstrtol.Scale` | gnulib/lib/xstrtol.c:46-61 | one saturating multiplication is the clamp of the exact product, and reports overflow exactly when that is out of range, signed or unsigned |
| `Xstrtol.ClampBeforeScaling` | gnulib/lib/xstrtol.c:46-70 | clamping before scaling changes neither the clamped result nor the report |
| `Xstrtol.ScaleByPower` | gnulib/lib/xstrtol.c:63-70 | the loop clamps number × base^power once |
| `Xstrtol.StartsNegative` | gnulib/lib/xstrtol.c:89-97 | an unsigned conversion is refused exactly when the first non-space character is a minus sign |
| `Xstrtol.ApplySuffix` | gnulib/lib/xstrtol.c:166-226 | each suffix multiplies by its unit, clamped; unknown suffixes change nothing |
| `Xstrtol.Ladder` | gnulib/lib/xstrtol.c:166-226 | K is the base, each of M, G, T, P, E, Z, Y the base times the one before; b is 512, B 1024, c 1, w 2, and there are no others |
| `Xstrtol.BaseIs` | gnulib/lib/xstrtol.c:138-164 | the base is 1000 exactly where a second suffix is allowed and is B or D, and 1024 otherwise; the suffix is two, three or one characters long accordingly |
| `Xstrtol.Parse` | gnulib/lib/xstrtol.c:74-236 | the value is the exact number times the unit, clamped once; overflow is reported exactly when the exact value is out of range, also when `strtol` had saturated; suffix errors and the end position are those of the code |
| `Augeas.ExpandSelectsOne` | convert/linux_bootloaders.ml:165-187 | the path reported for a node selects that node alone |
| `Augeas.PathsReadTheirNodes` | convert/linux_bootloaders.ml:77-107 | the reported paths are distinct and each reads the node it stands for, so removing duplicates changes nothing |
| `GrubKernels.DecimalParses` | convert/linux_bootloaders.ml:135-136 | a number written by `string_of_int` is read back by `int_of_string` |
| `GrubKernels.SignedParses` | convert/linux_bootloaders.ml:92-93 | a sign in front of the digits is taken for what it says |
| `GrubKernels.RemoveDriveKeeps` | convert/linux_bootloaders.ml:42-45 | without a match of the regular expression nothing is removed; with one, everything up to the last closing parenthesis of the first line |
| `GrubKernels.FindEntry` | convert/linux_bootloaders.ml:124-129 | the entry found is the first in the file that boots the kernel; none is found exactly when none does |
| `GrubRoundTrip.SetDefaultSucceeds` | convert/linux_bootloaders.ml:115-137 | success means exactly: under the prefix, booted by some entry, and no second `default` line |
| `GrubRoundTrip.DefaultIsEntry` | convert/linux_bootloaders.ml:130-136 | the 0-based index written is read back as the 1-based path of the entry found; all titles are unchanged |
| `GrubRoundTrip.ListWithDefault` | convert/linux_bootloaders.ml:76-113 | with a default entry the list starts with its kernel and is otherwise complete; it cannot be read when the entry has several kernel lines |
| `GrubRoundTrip.DefaultRoundTrip` | convert/linux_bootloaders.ml:76-137 | the kernel just set comes first exactly when its entry has no second kernel line and its name no (hd…) prefix; every kernel is still offered as often as before, once more when there is a single title |
| `GrubRoundTrip.SecondKernelBreaksList` | convert/linux_bootloaders.ml:93-107 | a configuration where the default can be set and `list_kernels` then fails |
| `GrubRoundTrip.ListedCanBeDefault` | convert/linux_bootloaders.ml:76-137 | every listed kernel comes from a kernel line, and can be made the default exactly when some line is its name without a drive prefix: always when its own line has none |
| `GrubRoundTrip.DrivePrefixIsNotFound` | convert/linux_bootloaders.ml:103-129 | a kernel whose only line has a drive prefix is listed under a name for which `set_default_kernel` finds no entry |
| `GrubRoundTrip.DriveLineIsNotFound` | convert/linux_bootloaders.ml:42-45 | so it is for every line `(hd<drive>)<path>` |
| `GrubRoundTrip.ListSucceedsExactlyWhen` | convert/linux_bootloaders.ml:76-113 | `list_kernels` succeeds exactly when there is no default, or a single one that numbers a title with exactly one kernel line |
| `GrubRoundTrip.ListWithoutDefault` | convert/linux_bootloaders.ml:100-113 | without a default every kernel line is offered, in the order of the file, with its drive prefix removed and the grub prefix put in front |
| `GrubRoundTrip.ListInOrder` | convert/linux_bootloaders.ml:100-113 | with several titles and a bootable default, its kernel comes first and all others follow in the order of the file |
| `GrubRoundTrip.DefaultPastEndBreaksList` | convert/linux_bootloaders.ml:92-107 | a configuration whose default is past the last title, on which it fails |
| `GrubConsoles.RemoveOneConsole` | convert/linux_bootloaders.ml:173-178 | removing one matching console leaves fewer nodes and the same pruned tree |
| `GrubConsoles.CleanIsPruned` | convert/linux_bootloaders.ml:171-182 | a tree without matching consoles is its own pruned form |
| `GrubConsoles.RemainingConsoles` | convert/linux_bootloaders.ml:165-187 | the consoles left are the non-matching ones in their order |
| `GrubConsoles.WholeNamesMatch` | convert/linux_bootloaders.ml:166-166 | a value made of word characters matches exactly when it is `xvc0` or `hvc0` |
| `GrubConsoles.WordsMatch` | convert/linux_bootloaders.ml:166-166 | within a longer value either matches wherever it stands as a word |
| `Grub1.Bootloader.SetDefaultKernel` | convert/linux_bootloaders.ml:115-137 | the method on the tree: both directions of success, the error case changes nothing, and the list that follows |
| `Grub1.Bootloader.RemoveConsole` | convert/linux_bootloaders.ml:165-187 | the restarting loop reads only live nodes, ends by (nodes left, paths left), and leaves exactly the tree without matching consoles |
| `IsZero.ShiftSpreadsZeroes` | lib/guestfs-internal-all.h:107-108 | a buffer equal to itself shifted by 16, and zero in the first 16 bytes, is zero everywhere |
| `IsZero.AllZero` | lib/guestfs-internal-all.h:98-111 | true exactly when every byte is zero, for every length |

## Left out

- `hash.c`: `hash_free`, `hash_print*`, the statistics, `hash_do_for_each` and the string hasher; the `USE_OBSTACK` and `USE_DIFF_HASH` variants; the user's `data_freer`.
- `hash.c`: the hasher is any function with results below the table size, the comparator any equivalence consistent with it; the `abort ()` of `safe_hasher` on a hasher out of range is excluded by that.
- `hash.c`: `float` is exact `real`, so rounding of thresholds and sizes is not modelled; `n_entries` and `n_buckets_used` do not overflow; `SIZE_MAX` is 2^64 − 1.
- `hash.c`: `hash_rehash` called directly while the user's tuning makes the wanted size one whose conversion to `size_t` C leaves undefined (section 6.3.1.4 of ISO/IEC 9899:2011): 0 / 0, or a quotient of -1 or less; all other tunings are modelled.
- `hash.c`: `hash_rehash` copies the free-list pointer into the new table and back; here both tables refer to one list object. `free` has no effect on the model other than that the entries are forgotten.
- HashCalls.InsertIfAbsent: the `abort ()` on inserting NULL is a precondition, as its comment states it.
- Primes.IsPrime: takes only odd candidates of at least 11, as its comment asks; `next_prime` passes no other.
- `rhv-upload-plugin.py`: HTTP requests and bodies, TLS, sockets, JSON and the creation of connections; a request is take, use, return. The number of threads is fixed and arbitrary; the pool size is at least 1 where progress is stated.
- `rhv-upload-plugin.py`: `last_used` of exactly 0.0 counts as used, where the code takes it as never used.
- `rhv-upload-plugin.py`, `rhv-upload-finalize.py`: a step of a thread or script is a step of a transition system instead of a statement in a method, because other parties act between any two of them.
- PoolHistory.IdleTimeIsBounded: keeper passes take no time and come every 15 s; a connection that a thread held at a wake-up is not covered until it is used or served again, nor one whose keep-alive failed.
- `rhv-upload-finalize.py`: the engine obeys the order the documentation promises on the way to success, fails in any order, and never rejects a request; phases that are neither final nor an error are one phase; the connection set-up is left out.
- `target_bus_assignment.ml`: the text of the clash warning; the answer that causes it is modelled.
- `xstrtol.c`: scanning the digits is `strtol`'s (section 7.22.1.4 of ISO/IEC 9899:2011) and enters as its exact number and end position; `errno` values other than `ERANGE` are left out, and the unsigned type is one whose maximum is at least 1024.
- `linux_bootloaders.ml`: Augeas paths are structured values instead of text, reading and saving the file is left out, and a label outside the four that matter carries its name only. `configure_console`, `set_augeas_configuration` and Grub2 are left out.
- GrubKernels.IntOfString: decimal literals with an optional sign only; other forms that OCaml accepts (hexadecimal, underscores) count as failures, and overflow is not modelled.
- Grub1.Bootloader.SetDefaultKernel: a kernel name containing an apostrophe is compared literally, where the code splices it into the path expression.
- The other parts of virt-v2v (inputs, guest inspection, Windows and Linux conversion, other outputs, language bindings) are left out.
