# PureFlash: a verified model of the client library

PureFlash is a distributed block store. This project models the parts of its client
side and common library whose correctness is hardest to see, in Dafny, and proves what
they are for: a crash-consistent append-only file, a conflict scheduler, a sub-I/O engine
with retries, message framing, an event queue without lost wake-ups, snapshot chains, a
UTF-8 checker, and the data structures under them. Where one of them does not keep its
promise, the exact condition under which it does is proved instead.

Where the source changes things in place, the model is a class or a method with loops,
proved against a specification; beside it stands the specification, as functions or as a
state machine, with the theorems about it. Concurrent code is a state machine whose steps
are the sections that the source runs under a lock, or single waits and completions where
locks and semaphores are themselves the subject; theorems about it hold for every run,
that is every interleaving of such steps by any number of threads.

`dafny verify dfyconfig.toml` checks everything.

## What is proved

**Append-only file** (`AofFormat`, `AofCrash`, `AofHistory`, `AofSync`, `AofFaults`,
`AofVolume`, `AofReads`, `AofLeaves`, `Aof`). A byte-granular file over a volume that takes
only whole 4 KiB blocks inside 128 KiB segments. `read` returns exactly the appended bytes,
wherever the range lies across unaligned ends, whole segments and the append buffer,
although its requests overlap and arrive in any order: none is in flight any more when the
ends are copied. Every request to the volume keeps the block and segment rules. `sync` is a
machine of overlapping writes behind a counting semaphore: tokens, writes in flight and
waits taken always make up its depth, so draining it leaves nothing in flight when the head
is issued, and that holds in every run if and only if it is drained by as many waits as it
is deep. At every moment before the head is on the volume, whatever bytes of whatever writes
are, opening finds exactly the content of the last completed sync, even if writes failed.
Over a whole life of appends, syncs and crashes in which writes succeed, what a completed
sync covered is never lost; the class issues its writes through that machine and takes only
steps of that history. (The segment is `PF_MAX_IO_SIZE`, 128 KiB, although names in the
source speak of 64K.)

**Window cache** (`AofPrefetch`, `AofCache`). The user's buffer gets what the file holds,
under any interference by other threads, and without prefetching the read returns. A line
survives appends if and only if none falls into its window.

**Conflict scheduler** (`BitArray`, `UnitQueue`, `SchedulerProtocol`, `BlockNode`). In every
reachable state running requests are pairwise disjoint, the bit array is their union, the
counter their number, and the flag follows from queue and running set, so every assertion of
the source holds for requests of one LBA or more. Requests are sent in submission order, an
overlapping later request never before the earlier one is answered. A request is sent at
once if and only if nothing is queued and it overlaps no running one, a dispatch stops only
at a request that overlaps one it has just sent, and every queued request is sent after as
many replies as requests wait ahead of it.

**Admission, ids and splitting** (`IdGenerator`, `Splitting`, `Admission`, `VolumeCtx`). The
splitting loop tiles the request, one block per piece, in as many pieces as were reserved,
and an admitted request always gets an id that is not in use, in every run without empty
requests; the completion fires on the last reply in any order of replies.

**Sub-I/O session** (`SessionPieces`, `SessionProtocol`, `SessionSafety`, `SessionAnswers`,
`SessionStatus`, `SessionErrors`, `SessionSlots`, `SessionTheorems`, `SessionHeard`,
`SessionReads`, `SessionSending`, `SessionLists`, `Session`, `DList`, `TransactionId`). Over
any interleaving of pushes, sends, partial replies, delay-retry replies, time-out resends
and reconnects, with at most 512 slots, every sub-I/O is in exactly one place, a slot is
free exactly when it is empty, each I/O is cut into contiguous pieces in FIFO order and
reaches the callback queue once, on the reply that finishes its last piece, and a session
with nothing under way and nothing to send has completed everything. A run that sends
nothing again that was answered in part finishes no sub-I/O before every one of its LBAs was
answered; in it a read that is one sub-I/O, if it is called back with status OK, has what
the server sent in every block of the user's buffer, whatever bytes of broken-off replies
came in between. An I/O is called back with the status it was pushed with or, if that is OK,
with the first error among the replies to the sub-I/O that was answered last. There are
never more sub-I/Os under way than slots. The class works on the source's two circular lists
with its cursor pointing into one of them; the lists refine sequences under push, removal
from the middle, pop and splice.

**Framing** (`Framing`, `ReceiveLoops`). However sends are cut, the bytes on the wire are
the frames of the messages in order, all of them once the socket has taken bytes often
enough; however the stream is cut on arrival, the receiver recovers exactly those messages,
as long as no discard fails. A stream can be read in one way only.

**Event queue** (`FixedSizeQueue`, `EventQueueProtocol`, `EventQueue`,
`SingleEventProtocol`). For any number of producers, and with the eventfd in either mode,
nothing is lost, doubled or reordered, no wake-up is lost, and steps other than posts run
out only when everything is delivered.

**Snapshot chain** (`SnapshotOrder`, `SnapshotChain`), **UTF-8** (`Utf8`), **MD5 streaming**
(`Md5`) and **command ids** (`MemPool`).

## Where the code falls short, and exactly when

Each of these has a counterexample and a condition proved to be both necessary and
sufficient.

- A session reads the slot of a reply or a time-out from the upper ten bits of a signed
  number. All slots of a session are found again in every run if and only if there are at
  most 512 (`SessionSlots.SlotsFoundIff`); slot 512 is read as -512
  (`TransactionId.Slot512`). `rge_io_depth` is taken from the configuration without an upper
  bound.
- `io_cbk` keeps the status of a write only when one has been kept before, so a failed write
  is never noticed: the head is written over data that is not there, or is itself not
  written, and sync returns. A sync that returns has made the file durable in every run if
  and only if writes do not fail or nothing was appended since the last sync
  (`AofFaults.DurableIff`).
- A write that is not accepted takes a token that nobody posts. A sync returns if and only
  if every submission is accepted (`AofSync.ReturnsIff`); otherwise the drain waits for
  ever.
- `read` returns at once when a request is not accepted, with others still on their way to
  the user's buffer and to one that it frees. Nothing is on its way at its return, in every
  run, if and only if every request is accepted or not even the first, or the depth is one
  (`AofLeaves.LeavesNothingIff`).
- `bg_fetch_data` waits, with the shared lock of the line in hand, for a task that needs
  that lock exclusively. It returns if and only if the line holds the window already, when
  there is nothing to fetch (`AofPrefetch.ReturnIff`); so a read through a cache that
  prefetches returns if and only if it ends in the first half of a window or finds the next
  one in its line (`AofCache.AofWindowCache.Pread`). No task ever fetches
  (`AofPrefetch.NeverFetches`).
- The assertion on `replied_lba_count` holds in every run of a session if and only if
  `rge_io_max_lbas` is one (`SessionAnswers.AssertionIff`): a larger sub-I/O answered in
  part and sent again can be answered with more LBAs than it has. Under the same condition,
  and no other, a finished sub-I/O has had all its LBAs answered
  (`SessionAnswers.AnsweredIff`): the count cannot tell one LBA answered twice from two.
- A read of n LBAs that is called back with status OK has all its data in every run that
  sends nothing again that was answered in part if and only if n is at most
  `rge_io_max_lbas` (`SessionReads.CleanReadsRightIff`), because the error of a sub-I/O that
  is not the last can be lost; and in every run whatever if and only if n is at most one
  (`SessionReads.ReadsRightIff`), because one LBA answered n times counts for all of them.
- The status of an I/O is that of the sub-I/O that finishes last. It is right in every run
  if and only if the I/O is a single sub-I/O (`SessionStatus.StatusIff`); otherwise an error
  can be lost. And an error that is in the message when it is pushed is there at the end
  (`SessionStatus.ErrorSticks`).
- `do_send` goes on with the sub-I/O in the slot it has begun to send without looking
  whether there still is one. There is, in every run, if and only if no sub-I/O is sent
  again after a time-out while the rest of a reply to it is still to come
  (`SessionSending.AlwaysSafeIff`).
- Putting a sub-I/O into a slot again does not clear the counter in its transaction id. The
  new id is one that it had before in that slot if and only if the counter brings no new bit
  (`TransactionId.RetryRepeatsIff`); the counters 1, 2, 3 give 1, 3, 3.
- `rcv_discard` gives up when a call of `recv` fails, and its caller does not look. The
  receiver stays in step with the stream if and only if no call fails before the bytes to
  discard have come (`Framing.Receiver.HeadComplete`); otherwise it takes the rest of that
  message, whatever the format, for the next head (`Framing.Misread`).
- After an orderly shutdown by the peer every `recv` returns zero, and neither receive loop
  takes that for an end. A loop ends if and only if there is no point from which on only
  empty answers come while bytes are left (`ReceiveLoops.TerminatesIff`).
- An empty request is split into one empty piece, and the bit array asserts that pieces are
  not empty. Its assertions hold for all pieces of a request if and only if the request has
  an LBA (`Splitting.Split`, and `Splitting.SplitNothing` for the request of no bytes at 0).
  With assertions compiled out there is more: an empty request that starts on a 4 MiB
  boundary reserves nothing. What is reserved is what is split if and only if a request is
  not of that kind and below 2^32 LBAs (`Splitting.ReserveIff`); whoever is admitted gets an
  id in every run if and only if there are no such requests (`Admission.IdsSufficeIff`).
- The redo log calls insertion with a strict comparison. Insertion then keeps a chain in
  order if and only if the new sequence is not already there behind the head
  (`SnapshotOrder.InsertNewerOnly`); otherwise it inserts a duplicate.
- The block loop of `MD5Update` stops at the end of its input if and only if that end is
  more than 64 below 2^32 (`Md5.LoopStopsIff`), because `i + 64` wraps around.
- `MD5Decode` casts every word to one octet. It undoes `MD5Encode` if and only if every word
  is below 256 (`Md5.DecodeUndoesEncodeIff`).

Three further conditions are exact. The pool of sub-I/Os is never exhausted, whatever is
pushed, if and only if it has an entry for each slot (`SessionSlots.PoolSufficesIff`), which
is so if `rge_io_depth` is at most `s5_io_depth` times 1024 divided by `rge_io_max_lbas`, as
it is by default. The others are met wherever the code runs. Command ids are 16 bits wide
and enough for 65536 requests (`MemPool.ClientAppCtx.EveryRequestPicksItself`); `do_open`
accepts no depth that needs more than 510 (`MemPool.DoOpen`). `get_event` needs its eventfd
in semaphore mode (`SingleEventProtocol.SingleEventNeedsSemaphore`), and both queues it is
used on are set up that way (`common/src/pf_tcp_connection.cpp`, lines 38 and 41).

## Model

| member | source | states |
|---|---|---|
| AofFormat.HeadRoundTrip | common/src/pf_aof.cpp:263-275 | writing a length into the head block and reading it back is the identity, and leaves magic and version alone |
| AofFormat.HeadBytes | common/src/pf_aof.cpp:263-275 | a head is accepted if and only if it begins with the eight bytes of magic and version, low byte first |
| AofFormat.BytesRoundTrip | common/src/pf_aof.cpp:263-275 | a number below 256^n survives its n-byte little-endian form |
| AofFormat.ApplyOneMore | common/src/pf_aof.cpp:360-386 | applying a list of writes and one more is applying that one after the list |
| AofCrash.PlanCarries | common/src/pf_aof.cpp:344-386 | every data write of a sync is whole blocks inside one 128 KiB segment, agrees with the file wherever it overlaps it, and is zero behind its end |
| AofCrash.PlanCovers | common/src/pf_aof.cpp:360-386 | every byte in the append buffer is in some data write |
| AofCrash.CrashBeforeHead | common/src/pf_aof.cpp:334-401 | stop before the head write with any bytes of any data writes on the volume: opening finds exactly the last synced content |
| AofCrash.CrashAfterSomeWrites | common/src/pf_aof.cpp:360-401 | the same after any of the data writes done whole, in any order and number |
| AofCrash.SyncIsComplete | common/src/pf_aof.cpp:360-401 | all data writes in any order, then the head: opening finds the whole file |
| AofCrash.HeadUntouched | common/src/pf_aof.cpp:337-347 | data writes never touch the head block |
| AofHistory.OpenFinds | common/src/pf_aof.cpp:263-283 | opening a volume with durable content gives that content, in a sound state |
| AofHistory.CrashSound | common/src/pf_aof.cpp:263-409 | after a crash the volume opens and the file is exactly what the last completed sync covered |
| AofHistory.SyncSound | common/src/pf_aof.cpp:334-409 | a completed sync leaves a sound state with everything synced |
| AofHistory.StepSound | common/src/pf_aof.cpp:263-429 | every append, sync and crash keeps the state sound and keeps synced content in front of the file |
| AofHistory.RunKeepsSynced | common/src/pf_aof.cpp:263-429 | over any run, content synced at its beginning is in front of the file at its end |
| AofHistory.SyncIsForever | common/src/pf_aof.cpp:334-409 | all of the file at a completed sync is in front of the file at the end of any run, whatever crashes follow |
| AofHistory.CreatedIsEmpty | common/src/pf_aof.cpp:103-147 | a newly created volume opens as the empty file, in a sound state |
| AofHistory.LifeOfAFile | common/src/pf_aof.cpp:103-429 | from creation on, through any appends, syncs and crashes, the volume holds the last synced content and nothing a completed sync covered is ever lost |
| AofSync.StepCounted | common/src/pf_aof.cpp:306-398 | tokens, writes in flight, waits taken and tokens lost always make up the depth of the semaphore, every write issued is finished, failed or in flight, and the status kept stays zero |
| AofSync.StepQuiet | common/src/pf_aof.cpp:387-397 | with as many waits as the depth, no data write is in flight and none was refused once it is the turn of the head |
| AofSync.StepSettled | common/src/pf_aof.cpp:359-398 | the volume holds the finished writes and, here and there, bytes of those in flight or failed |
| AofSync.RunSound | common/src/pf_aof.cpp:353-401 | all of that holds at every moment of every sync, however its writes overlap |
| AofSync.BeforeHead | common/src/pf_aof.cpp:359-397 | until the head is on the volume every byte is an old one or one that a data write puts there |
| AofSync.EveryMoment | common/src/pf_aof.cpp:334-401 | before the head is on the volume stopping is a crash of the history; afterwards, if no write failed, sync is a completed step of it |
| AofSync.HeadWritten | common/src/pf_aof.cpp:393-401 | a head written after data writes that all finished is a completed sync |
| AofSync.NotStuck | common/src/pf_aof.cpp:370-398 | a sync that has not returned, and of which nothing was refused, can go on by itself or by a write in flight finishing |
| AofSync.StepLeavesLess | common/src/pf_aof.cpp:370-398 | every step leaves less to do, so no run goes on for ever |
| AofSync.ShortIff | common/src/pf_aof.cpp:377-398 | a token is lost exactly when a submission was refused |
| AofSync.ReturnsIff | common/src/pf_aof.cpp:377-398 | a run that goes on for as long as it can returns if and only if every submission was accepted |
| AofSync.StuckInDrain | common/src/pf_aof.cpp:360-390 | after a data write was refused, a run ends with every token drained but the lost one, nothing in flight and no head issued |
| AofSync.LastOneLate | common/src/pf_aof.cpp:387-392 | with fewer waits than the depth there is a run in which the head overtakes a data write |
| AofSync.DrainIff | common/src/pf_aof.cpp:356-392 | the head waits for all data in every run if and only if the semaphore is drained by as many waits as it is deep |
| AofFaults.KeptInPlace | common/src/pf_aof.cpp:306-401 | bytes of the file that are on the volume already stay right, whichever writes fail |
| AofFaults.AllFail | common/src/pf_aof.cpp:306-401 | from any point before the head, all remaining writes may fail, the head included, and sync returns with the volume as it was |
| AofFaults.NothingNew | common/src/pf_aof.cpp:263-283 | the file is durable as it is if and only if nothing was appended since the last sync |
| AofFaults.DurableIff | common/src/pf_aof.cpp:306-401 | a sync that returns has made the file durable in every run if and only if writes do not fail or nothing was appended since the last sync |
| AofFaults.OneByte | common/src/pf_aof.cpp:103-147 | the first byte appended to a newly created file, which its sync can leave out and return, even if it is on the volume by chance |
| AofVolume.Volume.SyncRead | common/src/pf_aof.cpp:315-332 | a single read of whole blocks inside one segment, waited for, returns the bytes of the volume |
| AofVolume.IoWaiter.constructor | common/src/pf_aof.cpp:353-357 | a sync begins with a full semaphore and nothing in flight |
| AofVolume.IoWaiter.FinishOne | common/src/pf_aof.cpp:306-313 | a write that finishes is on the volume and posts the semaphore |
| AofVolume.IoWaiter.AwaitToken | common/src/pf_aof.cpp:371-371 | a wait returns with a token, after whatever writes the volume chose to finish; the machine takes only completions |
| AofVolume.IoWaiter.SubmitWrite | common/src/pf_aof.cpp:370-377 | one wait and one submission, the next write of the plan |
| AofVolume.IoWaiter.Drain | common/src/pf_aof.cpp:387-392 | all waits return, with the plan issued and the head not |
| AofVolume.IoWaiter.WriteHead | common/src/pf_aof.cpp:394-401 | the head is written and sync has returned, as steps of the machine |
| AofReads.ReadWaiter.constructor | common/src/pf_aof.cpp:482-486 | a read begins with a full semaphore and nothing in flight |
| AofReads.ReadWaiter.FinishOne | common/src/pf_aof.cpp:306-313 | a request that arrives puts its bytes in their place and posts the semaphore; every byte is still the one expected or on its way |
| AofReads.ReadWaiter.AwaitToken | common/src/pf_aof.cpp:535-536 | a wait returns with a token, after whatever requests the volume chose to finish |
| AofReads.ReadWaiter.SubmitRead | common/src/pf_aof.cpp:525-546 | one wait and one request, to a place of its own |
| AofReads.ReadWaiter.Drain | common/src/pf_aof.cpp:549-556 | after as many waits as the depth nothing is in flight, and both buffers hold everything expected |
| AofLeaves.StepCounted | common/src/pf_aof.cpp:482-592 | tokens, requests in flight and waits make up the depth, less the token of a request that was not accepted |
| AofLeaves.LeftBehind | common/src/pf_aof.cpp:499-503 | a run in which read returns an error with a request still in flight |
| AofLeaves.LeavesNothingIff | common/src/pf_aof.cpp:482-592 | nothing is in flight at the return of read in every run if and only if every request is accepted, or not even the first, or the depth is one |
| Aof.PfAof.constructor | common/src/pf_aof.cpp:53-66 | an empty append buffer of the given size |
| Aof.PfAof.Open | common/src/pf_aof.cpp:263-283 | EINVAL unless the volume begins with the eight bytes of magic and version; otherwise the durable content, with its partial last block in the append buffer |
| Aof.PfAof.LoadTail | common/src/pf_aof.cpp:276-283 | the append buffer holds the unaligned end of the file |
| Aof.PfAof.SubmitSegment | common/src/pf_aof.cpp:361-377 | the next write of the plan, aligned and inside a segment and filled up with zeros, is submitted; the buffered bytes stay |
| Aof.PfAof.SubmitAllData | common/src/pf_aof.cpp:359-386 | the writes issued are exactly the plan for the buffered data, whatever of them finishes meanwhile |
| Aof.PfAof.KeepUnalignedRest | common/src/pf_aof.cpp:403-408 | the buffer keeps exactly the part of the file after its last whole block |
| Aof.PfAof.WriteOut | common/src/pf_aof.cpp:353-401 | the overlapping writes of the machine end in a sync step of the history, with the data writes in the order in which they finished |
| Aof.PfAof.Sync | common/src/pf_aof.cpp:334-409 | all of the file is durable and unchanged; sync is one step of the history |
| Aof.PfAof.Buffer | common/src/pf_aof.cpp:416-421 | the file grows by the bytes copied; one append step of the history |
| Aof.PfAof.AppendChunk | common/src/pf_aof.cpp:415-424 | one turn of the loop grows the file by its bytes and leaves room in the buffer |
| Aof.PfAof.Append | common/src/pf_aof.cpp:411-429 | the file grows by exactly the given bytes, through steps of the history |
| Aof.PfAof.ReadBuffer | common/src/pf_aof.cpp:459-473 | the bytes wanted that are in the append buffer are in place, and the number left to fetch is right |
| Aof.PfAof.ReadEnds | common/src/pf_aof.cpp:474-522 | the two unaligned end blocks are requested, each only if needed, and the whole blocks lie between them |
| Aof.PfAof.ReadBlocks | common/src/pf_aof.cpp:525-546 | whole blocks are requested to their place, in requests that stay inside a segment and do not overlap |
| Aof.PfAof.ReadAndDrain | common/src/pf_aof.cpp:482-556 | when the waits are over, whole blocks and unaligned ends have all arrived, in whatever order |
| Aof.PfAof.CopyEnds | common/src/pf_aof.cpp:557-569 | the unaligned ends arrive in their place and nothing else changes |
| Aof.PfAof.ReadVolume | common/src/pf_aof.cpp:474-569 | every byte of the range below the append buffer arrives in its place, nothing else changes |
| Aof.PfAof.Read | common/src/pf_aof.cpp:431-593 | returns the number of bytes the file has of the range and exactly those bytes, nothing else changes |
| Aof.AssembleRead | common/src/pf_aof.cpp:474-569 | head, whole blocks and tail together are the range of the volume |
| Aof.ReadShape | common/src/pf_aof.cpp:474-524 | unaligned head, whole blocks and unaligned tail tile the range without gap or overlap |
| Aof.Reopen | common/src/pf_aof.cpp:263-409 | sync and open again gives the same file byte for byte |
| AofPrefetch.StuckForever | common/src/pf_aof_cache.cpp:116-131 | a caller that waits for its task waits for ever, and the line keeps its window |
| AofPrefetch.RunSound | common/src/pf_aof_cache.cpp:97-131 | in every run a task that was launched has not fetched |
| AofPrefetch.NeverFetches | common/src/pf_aof_cache.cpp:97-131 | from before the call on, whatever other threads do: no task ever fetches, and a call that waits stays, on a line that nobody fetches into any more |
| AofPrefetch.OnlyTheCaller | common/src/pf_aof_cache.cpp:97-131 | without the lock of the caller its task would fetch the window as soon as the other readers have left |
| AofPrefetch.ReturnIff | common/src/pf_aof_cache.cpp:116-131 | with the shared lock in hand the call returns, in some run or in all, if and only if the line holds the window |
| AofPrefetch.FreshLineStuck | common/src/pf_aof_cache.cpp:116-131 | on a line that was never used the call does not return |
| AofCache.CacheLine.FetchData | common/src/pf_aof_cache.cpp:97-114 | under the exclusive lock: the line holds the window asked for and agrees with the file |
| AofCache.CacheLine.CopyOut | common/src/pf_aof_cache.cpp:87-93 | from the right window, as many file bytes as the line has of the range |
| AofCache.CacheLine.Pread | common/src/pf_aof_cache.cpp:67-95 | copies what the window has of the range, whatever other threads fetch into the line between its looks, and terminates |
| AofCache.CacheLine.BgFetchData | common/src/pf_aof_cache.cpp:116-131 | returns if and only if a run of the lock machine does, which is if and only if the line holds the window; otherwise the shared lock stays taken |
| AofCache.AofWindowCache.constructor | common/src/pf_aof_cache.cpp:13-63 | eight empty lines with buffers of their own |
| AofCache.AofWindowCache.PreadSlot | common/src/pf_aof_cache.cpp:41-47 | one turn of the loop copies file bytes, keeps every line right and changes only the line of its window |
| AofCache.AofWindowCache.PreadSlots | common/src/pf_aof_cache.cpp:39-47 | all bytes wanted arrive; the line for the window after them holds it if and only if it did before and the read goes through fewer than eight windows |
| AofCache.AofWindowCache.Pread | common/src/pf_aof_cache.cpp:28-52 | the buffer gets exactly what the file has and lines stay right; the call returns if and only if it ends in the first half of a window or the next window is in its line, which can be told beforehand |
| AofCache.FirstRead | common/src/pf_aof_cache.cpp:13-52 | the first read through a fresh cache that prefetches never returns if it ends in the second half of a window |
| AofCache.AofWindowCache.Prefetch | common/src/pf_aof_cache.cpp:48-50 | returns if and only if there is nothing to prefetch or the next window is there already; otherwise the lock of its line stays taken |
| AofCache.NearTheEndIff | common/src/pf_aof_cache.cpp:48-50 | there is something to prefetch exactly when a read ends in the second half of a window |
| AofCache.LineAfterAppend | common/src/pf_aof_cache.cpp:97-107 | a right line stays right whatever is appended if and only if nothing appended falls into its window |
| BitArray.MaskIs | S5bd/src/bitarray.c:68-157 | the 32-bit mask expression cut down to a byte is a run of ones at the right place |
| BitArray.MaskedByte | S5bd/src/bitarray.c:68-157 | bit by bit, what or-ing, clearing and testing with a mask do |
| BitArray.Bits.constructor | S5bd/src/bitarray.c:18-52 | all bits clear |
| BitArray.Bits.Collides | S5bd/src/bitarray.c:68-101 | tells whether any bit of the interval is set |
| BitArray.Bits.Set | S5bd/src/bitarray.c:68-123 | all or nothing: succeeds if and only if the interval was free, sets it then, and changes no other bit |
| BitArray.Bits.Reset | S5bd/src/bitarray.c:125-157 | clears exactly the interval |
| UnitQueue.Queue.Enqueue | S5bd/src/tasknode.c:49-65 | appends to the sequence |
| UnitQueue.Queue.Dequeue | S5bd/src/tasknode.c:67-81 | takes the first of the sequence, or nothing from an empty one |
| SchedulerProtocol.StepSound | S5bd/src/s5imagectx.c:1097-1196 | every submission and every reply keeps exclusion, order, counters and flag |
| SchedulerProtocol.ReachableSound | S5bd/src/s5imagectx.c:1097-1196 | in every reachable state: disjoint running requests, bits are their union, count and flag fit, sending in submission order |
| SchedulerProtocol.AssertionsHold | S5bd/src/s5imagectx.c:1097-1196 | the assertions on flag, empty queue and successful bit setting, and those of the bit array on its arguments, hold in every reachable state, for requests of one LBA or more |
| SchedulerProtocol.IdleIsFresh | S5bd/src/s5imagectx.c:934-939 | an idle node may be freed: a new one differs from it in history only |
| SchedulerProtocol.OverlappingGoInTurn | S5bd/src/s5imagectx.c:1097-1196 | of two overlapping requests that were sent, the earlier one has been answered |
| SchedulerProtocol.FreeIffApart | S5bd/src/s5imagectx.c:1156-1165 | the bit array accepts a request if and only if it overlaps no running one |
| SchedulerProtocol.SentAtOnceIff | S5bd/src/s5imagectx.c:1136-1196 | in every reachable state a request is sent at once if and only if nothing is queued and it overlaps no running one |
| SchedulerProtocol.ReplySends | S5bd/src/s5imagectx.c:915-932 | a reply sends nothing while others run; after the last one the queue moves, up to a request that overlaps a running one |
| SchedulerProtocol.DispatchIsMaximal | S5bd/src/s5imagectx.c:1107-1133 | what a dispatch leaves in the queue begins with a request that overlaps one it has just sent |
| SchedulerProtocol.QueuedHasRunningAhead | S5bd/src/s5imagectx.c:1097-1134 | a queued request always has a running one ahead of it |
| SchedulerProtocol.StepShortensWait | S5bd/src/s5imagectx.c:925-932 | a reply sends a queued request or makes fewer wait ahead of it, a submission never makes it worse |
| SchedulerProtocol.QueuedIsSent | S5bd/src/s5imagectx.c:925-932 | after as many replies as requests wait ahead of it, a queued request has been sent, in any run |
| BlockNode.Block.constructor | S5bd/src/tasknode.c:83-89 | a new node is the initial state |
| BlockNode.Block.ProcessTask | S5bd/src/s5imagectx.c:1136-1196 | the fields change as one submission step; the request is sent now if and only if nothing is queued and no running request overlaps it, and otherwise stands last in the queue |
| BlockNode.Block.SendFromHead | S5bd/src/s5imagectx.c:1107-1133 | the loop sends a prefix of the queue, in order, and stops only at a request that does not fit |
| BlockNode.Block.DispatchTask | S5bd/src/s5imagectx.c:1097-1134 | the fields change as a dispatch; what is sent and what is left are the old queue |
| BlockNode.Block.RecvReply | S5bd/src/s5imagectx.c:915-939 | the fields change as one reply step; nothing is sent while others run, what is still queued after the last one was answered begins with a request that overlaps a running one, and the node is idle exactly when nothing runs or waits |
| IdGenerator.IdManager.constructor | S5bd/src/idgenerator.c:21-60 | ids 0 to size are free, in order |
| IdGenerator.IdManager.AllocId | S5bd/src/idgenerator.c:78-96 | takes the oldest free id, and fails exactly when one is left |
| IdGenerator.IdManager.FreeId | S5bd/src/idgenerator.c:98-114 | the id is free again, last in line |
| Splitting.GetIoNumCountsBlocks | S5bd/src/s5imagectx.c:953-972 | get_io_num is the number of 4 MiB blocks the bytes touch |
| Splitting.Split | S5bd/src/s5imagectx.c:1198-1293 | the pieces tile the LBAs of the request, a 32-bit number, in order, each in one block with its buffer offset; an empty request gives one empty piece; the assertions of the bit array hold for all pieces if and only if there is an LBA |
| Splitting.PieceIsRequest | S5bd/src/s5imagectx.c:1097-1134 | a piece inside one block is a request that the scheduler of that block can take |
| Splitting.SplitNothing | S5bd/src/bitarray.c:68-71 | the only piece of the request of no bytes at 0 fails the assertion of bitarray_set |
| Splitting.ReserveIff | S5bd/src/s5imagectx.c:953-972 | get_io_num is the number of pieces if and only if there are fewer than 2^32 LBAs and the request is not an empty one on a block boundary |
| Splitting.FilledBound | S5bd/src/s5imagectx.c:903-913 | the count of answered LBAs reaches that of the request if and only if every piece is answered |
| Splitting.CompletesOnLastReply | S5bd/src/s5imagectx.c:903-913 | the completion fires on the reply that leaves no piece unanswered and on no other |
| Admission.StepSound | S5bd/src/s5imagectx.c:570-582 | that io_num counts pieces between admission and callback, and every id is free or in use, not both, survives a step if and only if the step reserves what will be split |
| Admission.LetInIsSmall | S5bd/src/libs5bd.c:297 | a request that is let in is below 2^32 LBAs, whatever the size of the volume, because the depth is at most 256 |
| Admission.AdmittedAlwaysGetsId | S5bd/src/s5imagectx.c:1338-1363 | in every run without empty requests on a block boundary io_num stays within the depth and an admitted request gets an id in range and not in use |
| Admission.ReservesWhatIsSplit | S5bd/src/s5imagectx.c:1338-1363 | the request is shortened only to end with the volume, and what is reserved is the number of its pieces if and only if it is not an empty one on a block boundary |
| Admission.Crowd | S5bd/src/s5imagectx.c:1338-1363 | any number of empty requests is let in at once |
| Admission.IdsSufficeIff | S5bd/src/s5imagectx.c:1198-1363 | whoever is admitted gets an id in every run if and only if there are no such requests |
| VolumeCtx.Context.UpdateIoNumAndLen | S5bd/src/s5imagectx.c:1338-1363 | EINVAL exactly for what is not aligned or begins behind the volume, EAGAIN exactly for what would exceed the depth; a request let in is shortened only to end with the volume, and counted; the books stay right if and only if what is reserved is what will be split |
| VolumeCtx.Context.TakePieceId | S5bd/src/s5imagectx.c:1221-1222 | the id is in range and was not in use, so the assertion on it holds |
| VolumeCtx.Context.FreePieceId | S5bd/src/s5imagectx.c:927 | the id is free again as one step |
| VolumeCtx.Context.AfterCallback | S5bd/src/s5imagectx.c:570-582 | one unit of io_num is given back as one step |
| SessionPieces.CutIsContiguous | S5bd/src/s5session.c:300-326 | sub-I/Os follow each other without gap or overlap, cover the I/O, and none exceeds the maximum |
| SessionPieces.CutCount | S5bd/src/s5session.c:1314-1317 | there are as many sub-I/Os as push_s5io counts |
| SessionPieces.PiecesCarryData | S5bd/src/s5session.c:306-322 | the data of a write travels in its sub-I/Os whole, in order and once |
| SessionSafety.CursorStep | S5bd/src/s5session.c:302-339 | cutting a sub-I/O moves the cursor over exactly that piece, to the next I/O after the last one |
| SessionSafety.TakeSound | S5bd/src/s5session.c:162-229 | taking over the incoming queue keeps the lists in order of arrival |
| SessionSafety.RetriedSound | S5bd/src/s5session.c:108-130 | a reconnect empties every slot and loses nothing |
| SessionSafety.CountdownSound | S5bd/src/s5session.c:385-400 | one sub-I/O more is finished: the counter still counts, and the I/O completes exactly on its last one |
| SessionSafety.StepSound | S5bd/src/s5session.c:108-457 | every step keeps conservation, slots, lists, cursor and counters |
| SessionSafety.RunSound | S5bd/src/s5session.c:108-457 | so does every run |
| SessionTheorems.ReachableSound | S5bd/src/s5session.c:108-457 | all of that holds in every state a session can get into as long as replies come to the slots they are for |
| SessionTheorems.EveryRun | S5bd/src/s5session.c:108-457 | in every run in which replies come to their slots, and for a depth up to 512 they do: each sub-I/O in one place, positions free exactly when their slot is empty, no more under way than slots, pieces in order of arrival, each I/O called back once when all its sub-I/Os are finished and not before; with sub-I/Os of one LBA nothing is finished that was not answered |
| SessionTheorems.GeneratedInOrder | S5bd/src/s5session.c:254-342 | the sub-I/Os cut so far are a beginning of all pieces of all I/Os in the order of their arrival |
| SessionTheorems.RetriesInOrder | S5bd/src/s5session.c:264-280 | whatever else happens in a run, each sending takes the first of the sub-I/Os that wait to be sent again |
| SessionTheorems.RetryIsSent | S5bd/src/s5session.c:264-280 | the k-th of them is sent, as it is, after k other sendings |
| SessionTheorems.ReconnectRetriesAll | S5bd/src/s5session.c:108-130 | a reconnect empties every slot and puts all sub-I/Os under way, as they are and in order, behind those that wait to be sent again |
| SessionTheorems.InOnePlace | S5bd/src/s5session.c:108-130 | every sub-I/O is in exactly one of retry queue, slots and finished ones |
| SessionTheorems.CompletesOnLastReply | S5bd/src/s5session.c:367-408 | an I/O reaches the callback queue only by the reply that finishes its last sub-I/O |
| SessionTheorems.CompletedOnce | S5bd/src/s5session.c:347-408 | an I/O is in the callback queue once if all its sub-I/Os are finished and not otherwise |
| SessionTheorems.StuckMeansDone | S5bd/src/s5session.c:775-791 | nothing under way and nothing to send means every I/O has completed |
| SessionAnswers.StepTidy | S5bd/src/s5session.c:367-408 | as long as nothing answered in part is sent again, what a sub-I/O counts is what was answered and the rest is owed |
| SessionAnswers.CleanRunAnswered | S5bd/src/s5session.c:367-408 | in every run of that kind the assertion on replied LBAs holds and every finished sub-I/O has had all its LBAs answered |
| SessionAnswers.OneLbaAnswered | S5bd/src/s5session.c:367-408 | both hold in every run when sub-I/Os have one LBA |
| SessionAnswers.OverReply | S5bd/src/s5session.c:380-384 | with two or more LBAs there is a run in which the assertion fails |
| SessionAnswers.HalfAnswered | S5bd/src/s5session.c:380-400 | and one in which it holds throughout and an I/O is called back with an LBA never answered |
| SessionAnswers.AssertionIff | S5bd/src/s5session.c:384 | the assertion holds in every run if and only if rge_io_max_lbas is one |
| SessionAnswers.AnsweredIff | S5bd/src/s5session.c:380-400 | finished means answered, LBA by LBA, in every run if and only if rge_io_max_lbas is one |
| SessionReads.ReceiveData | S5bd/src/s5session.c:633-637 | the data of a reply, or zeros if it carries none, fills exactly the blocks of its LBAs in the user's buffer |
| SessionReads.RunRight | S5bd/src/s5session.c:367-408 | in every run that sends nothing of an I/O again that was answered in part, its blocks answered without an error are what the server sent, although bytes of replies that never complete may come in wherever something is owed |
| SessionHeard.CompletedAnswered | S5bd/src/s5session.c:385-400 | where finished means answered, every LBA of an I/O that was called back was answered |
| SessionReads.CleanReads | S5bd/src/s5session.c:367-408 | in every run that sends nothing again that was answered in part, a read of any size none of whose replies had an error has all its data when it is called back |
| SessionReads.AllReadsRightIff | S5bd/src/s5session.c:367-408 | reads none of whose replies had an error have all their data in every run if and only if rge_io_max_lbas is one |
| SessionHeard.GeneratedApart | S5bd/src/s5session.c:300-326 | different sub-I/Os of an I/O share no LBA |
| SessionHeard.StepHeard | S5bd/src/s5session.c:108-457 | as long as nothing of an I/O is sent again that was answered in part, what the server owes of each of its sub-I/Os is exactly what was not answered |
| SessionHeard.CalledBackHeard | S5bd/src/s5session.c:385-400 | every LBA of such an I/O was answered when it is called back |
| SessionHeard.SmallRunIsClean | S5bd/src/s5session.c:367-408 | sub-I/Os of one LBA are never answered in part, in any run |
| SessionReads.RunUntouched | S5bd/src/s5session.c:491-503 | in every run the blocks that belong to no sub-I/O cut so far are as the user left them |
| SessionReads.GoodRead | S5bd/src/s5session.c:380-400 | a read that is one sub-I/O, called back with status OK in a run that is clean for it, has all its data |
| SessionReads.CleanReadsRightIff | S5bd/src/s5session.c:380-400 | a read of n LBAs called back with status OK has all its data in every clean run if and only if n is at most rge_io_max_lbas |
| SessionReads.Unread | S5bd/src/s5session.c:380-400 | a read of two LBAs or more, in one sub-I/O, that is called back with status OK although its second LBA was never answered |
| SessionReads.ReadsRightIff | S5bd/src/s5session.c:367-408 | a read of n LBAs called back with status OK has all its data in every run if and only if n is at most one |
| SessionStatus.StatusOfSmallIo | S5bd/src/s5session.c:380-400 | an I/O called back with an error had one; one that is a single sub-I/O reports an error if and only if there was one |
| SessionStatus.ErrorSticks | S5bd/src/s5session.c:396-399 | a status that is not OK is never changed again, nor is one that the message already had when pushed |
| SessionStatus.StatusLost | S5bd/src/s5session.c:380-400 | an I/O of several sub-I/Os can be called back as OK although the first of them failed and its data never came, without anything being sent again |
| SessionStatus.StatusIff | S5bd/src/s5session.c:380-400 | the status is right in every run if and only if the I/O is a single sub-I/O |
| SessionErrors.CalledBackWith | S5bd/src/s5session.c:380-400 | in every run an I/O pushed with an error is called back with that one, and any other with the first error among the replies to the sub-I/O that was answered last, or with OK if there was none |
| SessionErrors.NeverMadeUp | S5bd/src/s5session.c:380-400 | an error that an I/O is called back with was pushed with it or came in one of its replies |
| SessionErrors.SmallIoTold | S5bd/src/s5session.c:380-400 | an I/O that is one sub-I/O, pushed without an error, is called back with the first error that any of its replies carried |
| SessionErrors.StepTold | S5bd/src/s5session.c:367-408 | every step keeps this: each sub-I/O under way has the first error of its replies |
| TransactionId.GetCounter | S5bd/src/s5session.c:573-585 | returns the counter and counts on modulo 2^14 |
| TransactionId.SlotAndIoKept | S5bd/src/s5session.c:767-782 | both ways of making an id keep the ten bits of the slot and the eight of the I/O |
| TransactionId.FieldsApart | S5bd/src/s5session.c:780-782 | as a number an id is its slot times 2^22 and its lower bits, as far as 32 bits go |
| TransactionId.ReadFromId | S5bd/src/s5session.c:50-50 | the signed shift reads ten bits of the slot, the highest of them as the sign |
| TransactionId.ReadsBackIff | S5bd/src/s5session.c:50-50 | the ids of a slot lead back to it if and only if it is below 512 |
| TransactionId.Slot512 | S5bd/src/s5session.c:238-246 | slot 512 is read as -512, and slot 1024 as 0 |
| SessionSlots.RunWithin | S5bd/src/s5session.c:254-342 | in every run there are never more sub-I/Os under way than slots |
| SessionSlots.SlotsInUse | S5bd/src/s5session.c:775-791 | any number of slots, up to all of them, can be in use at once |
| SessionSlots.SlotsFoundIff | S5bd/src/s5session.c:587-606 | replies and time-outs find the slot they are for in every run if and only if there are at most 512 slots |
| SessionSlots.PoolSufficesIff | S5bd/src/s5session.c:1141-1153 | the pool of sub-I/Os is never exhausted in any run if and only if it has an entry for each slot |
| TransactionId.SentAgainIsNew | S5bd/src/s5session.c:767-769 | after a time-out the id is new if and only if the counter is |
| TransactionId.IdsGrow | S5bd/src/s5session.c:780-782 | ids of one sub-I/O in one slot only gain bits |
| TransactionId.RetryRepeatsIff | S5bd/src/s5session.c:780-782 | the id after a retry is an earlier one if and only if the counter brings no bit that the last id lacks |
| TransactionId.ThirdIsSecond | S5bd/src/s5session.c:780-782 | counters 1, 2 and 3 of which the third repeats the second |
| SessionSending.StepSound | S5bd/src/s5session.c:675-792 | that the slot being sent is in use, and is not the one whose reply is half received, survives a step if and only if the step does not send that one again |
| SessionSending.RunSound | S5bd/src/s5session.c:587-792 | so it holds in every run without such a step |
| SessionSending.ReconnectIsFresh | S5bd/src/s5session.c:917-928 | after a reconnect nothing is being sent, nothing is half received and no slot is in use |
| SessionSending.CrossingFails | S5bd/src/s5session.c:675-773 | after any such step the rest of the reply can leave do_send without a sub-I/O |
| SessionSending.Crossing | S5bd/src/s5session.c:675-773 | sent, its reply begun, timed out, sent again in part, and then the rest of the reply: do_send finds nothing in the slot |
| SessionSending.AlwaysSafeIff | S5bd/src/s5session.c:587-792 | do_send finds a sub-I/O in the slot it is sending in every run if and only if none is sent again while the rest of a reply to it is still to come |
| SessionLists.IoLists.constructor | S5bd/src/s5session.c:1116-1117 | two empty lists and no cursor |
| SessionLists.IoLists.Push | S5bd/src/s5session.c:1327-1338 | a new entry stands last in the incoming list |
| SessionLists.IoLists.Take | S5bd/src/s5session.c:162-229 | the incoming list moves behind the queued one, entry by entry, and the cursor stands at its first entry |
| SessionLists.IoLists.Advance | S5bd/src/s5session.c:334-339 | the cursor goes to the next entry of the ring, or to none behind the last |
| SessionLists.IoLists.Complete | S5bd/src/s5session.c:347-365 | the entry of that I/O leaves its list, and the cursor stays where it is |
| Session.S5Session.constructor | S5bd/src/s5session.c:1126-1137 | a new session is the initial state |
| Session.S5Session.PushS5io | S5bd/src/s5session.c:1302-1342 | the fields and lists change as one push step |
| Session.S5Session.CutSubio | S5bd/src/s5session.c:287-341 | the next piece of the I/O under the cursor; the cursor moves behind it, along the list when the I/O is used up |
| Session.S5Session.GetNextSubio | S5bd/src/s5session.c:264-342 | retries first, then the next piece of the next I/O, or none exactly when there is none |
| Session.S5Session.SubmitNext | S5bd/src/s5session.c:775-791 | the fields change as one send step, or nothing happens exactly when none is possible |
| Session.S5Session.ResendTimedOut | S5bd/src/s5session.c:756-773 | the sub-I/O keeps its slot and its count, and the server owes all of its LBAs again |
| Session.S5Session.HandleReadWriteReply | S5bd/src/s5session.c:367-408 | the fields and lists change as one reply step, which says which LBAs were answered and with what status; `SessionErrors.CalledBackWith` says what becomes of the status |
| Session.S5Session.HandleDelayRetry | S5bd/src/s5session.c:420-430 | the sub-I/O moves from its slot to the retry queue |
| Session.S5Session.RetrySubmittedSubios | S5bd/src/s5session.c:108-130 | the fields change as one reconnect step, and every slot is empty, with or without the early return |
| DList.Rotate | common/src/pf_list.cpp:13-21 | a ring may be read from any of its entries on |
| DList.Head.Push | common/src/pf_list.cpp:52-66 | the entry stands first; refused if it is in a list |
| DList.Head.PushTail | common/src/pf_list.cpp:71-85 | the entry stands last; refused if it is in a list |
| DList.Head.Remove | common/src/pf_list.cpp:27-47 | exactly that entry leaves the list, from any place |
| DList.Head.Pop | common/src/pf_list.cpp:479-493 | takes the first entry, or none |
| DList.Head.PopTail | common/src/pf_list.cpp:495-507 | takes the last entry, or none |
| DList.Del | common/src/pf_list.cpp:403-413 | removes the entry from the list it is in, refused if in none |
| DList.AddAtSeam | common/src/pf_list.cpp:13-21 | linking between last and first makes a ring with the entry at either end |
| DList.Unlink | common/src/pf_list.cpp:40-41 | the rest is a ring again |
| DList.Rehome | S5bd/src/s5session.c:210-214 | the walk reaches every entry once and gives it the new head |
| DList.Splice | S5bd/src/s5session.c:162-229 | the list moves behind the other, counts add up, and every moved entry has the new head |
| Framing.Sender.PartsGoOn | S5bd/src/s5session.c:681-706 | the three parts offered are the rest of the frame after the bytes already sent |
| Framing.Sender.SendRest | S5bd/src/s5session.c:675-724 | a partial send goes on where the last one ended, and the message is done exactly when all of it is out |
| Framing.Sender.SendAll | S5bd/src/s5session.c:657-792 | the bytes taken are always the frames of the first messages and a beginning of the next, and all of them once bytes were taken often enough |
| Framing.StreamInjective | S5bd/src/s5session.c:587-650 | a stream can be read as messages in one way only |
| Framing.Receiver.RecvHead | S5bd/src/s5session.c:476-482 | bytes of the stream arrive in the head, behind those already there |
| Framing.Receiver.Scatter | S5bd/src/s5session.c:485-503 | bytes go to the rest of the data first and then to the tail |
| Framing.Receiver.RcvDiscard | S5bd/src/s5session.c:84-101 | drops the given number of bytes if and only if no call fails before they have come, and otherwise asks for a reconnect |
| Framing.Receiver.HeadComplete | S5bd/src/s5session.c:597-643 | the receiver stays in step with the stream if and only if the message matches or its discard ends well; data and tail of one that matches are next |
| Framing.Misread | S5bd/src/s5session.c:84-101 | after a discard that fails, of any message in any format, the rest of that message is taken for the next head |
| Framing.Signalled | S5bd/src/s5session.c:84-101 | a signal, or a socket that is empty for a moment, makes the discard of any message with data or a tail fail at once |
| Framing.CompletesIff | S5bd/src/s5session.c:84-101 | a discard ends well if and only if enough bytes have come before any call that fails |
| Framing.SkippedIs | S5bd/src/s5session.c:84-101 | a discard that fails has dropped the bytes that came until then, but no more than asked |
| Framing.Receiver.BodyComplete | S5bd/src/s5session.c:644-649 | the message dispatched is the next message of the stream, unchanged |
| Framing.Receiver.RcvWithErrorHandle | S5bd/src/s5session.c:468-542 | receives until the part is complete or nothing comes, keeping all bytes in place |
| Framing.Receiver.DoReceive | S5bd/src/s5session.c:587-655 | for every fragmentation the messages dispatched are those of the stream that match, in order, up to a discard that fails; all of them once all bytes came |
| ReceiveLoops.TerminatesIff | S5bd/src/s5session.c:468-542 | a receive loop ends if and only if there is no point from which on only empty answers come while bytes are left |
| ReceiveLoops.ShutDown | S5bd/src/s5session.c:84-101 | when the peer shuts down, a loop ends if and only if it has ended by then |
| ReceiveLoops.DiscardLeft | S5bd/src/s5session.c:84-101 | the discard loop has as many bytes behind it as the answers brought, at most 5000 a call, and ends when that is all |
| FixedSizeQueue.Ring.Enqueue | common/include/pf_fixed_size_queue.h:125-134 | appends, or EAGAIN exactly when full |
| FixedSizeQueue.Ring.Dequeue | common/include/pf_fixed_size_queue.h:148-156 | takes the oldest, or the logic error exactly when empty |
| FixedSizeQueue.Ring.Space | common/include/pf_fixed_size_queue.h:189 | capacity less the number of elements |
| FixedSizeQueue.Ring.Count | common/include/pf_fixed_size_queue.h:198 | the number of elements |
| EventQueueProtocol.StepSound | common/src/pf_event_queue.cpp:59-103 | every step keeps delivered, drained and current together equal to what was posted, and a wake-up on its way |
| EventQueueProtocol.ReachableSound | common/src/pf_event_queue.cpp:59-103 | that holds in every reachable state: nothing lost, doubled or reordered |
| EventQueueProtocol.NoLostWakeUp | common/src/pf_event_queue.cpp:59-103 | a waiting consumer with events queued and all producers done does not block |
| EventQueueProtocol.OneSignalPerPost | common/src/pf_event_queue.cpp:59-97 | in every run the eventfd is written once for each successful post, and in semaphore mode each read takes one of these |
| EventQueueProtocol.ExitIsLast | common/src/pf_event_thread.cpp:115-148 | the consumer is gone exactly when an exit event was delivered, and nothing is delivered after it |
| EventQueueProtocol.StepProgress | common/src/pf_event_thread.cpp:115-148 | every step but a post brings delivery closer |
| EventQueueProtocol.StuckIsDelivered | common/src/pf_event_thread.cpp:115-148 | such steps run out only when everything is delivered or the consumer has exited |
| EventQueue.PfEventQueue.constructor | common/src/pf_event_queue.cpp:14-43 | two empty rings are the initial state |
| EventQueue.PfEventQueue.PostLocked | common/src/pf_event_queue.cpp:59-76 | one post step, EAGAIN exactly when the ring is full |
| EventQueue.PfEventQueue.WriteEventFd | common/src/pf_event_queue.cpp:59-76 | one signal step |
| EventQueue.PfEventQueue.ReadEventFd | common/src/pf_event_queue.cpp:90-103 | takes one or the whole count, as the mode says; one read step |
| EventQueue.PfEventQueue.SwapRings | common/src/pf_event_queue.cpp:90-103 | hands out what was posted since the last swap |
| EventQueue.PfEventQueue.TakeNext | common/src/pf_event_thread.cpp:115-148 | delivers the oldest event of that ring |
| EventQueue.PfEventQueue.RingEmpty | common/src/pf_event_thread.cpp:115-148 | the inner loop ends exactly when that ring is empty, as one step |
| SingleEventProtocol.SemaphoreRunMatched | common/src/pf_event_queue.cpp:105-123 | in semaphore mode every queued event has a signal of its own on its way |
| SingleEventProtocol.NeverAsleep | common/src/pf_event_queue.cpp:105-123 | in semaphore mode, with all posts signalled, some consumer can go on as long as there is an event |
| SingleEventProtocol.SingleEventNeedsSemaphore | common/src/pf_event_queue.cpp:105-123 | get_event never misses or strands an event if and only if the eventfd is in semaphore mode |
| SnapshotOrder.InsertNotOlder | common/include/pf_lmt.h:75-104 | EEXIST exactly for a sequence already there, and otherwise the chain stays strictly descending |
| SnapshotOrder.InsertNewerOnly | pfs/src/pf_redolog.cpp:206-212 | with the strict comparison that holds if and only if the sequence is not already behind the head |
| SnapshotOrder.DuplicateInserted | pfs/src/pf_redolog.cpp:206-212 | a chain in which the strict comparison inserts a duplicate |
| SnapshotOrder.LookupIsLargest | common/src/pf_client_store.cpp:69-79 | the walk finds the largest sequence not above the requested one, or none exactly when there is none |
| SnapshotOrder.LookupAfterInsert | common/include/pf_lmt.h:75-104 | a new entry serves exactly the snapshots from its own sequence up to the next newer one |
| SnapshotChain.Insert | common/include/pf_lmt.h:75-104 | relinking in place inserts the entry at its position, or changes nothing and answers EEXIST |
| SnapshotChain.DeleteMatched | common/include/pf_lmt.h:105-141 | the chain is exactly the entries that do not match, in order, and each match is freed once |
| SnapshotChain.SelectDescending | common/include/pf_lmt.h:105-141 | deletion keeps the order |
| SnapshotChain.FindForRead | common/src/pf_client_store.cpp:69-79 | the entry with the largest sequence not above the requested one |
| SnapshotChain.DeleteObj | common/src/pf_client_store.cpp:298-311 | that entry leaves its chain and is freed once, an empty chain leaves the index, no other block changes |
| Utf8.DecodeEncoding | common/src/pf_utf8.cpp:38-110 | decoding undoes encoding on every code point up to 0x7fffffff except the surrogates, 0xfffe and 0xffff, which it rejects |
| Utf8.EncodingShape | common/src/pf_utf8.cpp:38-71 | exactly the first octet of a character is no continuation octet, and its leading ones count the octets |
| Utf8.HighBitsSet | common/src/pf_utf8.cpp:22-32 | the number of leading one bits |
| Utf8.EncodeUtf8 | common/src/pf_utf8.cpp:38-71 | the form of the code point, than which nothing shorter decodes to it, or -1 above 0x7fffffff |
| Utf8.EncodeMany | common/src/pf_utf8.cpp:59-68 | every octet of a form of several octets |
| Utf8.DecodeUtf8 | common/src/pf_utf8.cpp:77-110 | the code of the octets, or the invalid mark |
| Utf8.ReencodingIsCharacter | common/src/pf_utf8.cpp:112-161 | decoding and encoding again gives the same octets if and only if they are a shortest-form character |
| Utf8.NoShorterForm | common/src/pf_utf8.cpp:38-110 | no octets that decode to a code point are fewer than its encoding has |
| Utf8.OctetsOfCode | common/src/pf_utf8.cpp:77-110 | octets that decode are determined by the code and their number |
| Utf8.CharacterIsShortest | common/src/pf_utf8.cpp:112-161 | octets are a character if and only if they decode and nothing shorter decodes to the same code point |
| Utf8.ScansIsWellFormed | common/src/pf_utf8.cpp:112-161 | cutting at octets that are no continuation finds the only way to read a text |
| Utf8.CheckUtf8 | common/src/pf_utf8.cpp:112-161 | zero if and only if the buffer is a concatenation of shortest-form characters (`CharacterIsShortest`), and otherwise a place where it breaks |
| Md5.UpdateTwice | common/src/pf_md5.c:23-52 | two updates are one update with both inputs |
| Md5.Streaming | common/src/pf_md5.c:23-52 | however an input is cut into updates, state, buffer and bit count end up the same |
| Md5.PaddedWhole | common/src/pf_md5.c:54-65 | the padded message is whole blocks, by the shortest padding that does it |
| Md5.PaddingRead | common/src/pf_md5.c:54-65 | the padding is one octet 0x80, zeros, and eight octets that read low octet first are the length in bits modulo 2^64 |
| Md5.LengthRead | common/src/pf_md5.c:61-63 | the eight octets of the length field, low octet first, are the count |
| Md5.InitialOctets | common/src/pf_md5.c:13-21 | the initial words are the octets that RFC 1321 lists |
| Md5.PaddedUpdates | common/src/pf_md5.c:54-65 | the two updates of finalisation give the digest words of the padded message |
| Md5.LoopStopsIff | common/src/pf_md5.c:42-43 | the block loop stops at the end of the input if and only if that end is more than 64 below 2^32 |
| Md5.LoopOverruns | common/src/pf_md5.c:42-43 | an input on which it does not |
| Md5.CompressBlocks | common/src/pf_md5.c:42-43 | compresses every whole block of the input and stops behind the last |
| Md5.Md5Encode | common/src/pf_md5.c:67-81 | each word as four octets, low octet first: read that way they are the word again |
| Md5.Md5Decode | common/src/pf_md5.c:83-98 | every word is the first of its four octets, because of a cast |
| Md5.DecodeUndoesEncodeIff | common/src/pf_md5.c:67-98 | decoding undoes encoding if and only if every word is below 256 |
| Md5.DecodeLosesOctets | common/src/pf_md5.c:83-98 | the word 256 is read back as 0 |
| Md5.Md5Context.constructor | common/src/pf_md5.c:13-21 | the initial state |
| Md5.Md5Context.Update | common/src/pf_md5.c:23-52 | the context is that of the old one with the input absorbed |
| Md5.Md5Context.Final | common/src/pf_md5.c:54-65 | the digest words of the whole message, whatever updates delivered it, as octets that read low octet first are those words |
| Md5.Md5Context.AddCount | common/src/pf_md5.c:29-35 | two 32-bit words count the bits modulo 2^64 |
| MemPool.Pool.constructor | common/include/pf_mempool.h:21-51 | every object is free, in index order |
| MemPool.Pool.Alloc | common/include/pf_mempool.h:53-62 | the object free for longest, or none exactly when none is free |
| MemPool.Pool.Free | common/include/pf_mempool.h:67-75 | last in line, refused exactly when the pool is full |
| MemPool.ClientAppCtx.WireAll | common/src/pf_client_api.cpp:552-575 | request i owns command and data descriptor i and carries id i modulo 2^16; request and reply pools end as they began |
| MemPool.ClientAppCtx.PickIocb | common/include/pf_client_priv.h:272-279 | the request of that id, unless its command has another sequence number; nothing if and only if it has |
| MemPool.ClientAppCtx.StaleIsNotPicked | common/include/pf_client_priv.h:272-279 | once the command of a request has moved on, a reply to an older one does not find it |
| MemPool.ClientAppCtx.EveryRequestPicksItself | common/include/pf_client_priv.h:272-279 | every request is found by its own id and sequence if and only if there are at most 65536 |
| MemPool.DoOpen | common/src/pf_client_api.cpp:593-598 | EINVAL exactly above a depth of 255; every request of a context that is opened is found by its own id |

## Left out

- Sockets, epoll, RDMA, libaio, SPDK, ZooKeeper and JSON: foreign calls. The volume is a byte sequence, the network a byte stream.
- Files larger than their volume, negative offsets and lengths, and a head write torn inside its block.
- The `io_throttle` semaphore, which the files of a context share: it delays requests, and a token that a refused submission has taken from it is lost to all of them, as that of the file's own semaphore is.
- Aof.PfAof.Sync: writes to the volume are accepted and succeed; what becomes of a sync otherwise is the subject of `AofFaults` and `AofSync.ReturnsIff`.
- Aof.PfAof.Read: requests are accepted and succeed; `AofLeaves` is about those that are not accepted, and the same `io_cbk` would not tell of those that fail.
- Aof.PfAof.Open: a head whose length runs past the volume is a precondition; the source does not look.
- Aof.PfAof.Append: asks that the volume has room, which the source reports in sync without stopping.
- Aof.PfAof.constructor: asks for a buffer size that is a positive multiple of 4096, as `aligned_alloc` does.
- AofCache.CacheLine.Pread: other threads fetch into the line finitely often during one call, and hold no lock for ever; hit statistics are not modelled.
- AofCache.AofWindowCache.Pread: for a file that is not appended to meanwhile; `LineAfterAppend` says when lines survive appends.
- BitArray.Bits.Set: asks that the interval ends inside the array; the source only asserts that its beginning and its length each fit.
- BitArray.Bits.Collides: the same.
- BitArray.Bits.Reset: the same.
- BlockNode.Block.ProcessTask: asks for a request of one LBA or more; `Splitting.Split` says which requests of a user become such.
- Splitting.ReserveIff: requests of whole LBAs whose end does not overflow 64 bits.
- Admission.IdsSufficeIff: volumes of whole LBAs.
- IdGenerator.IdManager.AllocId: each call is one step; interleavings of its compare-and-swap loop with other calls are not modelled.
- Admission.AdmittedAlwaysGetsId: volumes with one replica; the counting of replies over replicas is not modelled.
- Session.S5Session.ResendTimedOut: the time-out count, which asks for a reconnect the third time, is not modelled; a run of the code with it is one of the runs considered here. A reply to an earlier sending is taken to be discarded because its id is old. When that is so is the subject of `TransactionId`: after a time-out the counter is cleared and 16384 values apart, after a retry its old bits stay and the next id can be the same.
- Session.S5Session.constructor: the queue of free positions (`fsq`) is not part of this model; it is taken to be a FIFO queue with room for all of them.
- Session.S5Session.PushS5io: reads and writes only, with the lfds611 queues large enough; allocation failures are not modelled. `SessionSlots.PoolSufficesIff` says when the sub-I/O pool is.
- Session.S5Session.HandleReadWriteReply: which LBAs a reply answers is known to the model and not to the code, which counts them; the data of reads is the subject of `SessionReads`.
- SessionReads.RunRight: the server sends the same content for an LBA as often as it is asked.
- SessionSending.AlwaysSafeIff: the server answers a sending only when it has received all of it.
- Framing.Receiver.DoReceive: s5message.h is not part of this model, so the head and tail lengths and the place of data_len are parameters; an orderly shutdown by the peer is the subject of `ReceiveLoops`; broken connections are not modelled, nor is what the code makes of the stream between a failed discard and the reconnect.
- Framing.Sender.SendAll: the messages to send are given; which ones are chosen is the subject of `SessionProtocol`.
- EventQueue.PfEventQueue.WriteEventFd: an eventfd count does not overflow.
- SnapshotChain.Insert: a non-empty chain and an unlinked entry, as its callers have them; entry status, waiting I/O and the data copied on write are not modelled, nor is the call during recovery, whose comparison treats one sequence specially.
- Md5.CompressBlocks: lengths on which the loop stops, as `LoopStopsIff` says.
- Md5.Md5Context.Update: the same.
- Md5.Md5Context.Final: the compression function is a parameter; that MD5Transform computes the function of RFC 1321 is not claimed; it reads its blocks through MD5Decode.
- MemPool.ClientAppCtx.PickIocb: the id is one of a request that exists; life cycle, time-outs and resends of requests are not modelled.
- Utf8.CheckUtf8: the octet behind the buffer, which the source reads without using it, is not modelled.
- `libs5bd.c`, `s5_context.c`, option parsing, configuration, logging and statistics: they would only add easy members.
