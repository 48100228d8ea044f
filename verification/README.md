# Proofs about the CRC engine, the cache channel, the download client and the file server

This project models five parts of the repository in Dafny and proves what they promise, over every input or every
interleaving of their threads. `dafny verify dfyconfig.toml` checks all of it.

**CRC and file checksum** (`Words`, `Gf2Poly`, `Lfsr`, `Crc`, `CrcTable`, `CrcTheorems`, `MachineWords`, `Crc32`,
`FileChecksum`). An integer of the source is a sequence of bits, lowest first, of the size of its type, so truncation
and shifted-out bits are explicit. The six remainder loops (bit by bit and by table, each reflected, of width 8 and
more, and narrower) are methods with the loops of the source. Each is proved against one reference register, fed bit by
bit, and that register against division of polynomials over GF(2): the remainder is stated by `a = q * g + r` with `r`
shorter than `g`, and shown to be unique. So the fast form refines the slow form and both compute the standard's
remainder, for every width, type size, polynomial, initial value and final XOR. CRC-32 is the instance of section 8 of
RFC 1952 and section 8.1.1.6.2 of ITU-T V.42; `Crc32` proves it equal to the computation in 32-bit words which that
section gives (without its table), for every input. On top stands `dfs_file_checksum` with its reused buffer. Its last
round hashes a full buffer again, so that the checksum covers the file and then bytes the last short read left behind.

**Cache channel** (`ChannelSession`, `CacheChannel`, `ChannelTheorems`, `ChannelProgress`). Any number of proxy threads,
cache workers and segments, a bounded message queue, the pool semaphore and two semaphores a segment. One step is one
semaphore operation, one queue operation or one access to the shared message. `ChannelSession` holds the counting
argument for one request, `CacheChannel` the invariant of the whole channel, and the other two what follows from it:
what arrives, who may touch a segment, and that the channel cannot deadlock and uses up its work.

**Download client** (`BossWorker`, `BossWorkerTheorems`, `BossWorkerProgress`, `StequeModel`). The boss, the workers, the
mutex, the condition variable with signal, broadcast and spurious wake-ups, and the item "Done". The steque below it is
a class over linked nodes.

**File server** (`DfsServer`, `DfsHandlers`, `DfsLocking`, `DfsFiles`, `DfsAlone`, `DfsBuffers`, `CallData`). The write lock
as the server's methods use it one call at a time, and the same calls interleaved: `DfsHandlers` is the transition
system, with the directory, the files behind it and the buffer of each open stream, which its destructor empties only
after ReleaseLock. `DfsLocking` says when the lock keeps clients apart, `DfsFiles` what a Store leaves in its file,
`DfsAlone` that a handler left to itself does what the method does, and `DfsBuffers` what a buffer that outlives the lock
can spoil. `CallData` has the asynchronous call-data objects with their queue.

**GETFILE headers** (`CStrings`, `GetFile`, `GetFileServer`). `strtok` in place on an array, the two parsers built on it,
and the round trips between what one side prints and the other reads.

`Collections` holds what the modules share. In the transition systems the steps that matter for other threads are
separate; an auxiliary field (the place of a segment, the requests taken, the downloads made) records what happened and
is never looked at by a step.

## Where the code differs from what its text says

- The comment at grpc/part2/src/CRC.h:559 says that undoing and redoing a finalisation always gives the value back. It
  does exactly for values below 2^width (`UndoFinalizeFinalize`, `FinalizeUndoFinalize`).
- `dfs_file_checksum` covers the whole file exactly if the 32-bit chunk counter does not wrap (`ChecksumCoversFile`), and
  hashes bytes twice exactly if the buffer size does not divide the file size (`TailEmpty`, `HashedBytesAre`).
- The server takes a missing file for one with checksum 0, as every empty file and some others have: a file the server
  does not have is stored if and only if its checksum is not 0 (`MissingIsStored`, `EmptyLooksMissing`,
  `SomeFileLooksMissing`).
- `DeleteFile` leaves the client's write lock in place exactly if the file is missing or the call refuses to begin
  (`Client.Delete`), a Store leaves it in place exactly if its stream expires before the first message
  (`Client.Store`), and `StoreFile` releases the lock under the name in the last message, which is the first one's only
  because the client repeats it.
- The write lock keeps clients apart exactly if it is taken by named clients with no other call in its section for that
  file: otherwise some continuation in which everybody else does so lets two clients in at once (`TakingIsExact`,
  `SafeIffClean`).
- The lock does not cover the last writes of a Store. `outfile` is a local stream, so bytes it still buffers at
  grpc/part2/dfslib-servernode-p2.cpp:326 reach the file after ReleaseLock, and two Stores of two clients that both answer
  OK can leave a file that is neither's (`LateFlush`). A Store that answered OK leaves its own chunks, whatever clean
  calls follow, exactly if no lock is released while bytes are pending (`ReleaseIsExact`, `WholeIffFlushed`).
- The two remainder loops agree bit for bit on all inputs exactly if they are reflected or the type has no bits above
  those the loops work on; otherwise they agree under the mask only (`LoopsAgreeExactly`).
- The checksum misses a change that lies in the bytes hashed twice exactly if the register it leaves by itself comes back
  after a buffer of zeros (`TailChangeDetected`).
- A download is complete exactly if no request is named "Done" (`ExactlyOnce`, `OnlyDoneLeft`).
- The client's byte counter is an `int`: it receives everything however the body is cut up exactly if less than 4 GiB
  are missing after the first receive (`CompleteIffSmall`).

## Model

| member | source | states |
|---|---|---|
| `Crc.Reflect` | grpc/part2/src/CRC.h:518-530 | bit i of the result is bit numBits - 1 - i of the value, all others are 0, for any bit count |
| `Crc.ReflectTwice` | grpc/part2/src/CRC.h:518-530 | reflecting twice is the identity if and only if the value fits in the reflected bits |
| `Crc.Finalize` | grpc/part2/src/CRC.h:542-554 | the loop-based method computes the reflected, XORed and masked word |
| `Crc.UndoFinalize` | grpc/part2/src/CRC.h:574-588 | the loop-based method computes the masked, XORed and reflected word |
| `Crc.UndoFinalizeFinalize` | grpc/part2/src/CRC.h:556-588 | undoing a finalisation gives the remainder back if and only if it is below 2^width |
| `Crc.FinalizeUndoFinalize` | grpc/part2/src/CRC.h:556-588 | finalising what was undone gives the CRC back if and only if it is below 2^width |
| `Crc.RemainderReflected` | grpc/part2/src/CRC.h:617-639 | the reflected loop leaves the mirrored reference register fed with the bytes, lowest bit first |
| `Crc.RemainderWide` | grpc/part2/src/CRC.h:640-668 | the loop for width 8 and more leaves the reference register in its low bits, whatever the bits above the width hold |
| `Crc.RemainderNarrow` | grpc/part2/src/CRC.h:669-702 | the loop for widths below 8, shifted up and down around the loop, leaves the reference register |
| `Crc.CalculateRemainder` | grpc/part2/src/CRC.h:601-705 | all three bit-by-bit branches meet the one specification of a remainder |
| `Crc.StepsConsume` | grpc/part2/src/CRC.h:653-666 | n inner steps consume exactly n of the bits added at the top of the register |
| `Crc.EightSteps` | grpc/part2/src/CRC.h:653-666 | the inner loop takes eight of those steps |
| `CrcTable.Table.MakeEntry` | grpc/part2/src/CRC.h:403-417 | the entry of a byte, masked and for narrow widths shifted up, is its register |
| `CrcTable.Table.InitTable` | grpc/part2/src/CRC.h:390-422 | every entry is the register of its byte, and the do-while over an 8-bit counter ends after 256 entries |
| `CrcTable.Table.constructor` | grpc/part2/src/CRC.h:390-422 | a new table is complete and belongs to its parameters |
| `CrcTable.Table.At` | grpc/part2/src/CRC.h:379-382 | indexing by a byte stays inside the 256 entries and gives that byte's register |
| `CrcTable.LookupRemainder` | grpc/part2/src/CRC.h:718-766 | all three table-driven branches meet the same specification of a remainder as the bit-by-bit ones |
| `CrcTable.LookupRemainderReflected` | grpc/part2/src/CRC.h:722-738 | the reflected table loop leaves the mirrored reference register |
| `CrcTable.LookupRemainderWide` | grpc/part2/src/CRC.h:739-748 | the table loop for width 8 and more leaves the reference register in its low bits |
| `CrcTable.LookupRemainderNarrow` | grpc/part2/src/CRC.h:749-763 | the table loop for widths below 8 leaves the reference register |
| `CrcTable.Calculate` | grpc/part2/src/CRC.h:434-441 | the one-shot CRC bit by bit is the finalised register of the data |
| `CrcTable.CalculateMore` | grpc/part2/src/CRC.h:454-463 | the continued CRC bit by bit is the register that the earlier CRC stands for, fed on |
| `CrcTable.CalculateByTable` | grpc/part2/src/CRC.h:475-484 | the one-shot CRC by table is the same value as bit by bit |
| `CrcTable.CalculateMoreByTable` | grpc/part2/src/CRC.h:498-509 | the continued CRC by table is the same value as bit by bit |
| `Lfsr.FeedIsRemainder` | grpc/part2/src/CRC.h:640-668 | the reference register is the remainder of start * x^n + message * x^W by x^W + polynomial over GF(2) |
| `Lfsr.FeedSplit` | grpc/part2/src/CRC.h:718-766 | the identity of table lookup: the bits shifted out and the input act through one table entry, the rest is shifted |
| `CrcTheorems.CrcIsRemainder` | grpc/part2/src/CRC.h:434-484 | a value is the CRC of a message if and only if its bits are those of the remainder of the augmented message by the generator, in the order of the output and XORed |
| `CrcTheorems.LoopIsRemainder` | grpc/part2/src/CRC.h:601-705 | both loops, continued from any remainder, leave the remainder of that division in their low width bits |
| `CrcTheorems.ReflectedLoop` | grpc/part2/src/CRC.h:617-639 | a reflected remainder below 2^width stays below it and mirrors the reference register |
| `CrcTheorems.LoopsAgree` | grpc/part2/src/CRC.h:601-766 | the two loops agree under the bit mask, and bit for bit if reflected or if the type has the width of the CRC |
| `CrcTheorems.LoopsAgreeExactly` | grpc/part2/src/CRC.h:601-766 | the two loops leave the same word on every input if and only if they are reflected or the type is as wide as the larger of width and 8; otherwise a zero start and one byte 1 tell them apart |
| `CrcTheorems.BitLoopIsRemainder` | grpc/part2/src/CRC.h:601-705 | the word of the bit-by-bit loop, bits above the width included, meets the specification of a remainder |
| `CrcTheorems.MultiPart` | grpc/part2/src/CRC.h:498-509 | continuing the CRC of a with b gives the CRC of a + b, for every reflection of input and output and every width |
| `CrcTheorems.MultiPartAfter` | grpc/part2/src/CRC.h:498-509 | the same from any earlier CRC |
| `CrcTheorems.AnySplit` | grpc/part2/src/CRC.h:498-509 | any cut of the data into any number of parts gives the one-pass CRC |
| `CrcTheorems.ReflectedLoopIsMirror` | grpc/part2/src/CRC.h:617-668 | the reflected loop is the mirror image of the non-reflected loop on mirrored bytes and a mirrored start |
| `CrcTheorems.BurstDetected` | grpc/part2/src/CRC.h:601-705 | with an odd polynomial, inputs of one length that differ only inside a window of the width have different CRCs |
| `CrcTheorems.EveryCrcReached` | grpc/part2/src/CRC.h:601-705 | with an odd polynomial and whole bytes of width, any data can be continued by as many bytes to get any CRC |
| `CrcTheorems.DoubledChange` | grpc/part2/src/CRC.h:601-705 | a change that occurs twice is missed if and only if the register it leaves by itself comes back over the distance in zeros |
| `CrcTheorems.Crc32DetectsFourBytes` | grpc/part2/src/CRC.h:617-638 | inputs of one length that differ only inside four consecutive bytes have different CRC-32 values |
| `Crc32.Crc32Constant` | grpc/part2/src/CRC.h:1553-1569 | the generator written out by its powers is the constant 0x04C11DB7, and mirrored the one of RFC 1952 |
| `Crc32.Crc32IsStandard` | grpc/part2/src/CRC.h:1553-1569 | the CRC-32 of any data is what section 8 of RFC 1952 computes in 32-bit words, which fixes the start, the final XOR and both reflections |
| `Crc32.CheckValue` | grpc/part2/src/CRC.h:1562-1562 | the CRC-32 of "123456789" is the check value 0xCBF43926 |
| `Crc32.Residue` | grpc/part2/src/CRC.h:1553-1569 | the CRC-32 of a message and four bytes behind it is 0x2144DF1C if and only if those are the bytes of the message's CRC |
| `FileChecksum.DfsFileChecksum` | grpc/part2/src/dfs-utils.h:38-96 | the method with its reused buffer computes the CRC-32 of the hashed bytes, or 0 for a missing or unopenable file, for every point at which a read fails |
| `FileChecksum.ChecksumLoop` | grpc/part2/src/dfs-utils.h:77-92 | the loop hashes exactly the chunks that are read and stops at the counter or the first failing read |
| `FileChecksum.HashChunk` | grpc/part2/src/dfs-utils.h:78-90 | one round continues the CRC over the buffer as the short read left it; the buffer is never used before it was filled |
| `FileChecksum.Read` | grpc/part2/src/dfs-utils.h:78-82 | a read fills the front of the buffer and leaves the rest as it was |
| `FileChecksum.SeedZero` | grpc/part2/src/dfs-utils.h:42-87 | the seed 0 acts as a fresh start |
| `FileChecksum.ChunkCountWraps` | grpc/part2/src/dfs-utils.h:68-69 | the 32-bit chunk count is the number of chunks if and only if that is below 2^32, and smaller otherwise |
| `FileChecksum.ChecksumCoversFile` | grpc/part2/src/dfs-utils.h:57-94 | a readable file's checksum is the CRC-32 of its bytes and then the tail, if and only if the chunk counter does not wrap |
| `FileChecksum.HashedBytesAre` | grpc/part2/src/dfs-utils.h:57-92 | which bytes are hashed, by the file alone: up to 4095 bytes of odd size, and above that with a size no multiple of 4096, a stated piece near the end is hashed twice |
| `FileChecksum.UnreadableChecksum` | grpc/part2/src/dfs-utils.h:48-85 | 0 for a file that is missing or does not open, and the CRC-32 of the whole buffers read for one whose reads fail |
| `FileChecksum.SizesThatFit` | grpc/part2/src/dfs-utils.h:55-69 | the chunk counter does not wrap if and only if the file has at most 2^32 - 1 buffers of 4096 bytes |
| `FileChecksum.TailEmpty` | grpc/part2/src/dfs-utils.h:78-87 | the tail is empty if and only if the buffer size divides the file size, and always shorter than the buffer |
| `FileChecksum.ShortChangeDetected` | grpc/part2/src/dfs-utils.h:77-94 | files of one size that differ only inside four bytes, outside what is hashed twice, have different checksums |
| `FileChecksum.TailChangeDetected` | grpc/part2/src/dfs-utils.h:77-94 | a change wholly inside the bytes hashed twice is missed if and only if the register it leaves by itself comes back after a buffer of zeros |
| `ChannelSession.ProxyKeeps` | ipc/cache/handle_with_cache.c:59-103 | every statement of the proxy keeps the session invariant with the worker at any statement |
| `ChannelSession.WorkerKeeps` | ipc/cache/simplecached.c:114-158 | every statement of the worker keeps it with the proxy at any statement |
| `ChannelSession.ChunkIsSafe` | ipc/cache/handle_with_cache.c:86-95 | while the proxy reads a chunk the worker is outside its write section and the chunk is the next one of the file |
| `ChannelSession.ReturnedAtRest` | ipc/cache/handle_with_cache.c:69-104 | a segment about to be enqueued has its semaphores at 0 and 1, no server, and the request is answered in full |
| `ChannelSession.SessionNeverStuck` | ipc/cache/simplecached.c:147-158 | the two sides of a segment never wait for each other at the same time |
| `ChannelSession.SessionBegins` | ipc/cache/handle_with_cache.c:21-59 | a segment at rest starts a session when it is popped, when its request is sent and when a worker receives it |
| `ChannelSession.ServedNeverStuck` | ipc/cache/handle_with_cache.c:59-103 | once the worker is done, nothing makes the proxy wait until it hands the segment back |
| `CacheChannel.CreatePool` | ipc/cache/webproxy.c:160-199 | the loop creates the segments with semaphores 0 and 1 and lists each id once |
| `CacheChannel.InitInv` | ipc/cache/webproxy.c:152-199 | the initial state satisfies the invariant, for any number of segments, proxies and workers |
| `CacheChannel.NextKeepsInv` | ipc/cache/handle_with_cache.c:14-106 | every step of every thread keeps the invariant of the channel |
| `ChannelTheorems.RunsAreSafe` | ipc/cache/handle_with_cache.c:9-106 | every state of every run satisfies the invariant |
| `ChannelTheorems.SentIsPrefix` | ipc/cache/handle_with_cache.c:85-96 | at every moment the bytes passed to `gfs_send` are a prefix of the requested file |
| `ChannelTheorems.Delivery` | ipc/cache/handle_with_cache.c:66-105 | when a request ends, the whole file was sent under its true length, or it was reported missing and it is missing |
| `ChannelTheorems.DeliveryOverRuns` | ipc/cache/handle_with_cache.c:59-105 | in every interleaving from the start of the program, both for the path the thread was asked for last |
| `ChannelTheorems.NoRace` | ipc/cache/simplecached.c:119-157 | no proxy thread reads or clears a part of a segment that any worker is about to write |
| `ChannelTheorems.StepsCommute` | ipc/cache/simplecached.c:114-158 | apart from semaphore operations, a statement of a proxy thread and one of any worker on its segment give the same result in both orders |
| `ChannelTheorems.ReadsNextChunk` | ipc/cache/handle_with_cache.c:86-90 | whenever a proxy thread copies, the segment holds the next chunk of its file whole |
| `ChannelTheorems.OneProxyOneWorker` | ipc/cache/handle_with_cache.c:21-22 | no two proxy threads hold a segment and no two workers serve it |
| `ChannelTheorems.ExactlyOnePlace` | ipc/cache/handle_with_cache.c:14-24 | a segment id is in the pool, once, if and only if no proxy thread holds it |
| `ChannelTheorems.HandedBack` | ipc/cache/handle_with_cache.c:69-104 | a segment in the pool has semaphores 0 and 1, no request under way and no worker that will still write to it |
| `ChannelTheorems.NoDeadlock` | ipc/cache/simplecached.c:74-165 | with one segment and one worker, while any request is unfinished some step other than a look at the empty pool is possible |
| `ChannelProgress.StepUsesWork` | ipc/cache/simplecached.c:74-165 | every step lowers the work left, except looks at the pool, which leave it and come to an end while the pool is not empty |
| `ChannelProgress.BeginAddsWork` | ipc/cache/handle_with_cache.c:9-14 | a new request adds 15 steps for each byte of its file and 24 more |
| `ChannelProgress.WorkIsBounded` | ipc/cache/handle_with_cache.c:9-106 | however the threads are scheduled, a run takes no more useful steps than its requests pay for |
| `ChannelProgress.NoWorkLeft` | ipc/cache/handle_with_cache.c:9-106 | when the work is used up, every request is finished |
| `StequeModel.Steque.constructor` | ipc/cache/steque.c:20-24 | a new steque is empty |
| `StequeModel.Steque.Enqueue` | ipc/cache/steque.c:26-40 | one new node at the back, all others kept in place |
| `StequeModel.Steque.Push` | ipc/cache/steque.c:42-54 | one new node in front, all others kept in place |
| `StequeModel.Steque.Size` | ipc/cache/steque.c:56-58 | N is the length |
| `StequeModel.Steque.IsEmpty` | ipc/cache/steque.c:60-62 | true if and only if there are no items |
| `StequeModel.Steque.Pop` | ipc/cache/steque.c:64-84 | the front item leaves, `back` is cleared with the last one, and an empty steque underflows unchanged |
| `StequeModel.Steque.Cycle` | ipc/cache/steque.c:86-94 | items and nodes rotate by one through the temporary ring, also for one item, and the list ends again |
| `StequeModel.Steque.Front` | ipc/cache/steque.c:96-104 | the front item, or an underflow if and only if empty |
| `StequeModel.Steque.Destroy` | ipc/cache/steque.c:106-109 | terminates with an empty list |
| `StequeModel.Steque.FrontLeadsThroughContents` | ipc/cache/steque.c:20-109 | following `next` from the front reads off the items and meets the end after exactly N nodes |
| `StequeModel.CycledAt` | ipc/cache/steque.c:86-94 | k cycles bring item k to the front, and as many cycles as there are items change nothing |
| `BossWorker.InitInv` | multithreading/mtgf/gfclient_download.c:229-235 | the start satisfies the invariant, for any requests and any number of workers |
| `BossWorker.NextKeepsInv` | multithreading/mtgf/gfclient_download.c:95-273 | every step of the boss and the workers, and every spurious wake-up, keeps the invariant |
| `BossWorker.QueueKept` | multithreading/mtgf/gfclient_download.c:105-127 | requests leave the queue in the order of the list and each "Done" stays in the queue or in one worker's hand |
| `BossWorker.WakeUpKept` | multithreading/mtgf/gfclient_download.c:105-127 | while a worker sleeps over a queue that is not empty, the boss is about to signal or a worker is awake |
| `BossWorker.DownloadsKept` | multithreading/mtgf/gfclient_download.c:110-170 | downloads made and requests in hand are together the requests taken |
| `BossWorkerTheorems.DoneIsLast` | multithreading/mtgf/gfclient_download.c:238-261 | taken and queued requests are what was enqueued so far, in order, and "Done" is in the queue once at most and last |
| `BossWorkerTheorems.NoSleepAfterDone` | multithreading/mtgf/gfclient_download.c:105-116 | once "Done" is enqueued no worker falls asleep again |
| `BossWorkerTheorems.AwakeUntilBroadcast` | multithreading/mtgf/gfclient_download.c:105-127 | from then on an awake worker stays awake until it broadcasts, and the broadcast leaves nobody asleep |
| `BossWorkerTheorems.SleeperIsRemembered` | multithreading/mtgf/gfclient_download.c:105-127 | whenever a worker sleeps, the boss will still signal or another worker is awake |
| `BossWorkerTheorems.ExactlyOnce` | multithreading/mtgf/gfclient_download.c:238-266 | after the joins every request was downloaded exactly once if and only if none is named "Done" |
| `BossWorkerTheorems.PathsAreDownloaded` | multithreading/mtgf/gfclient_download.c:105-127 | requests that begin with a slash are all taken in order and downloaded exactly once |
| `BossWorkerTheorems.OnlyDoneLeft` | multithreading/mtgf/gfclient_download.c:258-273 | before the destroy the queue holds just "Done" if and only if no request has that name |
| `BossWorkerTheorems.NoDeadlock` | multithreading/mtgf/gfclient_download.c:95-273 | until the queue is destroyed some thread can take a step that is not a spurious wake-up |
| `BossWorkerTheorems.ShutdownCompletes` | multithreading/mtgf/gfclient_download.c:258-273 | a state without such a step is the end: all workers gone and the queue destroyed |
| `BossWorkerProgress.StepUsesWork` | multithreading/mtgf/gfclient_download.c:95-273 | every step but a spurious wake-up lowers a lexicographic measure |
| `BossWorkerProgress.RunsAreBounded` | multithreading/mtgf/gfclient_download.c:95-273 | no schedule is longer than the measure of its first state and three steps for each spurious wake-up |
| `BossWorkerProgress.MaximalRunsFinish` | multithreading/mtgf/gfclient_download.c:229-273 | every maximal run joins all workers and has downloaded every request once if and only if none is named "Done" |
| `DfsServer.Server.CheckLock` | grpc/part2/dfslib-servernode-p2.cpp:270-284 | the lock is granted if and only if it is free or the client's own, and no other file's lock changes |
| `DfsServer.Server.ReleaseLock` | grpc/part2/dfslib-servernode-p2.cpp:286-288 | the lock is free and no other changes |
| `DfsServer.Server.WriteLock` | grpc/part2/dfslib-servernode-p2.cpp:256-267 | the call answers and locks as CheckLock, unless cancelled |
| `DfsServer.Server.StoreFile` | grpc/part2/dfslib-servernode-p2.cpp:291-328 | which answer is given when, that the file becomes the concatenation of all messages or stays, and who owns each lock afterwards |
| `DfsServer.Server.WriteChunks` | grpc/part2/dfslib-servernode-p2.cpp:316-325 | the write loop leaves the file as the concatenation of the stream and the last message in the variable |
| `DfsServer.Server.DeleteFile` | grpc/part2/dfslib-servernode-p2.cpp:362-384 | the file is removed under the lock and the lock released, or nothing changes; a missing file leaves the lock as it is |
| `DfsServer.Client.RequestWriteAccess` | grpc/part2/dfslib-clientnode-p2.cpp:66-106 | the client gets the lock if and only if it is free or its own and the call began in time; one that expires afterwards leaves it with the client |
| `DfsServer.Client.Messages` | grpc/part2/dfslib-clientnode-p2.cpp:159-168 | the read loop cuts the file into full messages and one short one; any first k of them are the first k * 8192 bytes |
| `DfsServer.Client.Store` | grpc/part2/dfslib-clientnode-p2.cpp:109-183 | in time: exactly the local file is stored, or refused if and only if the checksums agree, and the lock is free; expired: nothing or a leading part is stored, and the lock stays if and only if no message arrived |
| `DfsServer.Client.Delete` | grpc/part2/dfslib-clientnode-p2.cpp:264-312 | a Delete that got the lock leaves it free if and only if it removed the file, in time or not |
| `DfsAlone.MissingIsStored` | grpc/part2/dfslib-servernode-p2.cpp:302-328 | a file the server does not have, with the lock granted and the open succeeding, is stored if and only if its checksum is not 0 |
| `DfsServer.EmptyLooksMissing` | grpc/part2/dfslib-servernode-p2.cpp:309-313 | an empty file and a missing one have the same checksum, 0 |
| `DfsServer.SomeFileLooksMissing` | grpc/part2/dfslib-servernode-p2.cpp:309-313 | there are four bytes with checksum 0 |
| `DfsServer.ShortChangeIsStored` | grpc/part2/dfslib-servernode-p2.cpp:309-313 | a file changed only inside four bytes outside the tail is not taken for a repeat |
| `DfsLocking.StepKeepsLock` | grpc/part2/dfslib-servernode-p2.cpp:256-384 | every step keeps at most one handler in its section for a file, under its own client's lock, if the lock is only taken cleanly |
| `DfsLocking.NeverTwoClients` | grpc/part2/dfslib-servernode-p2.cpp:270-328 | two handlers between CheckLock and ReleaseLock of one file never belong to different clients |
| `DfsLocking.AnonymousLetsIn` | grpc/part2/dfslib-servernode-p2.cpp:276-278 | a call without a client name leaves its section open to any client |
| `DfsLocking.SecondCallLetsIn` | grpc/part2/dfslib-servernode-p2.cpp:279-288 | a second call of the client in its section is still there when the first has released the lock to others |
| `DfsLocking.TakingIsExact` | grpc/part2/dfslib-servernode-p2.cpp:270-284 | a step that takes the lock is clean if and only if no continuation in which all others take it cleanly brings two clients into their sections for one file |
| `DfsLocking.SafeIffClean` | grpc/part2/dfslib-servernode-p2.cpp:270-328 | a run takes the lock only cleanly if and only if from none of its states such a continuation lets two clients in at once |
| `DfsLocking.SerialisedIsSafe` | grpc/part2/dfslib-clientnode-p2.cpp:424-468 | clients with names and one call at a time are kept apart in every interleaving |
| `DfsLocking.OwnerStays` | grpc/part2/dfslib-servernode-p2.cpp:256-288 | no step of another client's handler changes a granted lock |
| `DfsLocking.GrantedIsServed` | grpc/part2/dfslib-servernode-p2.cpp:256-305 | after WriteLock the client's own call is never refused, however many other calls come in between |
| `DfsLocking.SectionEnds` | grpc/part2/dfslib-servernode-p2.cpp:302-328 | a handler that passed CheckLock never waits and always ends by freeing the lock |
| `DfsLocking.TwoCallsOfOneClient` | grpc/part2/dfslib-servernode-p2.cpp:270-328 | with two calls of one client under way, two different clients can be in their sections for one file |
| `DfsFiles.StepKeepsFiles` | grpc/part2/dfslib-servernode-p2.cpp:316-384 | every step that does not release the lock over pending bytes keeps each open file, with its buffer, as what its handler was given, and touches no other file |
| `DfsFiles.Undisturbed` | grpc/part2/dfslib-servernode-p2.cpp:291-384 | with no pending bytes outside the lock, no step of another handler changes the lock or the file of one in its section |
| `DfsFiles.GrantedIsSpared` | grpc/part2/dfslib-servernode-p2.cpp:256-384 | nor those of a client that was granted the lock and has not called yet |
| `DfsFiles.StoreIsWhole` | grpc/part2/dfslib-servernode-p2.cpp:316-328 | at ReleaseLock the file is the concatenation of the Store's own chunks if and only if its stream has nothing pending, and the lock is free |
| `DfsAlone.StoreAlone` | grpc/part2/dfslib-servernode-p2.cpp:291-328 | the interleaved handler, run with nobody else moving and however its stream buffers, answers, writes and releases as the server's method does |
| `DfsAlone.DeleteAlone` | grpc/part2/dfslib-servernode-p2.cpp:362-384 | the same for a Delete, where a missing file leaves the lock as it was |
| `DfsAlone.LockAlone` | grpc/part2/dfslib-servernode-p2.cpp:256-284 | a WriteLock answers OK and makes the client the owner if and only if the lock was free or its own, and is refused without effect otherwise |
| `DfsAlone.CallRuns` | grpc/part2/dfslib-servernode-p2.cpp:256-384 | in every state any call can arrive and be run to its end alone, with that outcome, leaving all other calls as they were |
| `DfsHandlers.WriteAt` | grpc/part2/dfslib-servernode-p2.cpp:316-325 | a write at an offset replaces just the bytes it covers, and a hole before it reads as zeros |
| `DfsBuffers.LateFlush` | grpc/part2/dfslib-servernode-p2.cpp:316-328 | two serialised Stores of two named clients that both answer OK leave the shorter content over the rest of the longer one |
| `DfsBuffers.ReleaseIsExact` | grpc/part2/dfslib-servernode-p2.cpp:316-328 | a Store releases the lock with nothing pending if and only if no continuation in which all others take the lock cleanly and write everything before releasing it makes a Store that answered OK lose its file |
| `DfsBuffers.WholeIffFlushed` | grpc/part2/dfslib-servernode-p2.cpp:270-328 | over a whole run with a cleanly taken lock, from no state such a continuation breaks the promise to a Store if and only if no lock is released over pending bytes |
| `DfsBuffers.SerialisedAndFlushedIsWhole` | grpc/part2/dfslib-servernode-p2.cpp:270-328 | with serialised clients and nothing pending at ReleaseLock, every Store that answered OK leaves its own chunks until another call opens or removes the file |
| `CallData.InitInv` | grpc/part2/src/dfslibx-service-runner.h:58-86 | the start satisfies the invariant, for any number of threads |
| `CallData.NextKeepsInv` | grpc/part2/src/dfslibx-call-data.h:87-124 | every step of the threads, the queue thread and gRPC keeps it, completion events that are not ok included |
| `CallData.OnceEach` | grpc/part2/src/dfslibx-call-data.h:87-124 | each object is queued, handed to gRPC, processed and finished at most once, in this order, and deleted only afterwards |
| `CallData.Located` | grpc/part2/src/dfslibx-call-data.h:87-124 | a live object is in a thread's hands, the queue, gRPC or the completion queue, or its event was not ok |
| `CallData.NeverAfterDelete` | grpc/part2/src/dfslibx-call-data.h:116-123 | nothing that will be used later refers to a deleted object |
| `CallData.OneOpenRequestPerThread` | grpc/part2/src/dfslibx-service-runner.h:58-86 | whenever all threads wait, as many objects are in state PROCESS as there are threads, each on its way to or from gRPC unless its event was not ok |
| `CallData.OpenRequestsSuffice` | grpc/part2/src/dfslibx-service-runner.h:58-86 | in every state after start-up at least one object for each thread is in state PROCESS, and at most two |
| `CallData.ThreadStartsUp` | grpc/part2/src/dfslibx-service-runner.h:58-64 | in every reachable state a starting thread can open a request of its own, which the queue thread hands over |
| `CallData.CallIsServed` | grpc/part2/src/dfslibx-call-data.h:87-124 | in every reachable state a waiting thread can serve a call: its object is processed, finished and deleted, another is queued for it, and nothing else changes |
| `CallData.EventIsLost` | grpc/part2/src/dfslibx-service-runner.h:79-82 | an event that is not ok leaves every object and thread as it was, and its object out of reach |
| `CallData.RequestQueue.RequestCallback` | grpc/part2/dfslib-servernode-p2.cpp:150-159 | the tag is appended to the queue |
| `CallData.RequestQueue.ProcessQueuedRequests` | grpc/part2/dfslib-servernode-p2.cpp:224-246 | one guarded round hands every queued tag over in order, once, and empties the queue |
| `CStrings.StrtokInPlace` | multithreading/gflib/gfserver.c:165-183 | the array, the token and the place to go on are those of `strtok` |
| `CStrings.TokenClean` | multithreading/gflib/gfserver.c:182-183 | a token is not empty and holds no delimiter |
| `GetFile.DecimalRoundTrip` | multithreading/gflib/gfclient.c:166-168 | the number that is printed is the number that is read |
| `GetFile.Handle.ReceiveHeader` | multithreading/gflib/gfclient.c:117-186 | the parser, cutting the buffer in place and restarting at the status, computes the parse of the bytes it was given |
| `GetFile.HeaderRoundTrip` | multithreading/gflib/gfserver.c:43-69 | every printed header, wholly in the first receive, is read back as its status and length, with the exact count of body bytes, for every body and every status and length known before |
| `GetFile.OkIsRead` | multithreading/gflib/gfclient.c:156-186 | an OK header gives the number its third word begins with, up to 2^64 - 1, unless a length is known, and the count of body bytes |
| `GetFile.RefusalIsRead` | multithreading/gflib/gfclient.c:117-155 | of all headers without a length, those of another scheme are invalid, three names set the status, and any other leaves it as it was |
| `GetFile.Handle.ReceiveBody` | multithreading/gflib/gfclient.c:110-203 | the later receives stop at the first point where the 32-bit counter is 0, and fail with 0 bytes if the connection closes before |
| `GetFile.CompleteIffSmall` | multithreading/gflib/gfclient.c:180-193 | every way of receiving the body is complete if and only if less than 2^32 bytes are missing after the first receive |
| `GetFileServer.Parse` | multithreading/gflib/gfserver.c:162-196 | the server's parser, cutting the header in place, computes the parse of the bytes it was given |
| `GetFileServer.AcceptedExactly` | multithreading/gflib/gfserver.c:162-196 | of all request lines of three words exactly those with GETFILE, GET and a path that begins with a slash are accepted, with that path |
| `GetFileServer.AcceptedIsPath` | multithreading/gflib/gfserver.c:182-195 | whatever arrives, a path that reaches the handler starts with a slash and holds no line end |
| `GetFileServer.FindBlankLine` | multithreading/gflib/gfserver.c:149-149 | true if and only if the text in the buffer holds a blank line |
| `GetFileServer.CopyString` | multithreading/gflib/gfserver.c:151-153 | a fragment lands behind what was received and the rest of the buffer stays zero |
| `GetFileServer.RequestRoundTrip` | multithreading/gflib/gfclient.c:101-102 | a request as the client prints it is accepted with its path |
| `GetFileServer.ServeFirst` | multithreading/gflib/gfserver.c:149-196 | however the first request is cut into fragments, the loop takes them all, ends, and hands the client's path to the handler |

## Left out

- NextKeepsInv: in the cache channel the enqueues at ipc/cache/handle_with_cache.c:74 and 104 are single steps, although the code makes them without the pool semaphore; files do not change while they are served, are below 2^31 bytes, and `pread` reads 824 bytes or up to the end without error.
- NoDeadlock: in the cache channel the fairness of the scheduler is not modelled; what is proved is that a useful step exists and that useful steps are bounded.
- DfsFileChecksum: one snapshot of the file is read; a file that changes meanwhile is not modelled.
- StoreFile: the `size` of a message is the length of its content, as the client sets it. The method is one undisturbed call, where the buffer of the stream makes no difference.
- SerialisedIsSafe: `ReleaseLock` writes the map without the mutex and is taken as one step; a call does not outlive its deadline at the client.
- Store: reads of the local file do not fail, and the file does not change between its checksum and its reads. A deadline is modelled by when it meets the server.
- CreatePool: the message queue is taken as empty at the start; `/message_channel` is not unlinked at ipc/cache/webproxy.c:152-199, so that an aborted run may leave requests in it.
- NextKeepsInv: in the download client the calls of the threads library succeed, paths fit their buffers (a longer one ends the program) and every download returns.
- Pop: an underflow, which ends the program, is an answer of its own here; the count is unbounded, and freed memory is only unreachable. The same holds for Front.
- ReceiveHeader: bytes are characters, a buffer without a zero ends where the array ends, and a length field with blanks or a sign in front of its digits is read as no number. The first receive brings at least one byte.
- ReceiveBody: overflow of the signed counter wraps around. The body bytes of the first buffer are not claimed: the last `strtok` edits them.
- ServeFirst: the first request only, from a client that sends one request and then waits; the header buffer is not reset for later connections.
- The threads of the channel, of the download client and of the asynchronous calls are transition systems on values, one case a statement; locals that no other step depends on are set together with the statement before them. The queue operations they use on sequences are proved in place for the linked list in `StequeModel`.
- The branchless form of the CRC loops, which computes the same steps by a multiplication.
- The parameter tables of the other CRCs: constants; the proofs hold for all parameters and are instantiated for CRC-32.
- The client's handling of the callback list: its branches do not follow their comments, so no convergence of client and server is claimed.
- The file server's listing, status and fetch calls, the cache's file table with its binary search, the multithreaded server, the simple echo and transfer programs, and all option parsing, logging, sockets, libcurl, gRPC transport, inotify and signals.
