# A verified model of the file storage server

The repository is a file storage server in C with a pool of workers, a bounded
store and eviction, and a client that plans its requests. This project models its
core in Dafny and proves what the design relies on. `dafny verify dfyconfig.toml`
checks all of it.

## What is modelled

**The server, one request at a time.**
`Slots.dfy` gives each operation of `file.c` as a function on a slot value: owner
used as a lock, a closed copy and a working copy, sizes, usage data; `Operations.dfy`
says exactly what each answers and leaves behind. `Table.dfy` is
the slot table with the name search, the two totals and the map from names to bytes
it stands for. `Eviction.dfy` holds the three victim searches and the eviction loop,
`Requests.dfy` the handlers. `FileSlot.dfy` and `Server.dfy` are the same as objects
that the operations update in place; every method is proved to end in the state and
to give the answer of its function. What is proved about the functions:
`EvictionProofs.dfy` (whom each algorithm evicts, what the eviction loop does and
exactly when it returns), `Refinement.dfy` (every request changes the map exactly as its
reply says), `Outcomes.dfy` (the requests about one file against a reference definition
on that file alone), `Ages.dfy` (FIFO evicts what was created first, over whole runs),
`Runs.dfy` (whole runs of any number of clients), `Connections.dfy` (who is
connected, and how many), `Guarantees.dfy` (locks, write tokens, disconnects, when an
append returns).

**The server, many workers.** `Interleaved.dfy` makes every `LOCK..UNLOCK` section of
the storing, evicting, creating, closing and removing paths one step of one of any
number of workers. `InterleavedProofs.dfy` proves that the totals are conserved, the
capacity bound, the high-water marks and the exclusiveness of evictions under every
schedule. `CapacityTight.dfy` proves that the bound is reached, `UniqueNames.dfy` that
names stay distinct exactly with one worker, `LostFile.dfy` that an eviction can lose an
empty file. `OneWorker.dfy` connects the two levels: every request, and every run, of the
server that takes one request at a time is a schedule of one worker in this one.
`Schedules.dfy` is what these are built with.

**The main loop and its workers.** `Handshake.dfy` has a step for every return of
poll, every critical section of a worker's mutex and every signal, SIGUSR1 being one
pending bit. `HandshakeProofs.dfy` proves that no connection is lost or held twice and
no completion is forgotten. `Dispatcher.dfy` holds the loops of the main thread.

**The client's planner.** `Planner.dfy` is the pass that inserts opens and closes,
`PlannerProofs.dfy` why its plans are right for every list of requests.

**Messages.** `Databuf.dfy` is the growable byte buffer, `Framing.dfy` how files travel
in it and come out again, `Messages.dfy` the checksum, the loops over short counts and
the header and body on the wire.

**Together.** `Composition.dfy` puts the plan on the server, says what every
acknowledgement means, and brings evicted and read files back to the client; `Witnesses.dfy` holds runs from start-up to the surprises below.

## Where the code does not keep what one would expect

- An append runs the eviction loop before anything else is checked. It comes back if
  and only if the extended file fits the capacity (`Guarantees.AppendReturnsExactly`;
  while the LFU counters are below INT_MAX); `Witnesses.AppendCanHang` is a run into a
  state where it never does.
- The configured capacity holds under every schedule exactly with one worker; with n
  workers n times the capacity is reached (`CapacityTight.CapacityRespectedExactly`).
- File names are distinct under every schedule exactly with one worker, because the
  search for a name and the creation are separate sections
  (`UniqueNames.NamesDistinctExactly`; `UniqueNames.SameNameTwice`).
- An eviction ships the file it removes if and only if that file is not empty
  (`InterleavedProofs.EvictionShipsWhatItRemoves`). The victim search passes empty files
  over, so one request at a time every eviction ships; but between search and claim the
  slot may come to hold another file, and then an acknowledged empty one can vanish
  without a trace (`LostFile.AcknowledgedFileLost`).
- A readN reply can be decoded if and only if it carries no file or the one pushed last
  is not empty (`Composition.ReadNDecodesExactly`): until a non-empty file came, the
  client's content buffer is NULL and the buffer refuses to pop into it.
  `Witnesses.ReadNReplyUndecodable` is a run with such a reply.
- readN makes its client the owner of a file if and only if it visits it open and
  unowned, whether or not anybody asked for a lock (`Refinement.ReadNSound`; the same run
  shows one).

## Conventions

Clock readings of `time(NULL)` are parameters: one for a creation, a sequence for the
turns of the eviction loop. A loop that has used them all without finishing is reported
as not returned (`StillFull`, `Spinning`); no statement puts a bound on the sequence.
Connection numbers are positive, different from 1024 and, while in use, not handed out
again, as the kernel's are on such a server; names of write tokens are not empty. The
wire's integers are little-endian. In the request-atomic model names are raw; slashes
become underscores where a name enters a frame.

## Model

| member | source | states |
|---|---|---|
| `Slots.QuietOperations` | src/source/file.c:198-305 | open, close, read, lock, unlock and an administrator's claim never change what a file holds, its name or its charged size; a successful read returns exactly the contents; every close reports a difference of 0 |
| `Slots.CloseQuiet` | src/source/file.c:229-264 | swapping the working copy in and clearing new_size leaves data_size + new_size and the visible bytes as they were, also for an empty working copy |
| `Slots.GrowingOperations` | src/source/file.c:315-359 | what a write or append that succeeds has stored, and by how much the charged size has grown; a refusal changes nothing (exactly when they succeed is in Operations.WriteExactly and AppendExactly) |
| `Slots.OwnerExcludesOthers` | src/source/file.c:198-404 | while somebody owns a file every operation of anybody else is refused and leaves the slot unchanged |
| `Operations.CreateExactly` | src/source/file.c:80-92 | a creation succeeds exactly on a free slot and leaves a closed empty file of that owner, created now, used once |
| `Operations.OpenExactly` | src/source/file.c:198-227 | an open succeeds exactly on a file nobody else has; afterwards it is the opener's, what was visible is the working copy, one more use is counted, and nothing else has changed |
| `Operations.CloseExactly` | src/source/file.c:229-264 | a close succeeds exactly on a file nobody else has; what was visible becomes the closed copy, an open file becomes nobody's, one more use is counted |
| `Operations.ReadExactly` | src/source/file.c:266-291 | a read succeeds exactly on an open file nobody else has, EPERM meaning it is closed; it changes nothing but the use count and bit |
| `Operations.WriteExactly` | src/source/file.c:315-335 | each of the six outcomes of a write with its exact condition, and every field of the slot afterwards |
| `Operations.AppendExactly` | src/source/file.c:337-359 | an append succeeds exactly for a non-empty payload on an open file nobody else has, whatever it holds already, and puts the payload behind that; every other outcome with its exact condition |
| `Operations.LockExactly` | src/source/file.c:361-375 | a lock succeeds exactly on an open file nobody else has and changes the owner, the use count and the bit |
| `Operations.UnlockExactly` | src/source/file.c:377-391 | an unlock succeeds exactly for the owner of an open file |
| `Operations.RemoveExactly` | src/source/file.c:393-404 | a removal succeeds exactly for the owner, frees the slot and returns the number of bytes that were visible |
| `Operations.ClaimExactly` | src/source/file.c:293-305 | a claim succeeds exactly on an existing file the administrator does not have yet and changes the owner alone |
| `FileSlots.FileSlot.constructor` | src/source/file.c:26-47 | a new slot object is the free slot |
| `FileSlots.FileSlot.Reset` | src/source/file.c:59-78 | whatever the slot was, it is the free slot afterwards |
| `FileSlots.FileSlot.Create` | src/source/file.c:80-92 | fills a free slot only; EEXIST for an occupied one, EINVAL for a bad owner, nothing changed in either case |
| `FileSlots.FileSlot.Open` | src/source/file.c:198-227 | decodes a working copy if there is none, takes ownership, refuses a file somebody else owns; the new slot value and the error are those of the specification the properties are about |
| `FileSlots.FileSlot.Close` | src/source/file.c:229-264 | moves a non-empty working copy into data through the codec, drops ownership, computes the size difference from the old and the encoded size; new slot value, error and difference as specified |
| `FileSlots.FileSlot.Read` | src/source/file.c:266-291 | the working copy's bytes, or ENOENT, EAGAIN, EPERM in the source's order |
| `FileSlots.FileSlot.Write` | src/source/file.c:315-335 | only on an empty open file of the writer; six different outcomes in the source's order |
| `FileSlots.FileSlot.Append` | src/source/file.c:337-359 | extends working copy, open_size and new_size together |
| `FileSlots.FileSlot.Lock` | src/source/file.c:361-375 | takes an open file that is free or already one's own |
| `FileSlots.FileSlot.Unlock` | src/source/file.c:377-391 | frees an open file of one's own |
| `FileSlots.FileSlot.Remove` | src/source/file.c:393-404 | resets the slot and returns the size the accounting has to give back |
| `FileSlots.FileSlot.ForceOpen` | src/source/file.c:293-305 | claims the slot for the administrator whoever owns it, unless it is free or claimed already, then opens it |
| `FileSlots.FileSlot.UpdateUsed` | src/source/file.c:188-196 | changes the reference bit of an existing file only |
| `FileSlots.Clone` | src/source/server/server_compression.c:21-56 | the codec's output is its input |
| `Table.FindFrom` | src/source/worker/worker_generics.c:9-23 | the first existing slot with the name, or None exactly if there is no such slot |
| `Table.FreeFrom` | src/source/worker/worker_generics.c:25-34 | the first slot without a file, or None exactly if all are taken |
| `Table.ContentUpdate` | src/source/file.c:315-359 | new contents under an existing name change the name-to-bytes map at that name alone |
| `Table.RemovalUpdate` | src/source/file.c:393-411 | freeing a slot takes exactly its name out of the map |
| `Table.CreationUpdate` | src/source/worker/worker_openfile.c:59-98 | filling a free slot under an unused name adds exactly that name to the map and keeps names distinct |
| `Table.TotalsUpdate` | src/source/worker/worker_removefile.c:38-46 | replacing one slot changes the two totals by exactly the difference of that slot |
| `Eviction.PickFromLeast` | src/source/worker/worker_cache_miss.c:79-139 | the scan FIFO and LFU share selects the lowest-index eligible file of minimum key strictly below the limit, and nothing exactly if there is none; which field the key is, FifoEvictsOldest and LfuEvictsLeastUsed say |
| `Eviction.SweepClosedForm` | src/source/worker/worker_cache_miss.c:141-185 | one call of evict_LRU selects the first eligible file with a clear bit in clock order and clears exactly the bits of the eligible files passed before it |
| `Eviction.TwoSweepsEvict` | src/source/worker/worker_cache_miss.c:160-185 | two calls in a row evict whenever an eligible file exists |
| `Eviction.BoundedSweepRefinesUnbounded` | src/source/worker/worker_cache_miss.c:166-173 | as far as victim and reference bits go, two bounded sweeps in a row equal an unbounded sweep of any length that finds somebody |
| `Eviction.UnboundedSweepStops` | src/source/worker/worker_cache_miss.c:141-185 | the unbounded sweep stops if and only if an eligible file exists |
| `EvictionProofs.VictimSound` | src/source/worker/worker_cache_miss.c:79-224 | under every algorithm the victim is eligible, and the search changes nothing but reference bits |
| `EvictionProofs.FifoEvictsOldest` | src/source/worker/worker_cache_miss.c:101-139 | one cache miss under FIFO removes and ships the eligible file of least creation time, the first in the table among equals, created strictly before now; it ships nobody exactly if no eligible file was created before now |
| `EvictionProofs.LfuEvictsLeastUsed` | src/source/worker/worker_cache_miss.c:187-224 | one cache miss under LFU removes and ships the eligible file of least use count, the first in the table among equals, below INT_MAX; it ships nobody exactly if all counts have reached INT_MAX |
| `EvictionProofs.ClockRefinesUnbounded` | src/source/worker/worker_cache_miss.c:141-185 | under LRU one cache miss, or two when the first ships nobody, ends in exactly the state of an unbounded second-chance sweep from the clock position followed by the eviction: victim, reference bits, totals, and lru_clock_pos where the hand of that sweep came to rest |
| `EvictionProofs.ClockStops` | src/source/worker/worker_cache_miss.c:141-185 | two cache misses in a row under LRU ship a file if and only if an eligible one exists |
| `EvictionProofs.CacheMissEffect` | src/source/worker/worker_cache_miss.c:11-77 | one cache miss removes nobody, or exactly one eligible file, ships it whole, and lowers the totals by exactly that file |
| `EvictionProofs.SurvivorsFiles` | src/source/worker/worker_write.c:186-212 | after any number of evictions a name is gone from the map exactly if its file was shipped; the requester's own file never is |
| `EvictionProofs.EvictLoopProgress` | src/source/worker/worker_write.c:186-212 | at every turn of the loop, finished or not: only eligible files left, each shipped once and whole, the rest is untouched, totals are exact, and the last eviction was still needed |
| `EvictionProofs.EvictLoopCorrect` | src/source/worker/worker_write.c:186-212 | the same for the loop as a whole, and it has returned exactly if the payload fits |
| `EvictionProofs.TurnHelps` | src/source/worker/worker_cache_miss.c:101-224 | the termination measure: evictable files plus set reference bits strictly decreases at every turn of a loop that can succeed (FIFO: with a clock past every creation) |
| `EvictionProofs.EvictLoopReturns` | src/source/worker/worker_write.c:186-212 | if the bytes that cannot be evicted leave room for the payload, the loop returns within a number of useful turns bounded by the measure |
| `EvictionProofs.EvictLoopSpins` | src/source/worker/worker_write.c:193-204 | if they do not, no number of turns makes it return |
| `EvictionProofs.EvictionReturnsExactly` | src/source/worker/worker_write.c:186-212 | do_cache_miss can return if and only if bytes that cannot be evicted plus payload are within the capacity, and then 2 * file_num turns with a late enough clock suffice |
| `Refinement.CreateSound` | src/source/worker/worker_openfile.c:54-128 | a creation succeeds exactly if the name is unused and a slot is free, and then fills the first free slot with an open empty file of the asked-for owner, created now; AlreadyExists and MaxFiles exactly otherwise, and then no slot changes |
| `Refinement.OpenSound` | src/source/worker/worker_openfile.c:130-174 | an open succeeds exactly on a file nobody owns or, with O_LOCK, on one's own; the file is then open, and owned exactly if O_LOCK was given; no file's contents and no slot of another client change |
| `Refinement.CloseSound` | src/source/worker/worker_closefile.c:21-73 | a close succeeds exactly on a file nobody else owns and leaves it closed and unowned; contents and totals stay |
| `Refinement.LockSound` | src/source/worker/worker_lock.c:22-75 | a lock succeeds exactly on an open file nobody else owns and makes the client its owner; contents and other slots stay |
| `Refinement.UnlockSound` | src/source/worker/worker_lock.c:77-128 | an unlock succeeds exactly for the owner and leaves the file open and unowned; contents and other slots stay |
| `Refinement.ReadSound` | src/source/worker/worker_read.c:21-80 | a read succeeds exactly on an open file nobody else owns and answers exactly the bytes stored under the name; any other read answers none; no file changes |
| `Refinement.ReadNClosedForm` | src/source/worker/worker_read.c:96-139 | the loop in closed form: the files answered, and every field of every slot afterwards, from the table before |
| `Refinement.ReadNSound` | src/source/worker/worker_read.c:82-156 | the answer is the first n files the client may read (all of them if n <= 0), whole and in slot order; a slot differs afterwards at most in its use count and bit and, if and only if it was visited, open and unowned, in its owner, who is the client then; open files stay open and closed ones closed |
| `Refinement.DisconnectSound` | src/source/worker/worker_connection.c:72-102 | a disconnect changes no file; exactly the client's own files end closed and unowned, with what was visible as their contents, and no other slot is touched |
| `Refinement.RemoveSound` | src/source/worker/worker_removefile.c:21-85 | a removal succeeds exactly for the owner, frees the slot, takes exactly that name out of the map and its size and count off the totals |
| `Refinement.StoreSound` | src/source/worker/worker_write.c:27-184 | a write or append evicts whole files other than its own, then stores the payload or changes nothing; the map changes exactly as the reply says and storage ends within the capacity |
| `Refinement.WriteSound` | src/source/worker/worker_write.c:27-110 | a write without the token, or for a file that is gone, changes nothing else; with it, the answer and the file's slot are exactly what the slot before and the payload demand, and map, totals, other clients' slots and shipped frames are as the reply says |
| `Refinement.AppendSound` | src/source/worker/worker_write.c:112-184 | an append of an acceptable payload that returns succeeds if and only if the file is open and nobody else's, whatever it holds, and the file then holds what it held followed by the payload; every other answer with its exact condition |
| `Refinement.StoreOutcome` | src/source/worker/worker_write.c:51-103 | what a write or append that returns has answered and made of its slot, field by field: too large a payload is dropped without a flag, an empty one is an error, and otherwise the slot decides |
| `Outcomes.AboutOneExactly` | src/source/worker/worker_lock.c:22-128 | every open, close, read, lock, unlock and removal is answered exactly as a reference definition on the file alone says (no such file, not the owner, not locked, not open, success), and leaves exactly that file and those totals changed |
| `Outcomes.HandleOneExactly` | src/source/worker.c:107-170 | the same through the dispatch, which forgets the client's last operation first |
| `Refinement.HandleSound` | src/source/worker.c:107-170 | every request of every client that returns: totals exact, storage within capacity, other clients' slots untouched except by whole-file eviction, map changed exactly as the reply says, every shipped frame a file as it was stored |
| `Runs.HandleClients` | src/source/worker/worker_openfile.c:29-128 | what each request does to the client table: only the sender's own last-operation name, set by a successful create-and-lock and cleared or kept as the handlers do |
| `Runs.TokenSurvives` | src/source/worker/worker_cache_miss.c:79-99 | no other client's request, and no eviction, touches a freshly created empty file |
| `Runs.HandleKeepsInv` | src/source/worker.c:107-170 | every request keeps the server invariant: coherent slots, distinct names, exact totals, capacity, closed files unowned, owners connected, write tokens sound |
| `Runs.DisconnectKeepsInv` | src/source/worker/worker_connection.c:72-102 | so does a disconnect |
| `Runs.ConnectKeepsInv` | src/source/worker/worker_connection.c:21-70 | so does a new connection, which is accepted exactly while fewer than the maximum are connected |
| `Runs.InitialInv` | src/source/shared_state.c:9-37 | the freshly initialised state satisfies the invariant |
| `Runs.RunInvariant` | src/source/worker.c:107-170 | the invariant holds at the end of every run of any clients |
| `Runs.RunRefinesHistory` | src/source/file.c:198-404 | over every run the bytes under a name are exactly what the replies add up to: empty at creation, extended by each successful write and append since, dropped only by a successful removal or a shipped eviction |
| `Ages.BringsNobody` | src/source/worker/worker_openfile.c:54-128 | no request but a successful creation fills a free slot, and no write or append ships the file it is for |
| `Ages.RunKnowsAges` | src/source/file.c:80-92 | over every run the creation time in a slot is the clock of the acknowledged creation its file goes back to |
| `Ages.FifoShipsFirstCreated` | src/source/worker/worker_cache_miss.c:101-139 | told from the replies of the run alone: what FIFO ships was acknowledged as created before now, and no file it might have taken was acknowledged as created earlier |
| `Connections.RunCountsConnections` | src/source/shared_state.c:48-102 | over every run the client table lists exactly the clients accepted and not hung up since, at most the maximum; current_conns is their number and max_reached_conns the largest it ever was |
| `Connections.EntryChanged` | src/source/shared_state.c:55-70 | changing one entry of the table changes the answer of the client search for that entry's old and new client only |
| `Guarantees.LockGives` | src/source/worker/worker_lock.c:22-40 | an acknowledged lock, or open with O_LOCK, makes the client the owner of the file |
| `Guarantees.AcknowledgedLockHolds` | src/source/worker/worker_lock.c:22-75 | after an acknowledged lock or open with O_LOCK the file stays the client's and unchanged over any stretch of others' events, until an eviction ships it whole |
| `Guarantees.LockExcludesStep` | src/source/file.c:198-404 | while d owns a file another client's request leaves its owner and bytes alone, unless eviction takes it and ships it whole |
| `Guarantees.LockExcludes` | src/source/file.c:198-404 | the same over any stretch of any run in which d does nothing |
| `Guarantees.LockExcludesReading` | src/source/worker/worker_read.c:21-156 | nor can another client read those bytes, by name or with readN |
| `Guarantees.TokenMeansFresh` | src/source/worker/worker_openfile.c:98-104 | whoever holds a non-empty write token owns a file of that name, open and empty |
| `Guarantees.TokenStep` | src/source/worker/worker_write.c:35-37 | no request of another client takes a write token away |
| `Guarantees.CreateLockGivesToken` | src/source/worker/worker_openfile.c:98-104 | an acknowledged create-and-lock hands out the token |
| `Guarantees.TokenWriteSucceeds` | src/source/worker/worker_write.c:27-110 | a write that passes the token gate with 0 < size <= capacity, whenever it returns, has stored exactly that content; it does return given enough turns of a late enough clock |
| `Guarantees.WriteSucceedsExactly` | src/source/worker/worker_write.c:27-110 | whenever a write returns it has succeeded if and only if the client held the token for the file and 0 < size <= capacity |
| `Guarantees.CreatedThenWritten` | src/source/worker/worker_write.c:35-37 | the token outlives any stretch of a run made of other clients' requests |
| `Guarantees.DisconnectReleases` | src/source/worker/worker_connection.c:72-102 | after a disconnect the client owns nothing, its table entry is gone, and every file is still there with the same bytes |
| `Guarantees.AppendReturnsExactly` | src/source/worker/worker_write.c:112-184 | an append of an acceptable payload can return if and only if the extended file fits the capacity, whether or not the client may append, since the loop runs before the permission check |
| `Servers.Server.constructor` | src/source/shared_state.c:9-37 | the server object starts in the initial state |
| `Servers.Server.GetFile` | src/source/worker/worker_generics.c:9-23 | the loop over the slot objects finds what the table search finds |
| `Servers.Server.GetEmptySlot` | src/source/worker/worker_generics.c:25-34 | the loop finds the first free slot |
| `Servers.Server.GetClient` | src/source/shared_state.c:104-121 | the loop finds the client's entry |
| `Servers.Server.LoopCheck` | src/source/worker/worker_cache_miss.c:79-99 | decides eligibility: existing, unclaimed, non-empty, not the requester's own |
| `Servers.Server.ScanLeast` | src/source/worker/worker_cache_miss.c:101-139 | the running-best loop of the FIFO and LFU scans computes the specified pick |
| `Servers.Server.ClockTurn` | src/source/worker/worker_cache_miss.c:141-158 | one turn of the clock: stops at an eligible file with a clear bit, clears the bit of any other eligible file |
| `Servers.Server.ScanClock` | src/source/worker/worker_cache_miss.c:160-173 | the LRU loop, clearing bits in place, leaves the specified bits and victim |
| `Servers.Server.DeleteEvicted` | src/source/worker/worker_cache_miss.c:55-77 | force open, read, name, remove and deduct: the slot is free, the frame is the whole file, the totals drop by exactly it |
| `Servers.Server.CacheMissOnce` | src/source/worker/worker_cache_miss.c:11-53 | dispatch on the algorithm and ship: new state and frame as specified |
| `Servers.Server.MakeRoom` | src/source/worker/worker_write.c:186-212 | the eviction loop over the objects is the specified loop, returning or not |
| `Servers.Server.FillSlot` | src/source/worker/worker_openfile.c:75-127 | create, count, open, set the token: new state and reply as specified |
| `Servers.Server.OpenCreated` | src/source/worker/worker_openfile.c:92-112 | what follows a successful creation: count, open, and the token exactly if O_LOCK was given |
| `Servers.Server.OpenFileCreate` | src/source/worker/worker_openfile.c:54-128 | all outcomes of a create: exists, table full, slot error, success |
| `Servers.Server.OpenFileOpen` | src/source/worker/worker_openfile.c:130-174 | all outcomes of an open |
| `Servers.Server.OpenFile` | src/source/worker/worker_openfile.c:29-52 | forget the token, then create or open |
| `Servers.Server.CloseFile` | src/source/worker/worker_closefile.c:21-73 | all outcomes of a close, totals corrected by the difference |
| `Servers.Server.ReadFile` | src/source/worker/worker_read.c:21-80 | all outcomes of a read |
| `Servers.Server.ReadNFiles` | src/source/worker/worker_read.c:82-156 | the loop over the slots: opens, reads, closes again what was closed, keeps what was open |
| `Servers.Server.StoreNow` | src/source/worker/worker_write.c:57-68 | reserve, raise the high-water mark, write or append, release on failure |
| `Servers.Server.StoreInto` | src/source/worker/worker_write.c:51-103 | size check, eviction, store, reply flags |
| `Servers.Server.WriteFile` | src/source/worker/worker_write.c:27-110 | token gate and consumption of the token, then the store |
| `Servers.Server.AppendFile` | src/source/worker/worker_write.c:112-184 | lookup, then the store |
| `Servers.Server.LockFile` | src/source/worker/worker_lock.c:22-75 | all outcomes of a lock |
| `Servers.Server.UnlockFile` | src/source/worker/worker_lock.c:77-128 | all outcomes of an unlock |
| `Servers.Server.RemoveFile` | src/source/worker/worker_removefile.c:21-85 | all outcomes of a removal, totals deducted on success only |
| `Servers.Server.AddClient` | src/source/shared_state.c:48-76 | first free entry, counters and high-water mark |
| `Servers.Server.RemoveClient` | src/source/shared_state.c:78-102 | frees the entry, decrements the counter |
| `Servers.Server.CloseConnection` | src/source/worker/worker_connection.c:72-102 | closes every owned slot, then removes the client |
| `Servers.Server.Dispatch` | src/source/worker.c:126-160 | the dispatch for a known client ends in the state and reply of the specification, for every request kind |
| `Servers.Server.HandleRequest` | src/source/worker.c:107-170 | looks the client up and dispatches: for every request the objects end in the state, and answer with the reply, that the properties are about |
| `InterleavedProofs.IdleActionGood` | src/source/worker/worker_closefile.c:33-60 | sections that start with nothing in flight change slot, totals and in-flight amounts consistently, and never touch a claimed slot's owner, name or bytes |
| `InterleavedProofs.CreatingActionGood` | src/source/worker/worker_openfile.c:59-98 | the same for the name search, the creation, the counting and the opening |
| `InterleavedProofs.SettlingActionGood` | src/source/worker/worker_removefile.c:38-46 | the same for settling the totals after a close, a removal or a failed store |
| `InterleavedProofs.StoreActionGood` | src/source/worker/worker_write.c:60-68 | the same for the write or append proper |
| `InterleavedProofs.ClaimingActionGood` | src/source/file.c:293-305 | the same for the claim of a victim and the settling of its eviction |
| `InterleavedProofs.JobActionGood` | src/source/worker/worker_write.c:186-223 | the same for check, scan, victim choice and reservation |
| `InterleavedProofs.EvictingActionGood` | src/source/worker/worker_cache_miss.c:55-77 | the same for the sections of an eviction, whose copies of name and bytes stay right |
| `InterleavedProofs.StepKeepsInv` | src/source/worker/worker_write.c:186-240 | every action of every worker keeps conservation, claim exclusion and the capacity bound |
| `InterleavedProofs.ReachableInv` | src/source/worker/worker_write.c:186-240 | the invariant holds after every schedule of any number of workers |
| `InterleavedProofs.TotalsConserved` | src/source/worker/worker_write.c:57-68 | in every reachable state current_storage is the slots' bytes plus everything reserved, removed or failed but not settled, and current_files satisfies the matching equation |
| `InterleavedProofs.TotalsExactAtRest` | src/source/worker/worker_removefile.c:38-46 | with no worker in the middle of something the totals are exactly the table's |
| `InterleavedProofs.CapacityBound` | src/source/worker/worker_write.c:186-240 | current_storage plus all checked but unreserved payloads never exceeds workers * capacity; one worker never exceeds the capacity |
| `InterleavedProofs.OnlyTheseRaise` | src/source/worker/worker_openfile.c:92-96 | only reserving raises current_storage and only counting a new file raises current_files |
| `InterleavedProofs.PeaksAreTrueMaxima` | src/source/worker/worker_write.c:214-223 | both high-water marks equal the true maxima over the whole run |
| `InterleavedProofs.ClaimExcludesOthers` | src/source/worker/worker_cache_miss.c:55-77 | while a worker has a slot claimed, no step of another changes its owner, name or bytes |
| `InterleavedProofs.ClaimHolds` | src/source/file.c:293-313 | the same over any stretch of any schedule in which the claimant rests |
| `InterleavedProofs.EvictionShipsWhatItRemoves` | src/source/worker/worker_cache_miss.c:32-76 | from the removal to the reply, whatever others do in between: the slot freed is the file copied, the totals drop by exactly it, and the worker has then shipped it whole if it was not empty, and nothing at all if it was |
| `InterleavedProofs.ClaimantUnique` | src/source/file.c:293-305 | in every reachable state a slot owned by the administrator is being evicted by exactly one worker |
| `LostFile.AcknowledgedFileLost` | src/source/worker/worker_cache_miss.c:32-52 | a schedule from start-up after which client 3's acknowledged, still empty file is gone although nobody asked for that, and no reply carries it |
| `UniqueNames.SoloRun` | src/source/worker/worker_generics.c:9-23 | with at most one worker names are distinct under every schedule, and what the worker's search has found out stays so until it creates |
| `UniqueNames.SameNameTwice` | src/source/worker/worker_openfile.c:38-78 | with two workers and two slots some schedule creates two files of the same name |
| `UniqueNames.NamesDistinctExactly` | src/source/worker/worker_openfile.c:38-78 | names are distinct under every schedule if and only if there is at most one worker (or one slot) |
| `OneWorker.HandleIsSchedule` | src/source/worker.c:107-170 | every request that returns in the one-at-a-time model is a schedule of one worker's own critical sections in the many-workers model, whatever the others are in the middle of |
| `OneWorker.RunIsSchedule` | src/source/worker.c:67-100 | every run of the one-at-a-time model is a schedule of the many-workers model with any number of workers |
| `OneWorker.RunIsReachable` | src/source/worker.c:67-100 | so its slots, totals and high-water marks are reachable there by moves of worker 0 alone |
| `CapacityTight.BoundIsReached` | src/source/worker/worker_write.c:186-223 | for every number of workers some schedule does bring current_storage to workers * capacity |
| `CapacityTight.CapacityRespectedExactly` | src/source/worker/worker_write.c:186-223 | the configured capacity is respected under every schedule if and only if there is at most one worker (or the capacity is 0) |
| `HandshakeProofs.AddToPollFinds` | src/source/server/server_subcalls.c:32-44 | if any entry is free the connection is put into the first free one and nothing else changes |
| `HandshakeProofs.FreeEntryExists` | src/source/server/server_loop.c:166-178 | a client held by a worker always finds a free entry: the entries hold distinct other clients |
| `HandshakeProofs.PollingKeepsInv` | src/source/server/server_loop.c:36-113 | taking a signal, the acceptor or a client out of poll keeps the invariant, and leaves an idle worker to assign to |
| `HandshakeProofs.AssignKeepsInv` | src/source/server/server_loop.c:115-135 | so does handing the connection to the idle worker |
| `HandshakeProofs.SweepOneKeepsInv` | src/source/server/server_loop.c:147-182 | so does taking back one worker's result |
| `HandshakeProofs.ThreadKeepsInv` | src/source/worker.c:67-100 | so does every step of a worker |
| `HandshakeProofs.SignalKeepsInv` | src/source/worker.c:96-97 | so does its signal |
| `HandshakeProofs.ReachableInv` | src/source/server/server_loop.c:36-182 | the invariant holds after every interleaving of the main thread and any number of workers |
| `HandshakeProofs.TokensConserved` | src/source/server/server_loop.c:36-182 | every registered client, and the acceptor, is in exactly one place and nothing else is anywhere; working_threads counts the non-idle workers |
| `HandshakeProofs.AssignmentNeverFails` | src/source/server/server_loop.c:115-135 | thread_assign_work never runs out of workers |
| `HandshakeProofs.PollEntryAlwaysFree` | src/source/server/server_subcalls.c:32-44 | add_connection_to_poll never silently drops a connection |
| `HandshakeProofs.NoLostCompletion` | src/source/worker.c:91-97 | when the main thread blocks with no signal pending, every finished worker is still about to signal |
| `HandshakeProofs.NothingStranded` | src/source/server/server_loop.c:147-182 | when nothing can move any more, every worker is idle and every client and the acceptor is being polled |
| `HandshakeProofs.RunTold` | src/source/shared_state.c:48-102 | over every run the registered clients are exactly those accepted and not hung up since, and a signal is pending exactly from when a worker sends it until the main thread reads it |
| `HandshakeProofs.HungUpIsGone` | src/source/worker/worker_connection.c:93-100 | a client that hangs up leaves the registered set and is nowhere any more, neither polled nor with a worker |
| `Dispatchers.Dispatcher.AddConnectionToPoll` | src/source/server/server_subcalls.c:32-44 | the loop over the poll array is the specified insertion |
| `Dispatchers.Dispatcher.AfterPollAcceptor` | src/source/server/server_loop.c:84-93 | takes the acceptor out of its slot, which is the step PollAcceptor of the handshake |
| `Dispatchers.Dispatcher.AfterPollConnection` | src/source/server/server_loop.c:95-113 | takes the first connection that is ready out of the poll array, and nothing else, which is a step PollClient of the handshake; -1 only if no ready entry holds a connection |
| `Dispatchers.Dispatcher.ThreadAssignWork` | src/source/server/server_loop.c:115-135 | the first idle worker gets the connection, or none is and nothing changes |
| `Dispatchers.Dispatcher.ThreadHasFinished` | src/source/server/server_loop.c:147-182 | the loop takes back every finished worker's result |
| `Dispatchers.SweepIsSteps` | src/source/server/server_loop.c:147-182 | that loop is the interleaved model's sweeping steps taken in a row |
| `Dispatchers.AssignIsSteps` | src/source/server/server_loop.c:115-135 | the assignment loop is the interleaved model's assigning steps taken in a row, ending in failure exactly if no worker is idle |
| `Dispatchers.AssignExactly` | src/source/server/server_loop.c:115-135 | the first idle worker gets exactly this connection, nobody else anything, and the assignment fails exactly if no worker is idle |
| `Planner.InsertOpen` | src/source/client/client_parser.c:133-157 | the backward scan inserts an OPEN exactly if the latest open or removal of the file is not an open |
| `Planner.InsertClose` | src/source/client/client_parser.c:185-214 | the forward and backward scans insert a CLOSE exactly if the file is not named again and was last opened, not removed |
| `Planner.AddOpenCreateRequests` | src/source/client/client_parser.c:120-222 | the whole pass computes the plan the properties are about |
| `PlannerProofs.ScanIsLife` | src/source/client/client_parser.c:138-146 | as long as a file was not closed, the backward scan that ignores CLOSE knows exactly whether it is open, removed, or neither |
| `PlannerProofs.EmitKeepsInv` | src/source/client/client_parser.c:127-216 | one turn of the loop keeps the planning invariant |
| `PlannerProofs.EmitAttached` | src/source/client/client_parser.c:131-214 | one turn of the loop inserts nothing but an open of the right kind directly before its request and a close directly behind it |
| `PlannerProofs.PlanLifecycle` | src/source/client/client_parser.c:120-222 | every request that needs its file open finds it open; WRITE directly follows its CREATE_LOCK and REMOVE its OPEN_LOCK; conversely CREATE_LOCK only stands before a WRITE, OPEN_LOCK only before a REMOVE, and a plain OPEN only before a READ, APPEND, LOCK or UNLOCK of a file that is not open; CLOSE is the last request naming its file |
| `PlannerProofs.PlanPreserves` | src/source/client/client_parser.c:182-183 | erasing the inserted requests gives the input back, in order |
| `PlannerProofs.PlanBalanced` | src/source/client/client_parser.c:185-214 | every named file ends removed with no CLOSE if its last request is REMOVE, otherwise closed with exactly one |
| `Databufs.GrowToShape` | src/source/databuf.c:55-65 | growth keeps the capacity of the form 10 * (2^k - 1) and within twice the need plus 8 |
| `Databufs.CapacityShape` | src/source/databuf.c:14-65 | over every sequence of pushes and pops the capacity has that form, holds the contents and is at most twice the largest size ever held plus 8 |
| `Databufs.Databuf.Realloc` | src/source/databuf.c:14-24 | what fits of the old bytes is kept |
| `Databufs.Databuf.Push` | src/source/databuf.c:55-65 | contents are extended by exactly the bytes; the capacity is what the growth loop gives |
| `Databufs.Databuf.Pop` | src/source/databuf.c:36-44 | the bytes pushed last come off, or nothing changes if there are too few |
| `Databufs.Databuf.Resize` | src/source/databuf.c:77-86 | contents are kept as far as they fit |
| `Databufs.Databuf.Fill` | src/source/net_msg.c:135-147 | the body read becomes the whole contents |
| `Framing.IntegerRoundTrip` | src/source/databuf.c:36-65 | an integer pushed byte by byte pops back |
| `Framing.IntegerDigit` | src/source/databuf.c:55-65 | byte i of an integer in memory counts for 256 to the power of i |
| `Framing.FrameExample` | src/source/worker/worker_cache_miss.c:32-40 | one file in a reply, byte by byte |
| `Framing.ConvertSlashes` | src/source/worker/worker_generics.c:48-57 | the in-place loop is the specified conversion |
| `Framing.ConvertedIsFlat` | src/source/worker/worker_generics.c:48-57 | for a terminated name shorter than 256 bytes every slash becomes an underscore and nothing else changes |
| `Framing.PushFrame` | src/source/worker/worker_cache_miss.c:32-40 | content, length, name and length end up in the buffer in this order |
| `Framing.PushFiles` | src/source/worker/worker_write.c:206-210 | all frames, then their number |
| `Framing.PopFrame` | src/source/client_api.c:480-494 | one turn of the client's loop, with the content buffer that is reused and NULL at first |
| `Framing.SaveCachedFiles` | src/source/client_api.c:470-503 | the client's loop is the specified decoding |
| `Framing.FrameRoundTrip` | src/source/client_api.c:480-494 | a pushed frame pops back whole, except an empty one while the content buffer is NULL |
| `Framing.FramesRoundTrip` | src/source/client_api.c:470-503 | so do any number of frames, last one first |
| `Framing.PayloadRoundTrip` | src/source/client_api.c:470-503 | the client gets back exactly the files sent, reversed and with flat names, consuming the whole buffer, if and only if there are none or the one sent last is not empty |
| `Framing.RequestRoundTrip` | src/source/worker/worker_generics.c:36-46 | a write or append request pops back to its name and payload |
| `Messages.HashBytes` | src/source/hash.h:14-32 | the loop over all bytes computes the hash HashOfMore is about, every intermediate value within 0..2^64-1 |
| `Messages.HashOfMore` | src/source/hash.h:14-32 | the hash of any data, zero bytes included: 5381 for none, and what one more byte makes of it in each of the three cases of overflow |
| `Messages.LastByteMatters` | src/source/net_msg.c:47-63 | data that differ in the last byte alone have different checksums while the hash before it is away from the end of the 64 bits |
| `Messages.WireExample` | src/source/net_msg.c:91-116 | one message on the wire, byte by byte |
| `Messages.HashStepMeaning` | src/source/hash.h:18-30 | one step is 33 * hash + c where that fits in 64 bits, the distance of 33 * hash to 2^64-1 plus c where only the sum does not, and the remainder of 2^64-1 by hash plus c where the product does not |
| `Messages.WriteN` | src/source/readn_writen.c:27-42 | whatever short counts the system call returns, all bytes are written in order |
| `Messages.ReadN` | src/source/readn_writen.c:9-24 | whatever short counts, exactly n bytes are read, or all there are before the end |
| `Messages.NetMsg.SetChecksum` | src/source/net_msg.c:47-53 | afterwards the message checks |
| `Messages.NetMsg.CheckChecksum` | src/source/net_msg.c:55-63 | true exactly if the checksum is the hash of the data |
| `Messages.NetMsg.WriteMsg` | src/source/net_msg.c:65-116 | the stream gains exactly the message's wire form and the message is unchanged |
| `Messages.NetMsg.ReadMsg` | src/source/net_msg.c:78-147 | a fresh message takes on exactly the message at the head of the stream, or the stream was too short |
| `Messages.ParseWire` | src/source/net_msg.c:91-147 | whatever follows in the stream, a message parses back identically |
| `Messages.CutOffFails` | src/source/net_msg.c:118-147 | a message that was cut off, in its header or in its body, is never taken for one |
| `Messages.StreamRoundTrip` | src/source/net_msg.c:65-147 | a sequence of messages arrives as sent and uses up exactly its own bytes |
| `Messages.ReceivedChecks` | src/source/net_msg.c:47-147 | if every message sent had its checksum set, every message received passes the check |
| `Composition.PlannedWriteIsSent` | src/source/client/client_parser.c:168-183 | what the client sends directly before a planned write of p is a create-and-lock of p |
| `Composition.AcknowledgedThenWritten` | src/source/worker/worker_openfile.c:98-104 | an acknowledged create-and-lock, then anything from other clients, then the write: it is accepted with exactly its payload |
| `Composition.PlannedWriteSucceeds` | src/source/worker/worker_write.c:27-110 | client plan and server together: an acknowledged create makes the planned write succeed under any interleaved requests of others |
| `Composition.PlannedRemoveIsSent` | src/source/client/client_parser.c:174-183 | what the client sends directly before a planned removal of p is an open of p with the lock |
| `Composition.PlannedRemoveSucceeds` | src/source/worker/worker_removefile.c:21-85 | client plan and server together: once that open was acknowledged the planned removal succeeds under any interleaved requests of others, unless an eviction took the file first and shipped it |
| `Composition.AcknowledgedMeans` | src/source/client/client_parser.c:120-222 | every acknowledgement of a planned request means what it is for: open, owner, contents and reply of the file before and after, for each of the ten kinds |
| `Composition.EvictedFilesArrive` | src/source/worker/worker_cache_miss.c:32-47 | whatever a write or append evicts comes out of the client's decoding whole, last one first |
| `Composition.ReadNDecodesExactly` | src/source/client_api.c:190-218 | the client can decode a readN reply if and only if it carries no file or the last readable file among the first n is not empty, and then it gets them all |
| `Witnesses.FullServerRuns` | src/source/worker/worker_write.c:112-184 | two arrivals, a creation and an append lead from start-up to a full one-slot server |
| `Witnesses.AppendCanHang` | src/source/worker/worker_write.c:112-140 | in that reachable state an acceptable one-byte append never leaves the eviction loop |
| `Witnesses.ReadNReplyUndecodable` | src/source/worker/worker_read.c:82-156 | a run in which readN is answered with success, the client cannot decode the answer, and the reader, who never asked for the lock, owns the file afterwards |

## Left out

- Sockets, poll and accept themselves, real files, directory walking, logging, printing and statistics: I/O without an invariant of its own.
- Configuration files, command-line parsing and path expansion (`config.c`, `server_parsing.c`, `client_parser.c` before the planner, `client_parser_2.c`): string handling through libc tokenisers.
- Failures of malloc, realloc and the pthread functions, and -1 from read and write: every allocation succeeds and a system call moves at least one byte or reports the end.
- A worker whose `worker_do` fails: the error macro falls through after marking the worker DONE (`worker.c:26-32`); runs are restricted to handlers that succeed as far as the handshake is concerned.
- SIGINT, SIGQUIT, SIGHUP and shutdown, including the closed acceptor: the handshake is about runs before shutdown.
- The second `free` of the payload after an unexpected append error (`worker_write.c:146` and `:173`) and every other question of memory ownership: buffers are sequences.
- C string truncation at 256 bytes and reads past a missing terminator: names are sequences of bytes; the wire lemmas ask for names shorter than 256 bytes without a zero byte.
- Overflow of `lfu_frequency` and of the totals: mathematical integers. INT_MAX, where LFU stops seeing a file, is modelled.
- The use count over whole runs: `Operations` and `Outcomes` say what every request adds to it, but how often a file was used cannot be told from the replies alone, since a readN counts differently for open and closed files.
- Update in place inside a slot's byte buffers: they are fields of type `seq` that the operations reassign.
- Interleavings in which the name search of anything but a creation, the victim search, the search for a free slot, `lru_clock_pos`, `cache_miss_execs` or the client table matter: in the many-workers model these searches may answer anything, which covers stale answers, and these fields are not part of its state. Write tokens and byte-level refinement are stated for one request at a time only, because with several workers names need not be distinct.
- The converse of `OneWorker.RunIsSchedule`: the many-workers model with one worker has more schedules than the one-at-a-time model has runs, because its searches may answer anything.
- readN and disconnect in the many-workers model have no action of their own: they are sequences of its open, read and close actions.
- Framing of evicted files inside the eviction loop: the loop collects whole files, and `Framing.PushFiles` says how such a list is laid out in the buffer.
- In the handshake a disconnect removes the client and drops its descriptor in one step; in the code another worker cannot see the two apart, because only the worker that holds the connection acts on it.
- Poll's choice among ready descriptors: any ready one in the handshake, the first ready one in `Dispatchers.Dispatcher.AfterPollConnection`.
- The acceptor's exchange with a new client: one that introduces itself wrongly or is one too many is a connection that is not added.
- The growth of the request array in `add_request` and the unused fields of inserted requests.
- The remaining client API wrappers: one send, one receive and a mapping of flags to errno each.
