# yrmcds, modelled and proved in Dafny

yrmcds is a memcached-compatible object cache with master/slave replication, server-side locks and
resource counters.  One reactor thread dispatches sockets to a fixed set of workers, a GC thread scans
the hash map, and no barrier stops them.  Its guarantees hold over whole runs and across several files;
this project states and proves them for the master side.

`dafny verify dfyconfig.toml` checks the whole project with Dafny 4.11.

## The parts

* **Concurrency.**  `Protocol.dfy` is the master as a step machine: accepting, posting jobs, `with_fd`,
  removal requests, the interval callback, garbage, GC start and end.  A step is one atomic access or one
  critical section, so a run is any interleaving.  `ProtocolInv.dfy` has the invariant and one lemma per
  step, `ProtocolRuns.dfy` the safety theorems over all runs, `ProtocolAdmission.dfy` that no slave is lost
  on its way to its first replication, `ProtocolProgress.dfy` that every run can come to rest,
  `ProtocolFrame.dfy` what steps leave alone.  `Syncer.dfy` and `Handler.dfy` have the objects
  of the reactor thread in their own form.
* **Data.**  `World.dfy` adds the object store, the lock lists, the workers' contexts and the messages sent
  to each slave; a bucket operation under its lock is one step and the GC handles one item per step.
  `WorldRepl.dfy` proves replica agreement message by message, `WorldWire.dfy` on the bytes a slave has
  received so far.  `WorldLocks.dfy` proves lock ownership; `WorldReuse.dfy` and `WorldStale.dfy` are runs
  into the two internal errors it leaves.  `WorldCas.dfy` is about the unique numbers of objects,
  `WorldOversize.dfy` a run that sends a message too long for the wire, `WorldContent.dfy` what clients see
  of the last write.
* **Objects and commands.**  `Numeric.dfy`, `Objects.dfy` and `Commands.dfy` are the handlers of the commands,
  `CommandEffects.dfy` says exactly when each succeeds, how it fails and what it leaves;
  `Buffers.dfy` and `Stored.dfy` are the byte buffer, the temporary file and the two-tier object.
* **Wire.**  `Wire.dfy` parses binary requests and encodes replication messages, `Encoders.dfy` fills the
  arrays, `Replicas.dfy` replays messages, `Frames.dfy` cuts any byte stream into requests, `Streams.dfy`
  applies that to the binary and replication streams, `Text.dfy` is the text parser.  `Requests.dfy` and
  `TextRequests.dfy` write the requests of both protocols and prove that they arrive as the same commands.
* **Sending.**  `SendQueue.dfy`: 1 MiB buffers, an overflow buffer and partial writes carry one byte stream.
* **Memory.**  `HashMaps.dfy` has the linked chain of a bucket and what its operations mean for a table of
  buckets, `HashTable.dfy` the array of chains in memory as a finite map, `Eviction.dfy` a GC run and its
  convergence, `EvictionLocks.dfy` the same while connections hold locks.
* **Counters.**  `CounterObjects.dfy`, `Counters.dfy`, `CounterSockets.dfy`.

## Where a promise needs a condition

* Lock ownership holds in every run, but two internal errors of the locking code can be reached, and
  `WorldLocks.FaultsExactly` says exactly when.  A job that finds its socket invalid when it begins keeps
  the context of the thread's job before it: `WorldStale.StaleContextFaults`.  Contexts are descriptor
  numbers, and the code closes descriptors early, so a number can come back while its first socket still
  holds locks: `WorldReuse.ReusedNumberFaults`.
* A unique number tells the writes of one item, not its replacement.  An item is the same exactly while its key
  is never away (`WorldCas.SameItemExactly`), which a lock guarantees (`WorldCas.LockedNumberDetects`);
  `WorldCas.ReplacedUnnoticed` is a run without.
* Eviction brings the memory back within its limit when nothing is locked.  With locks it does so exactly if
  the locked objects and those accessed more than an hour after the oldest lock fit into the limit
  (`EvictionLocks.ConvergesExactly`), because the eviction age follows the locked objects;
  `EvictionLocks.LockHoldsUpEviction` is a state that never gets there.
* The text parser asks for a range error in `errno` without clearing it, so 2^64 - 1 is refused as a unique number
  or an amount exactly while an earlier error is left there (`TextRequests.NumberArrivesExactly`).
* Counter sums are 32 bits wide.  `Counters.ConservedExactly` is the exact condition for conservation,
  `Counters.OverflowFails` a run without it, `Counters.ModularConservation` what holds regardless.
* A replicated object arrives unchanged under the condition of `Wire.ObjectTrip`: empty data lose flags and
  expiration time, and more than 30 MiB arrive empty.
* A slave sees the messages it was sent exactly while their bodies stay below 4 GiB
  (`Streams.BoundariesExactly`).  Appends get there (`WorldOversize.OversizeReached`), and behind such a message
  nothing is promised (`Streams.OversizeLosesTheRest`).
* docs/design.md:32 says that slaves receive SetQ and DeleteQ only; the code also sends Touch
  (src/memcache/replication.cpp:57-70), and so does the model.

## Model

| member | source | states |
|---|---|---|
| Sync.Mark | src/sync.hpp:58-65 | one round of `check`: a flag is set after it exactly when it was set before or its worker was seen idle |
| Sync.FirstFlags | src/sync.hpp:46-53 | flags of a new request: a bit is clear exactly for a worker seen running |
| Sync.Waiting | src/sync.hpp:66-72 | after a round exactly the requests with a clear bit stay queued |
| Sync.WaitingInOrder | src/sync.hpp:66-72 | each of them once, in the order of the queue |
| Sync.Fired | src/sync.hpp:66-72 | the callbacks that run are exactly those of the complete requests |
| Sync.FiredInOrder | src/sync.hpp:66-72 | each of them once, in the order of the queue |
| Sync.Syncer.AddRequest | src/sync.hpp:46-56 | the loops over the workers and the unused bits compute the first flags; a complete request fires at once and is not queued |
| Sync.Syncer.MarkIdle | src/sync.hpp:58-65 | the nested loop over workers and requests marks every request |
| Sync.Syncer.Sweep | src/sync.hpp:66-72 | erasing while walking the list keeps the waiting requests and fires the others in order |
| Sync.Syncer.Check | src/sync.hpp:58-73 | one round leaves the waiting requests and appends the complete ones to the callbacks run |
| Protocol.Merge | src/memcache/gc.hpp:25-34 | the GC thread's slave list holds exactly the slaves and the new slaves |
| Handler.Union | src/memcache/gc.hpp:25-34 | the constructor loop computes that list |
| ProtocolInv.InitInv | src/server.cpp:152-155 | the freshly started master satisfies the invariant of the protocol |
| ProtocolInv.AcceptClientKeeps | src/memcache/handler.cpp:217-228 | accepting a client keeps the invariant |
| ProtocolInv.AcceptSlaveKeeps | src/memcache/handler.cpp:230-253 | accepting a slave and asking for synchronization keeps the invariant |
| ProtocolInv.PostRecvKeeps | src/memcache/sockets.cpp:123-142 | copying the slave list and posting a receive job keeps the invariant |
| ProtocolInv.PostSendKeeps | src/memcache/sockets.cpp:144-153 | posting a send job keeps the invariant |
| ProtocolInv.EndJobKeeps | src/memcache/sockets.cpp:98-103 | clearing the busy flag keeps the invariant |
| ProtocolInv.GoIdleKeeps | cybozu/worker.hpp:76-91 | a worker turning idle keeps the invariant |
| ProtocolInv.TakeLockKeeps | cybozu/reactor.hpp:149-151 | taking the read lock of `with_fd` keeps the invariant |
| ProtocolInv.CheckValidKeeps | cybozu/reactor.hpp:151-152 | the validity test of `with_fd` keeps the invariant |
| ProtocolInv.BodyFailKeeps | cybozu/reactor.cpp:19-23 | the exchange on the validity flag keeps the invariant, whoever wins it |
| ProtocolInv.RequestRemovalKeeps | cybozu/reactor.hpp:295-298 | queueing a removal request keeps the invariant |
| ProtocolInv.ReactorRemoveKeeps | cybozu/reactor.cpp:86-103 | invalidation and removal by the reactor thread keep the invariant |
| ProtocolInv.ProcessDropKeeps | cybozu/reactor.cpp:117-124 | serving a removal request keeps the invariant |
| ProtocolInv.IntervalCheckKeeps | src/server.cpp:138-139 | the synchronizer's round with its callbacks keeps the invariant; what the callbacks leave is ProtocolAdmission.AdmitsExactly |
| ProtocolAdmission.AdmitsExactly | src/sync.hpp:58-73 | in every reachable state, a slave is new after the round exactly if it was before, or its request waited only for workers that this round sees idle |
| ProtocolAdmission.AdmittedOnce | src/memcache/handler.cpp:230-253 | in every run no slave is lost or taken twice: while it exists it is in exactly one place, once: a waiting request, the new slaves, or those a GC thread was started for |
| ProtocolAdmission.TakesAll | src/memcache/handler.cpp:130-135 | a GC thread is started with exactly the new slaves and none stays behind; its slave list holds them and the others |
| ProtocolAdmission.RunKeeps | src/sync.hpp:46-73 | every step of every thread keeps each slave in one place |
| ProtocolProgress.ComesToRest | src/server.cpp:134-150 | from every reachable state some run leads to rest without losing a valid connection: all workers idle, no request, garbage or removal left, every resource valid and in the table, and every slave listed and served by a GC thread |
| ProtocolProgress.BusyExactly | src/memcache/sockets.cpp:98-142 | in every run a socket is busy exactly while a worker runs its receive job, and never two |
| ProtocolInv.PurgeEraseKeeps | src/memcache/handler.cpp:111-115 | erasing an invalid slave keeps the invariant |
| ProtocolInv.PurgeTimeoutKeeps | src/memcache/handler.cpp:116-126 | expelling a silent slave keeps the invariant |
| ProtocolInv.StartGcKeeps | src/memcache/handler.cpp:130-135 | starting a GC thread keeps the invariant |
| ProtocolInv.GcFinishKeeps | src/memcache/gc.cpp:131-148 | the end of a GC thread keeps the invariant |
| ProtocolInv.FixKeeps | src/server.cpp:143-149 | saving the garbage, closing early and asking for synchronization keep the invariant |
| ProtocolInv.DestroyKeeps | cybozu/reactor.hpp:330-333 | destructing a saved resource keeps the invariant |
| ProtocolInv.BodyOkKeeps | cybozu/reactor.hpp:155-156 | leaving `with_fd` after a good body keeps the invariant |
| ProtocolInv.LeaveKeeps | cybozu/reactor.hpp:158-160 | leaving it after a failed body keeps the invariant |
| ProtocolInv.PurgeKeepKeeps | src/memcache/handler.cpp:127 | stepping over a good slave keeps the invariant |
| ProtocolInv.PurgeEndKeeps | src/memcache/handler.cpp:128-130 | the end of the purge keeps the invariant |
| ProtocolInv.DestroyEndKeeps | cybozu/reactor.hpp:330-333 | the end of a destruction keeps the invariant |
| ProtocolRuns.NoFault | cybozu/reactor.cpp:86-92 | under the invariant no step uses a destructed resource or raises "bug in remove_resource" or "No gc() was called after fix_garbage()!" |
| ProtocolRuns.StepKeeps | src/server.cpp:134-150 | every step of every thread keeps the invariant |
| ProtocolRuns.RunKeeps | src/server.cpp:134-150 | so does every finite interleaving |
| ProtocolRuns.RunsNeverFault | cybozu/reactor.hpp:310-313 | in every run from the start, for up to 64 workers, no step the code can take faults |
| ProtocolRuns.SafeJoin | src/memcache/handler.cpp:130-135 | when a GC thread starts with a valid new slave, every receive job then running was posted with that slave in its copied list, and the slave is on both lists of the thread |
| ProtocolRuns.JoinedForever | docs/design.md:156-170 | from then on, while the slave is valid, every running job and every GC thread replicates to it |
| ProtocolRuns.SafeReclamation | src/server.cpp:37-44 | when the saved list is destructed, no worker, GC thread, slave list or pending admission refers to the resource, and no thread is inside `with_fd` on it |
| ProtocolRuns.SingleRemovalAndClose | cybozu/reactor.hpp:72-81 | each resource leaves the reactor map at most once and exactly when it is no longer listed, its descriptor is closed at most once and never under a body, and an invalid listed resource has exactly one removal on its way |
| ProtocolRuns.NoBodyAfterClose | cybozu/reactor.hpp:149-160 | a body starts exactly on a valid resource, so never on a closed descriptor |
| ProtocolFrame.FrameRes | cybozu/reactor.hpp:72-81 | resources come and go by accepting and destructing only; otherwise kind and number stay and validity is never regained |
| Handler.StayingExactly | src/memcache/handler.cpp:109-128 | the purge keeps exactly the slaves seen valid and not silent |
| Handler.MemcacheHandler.Purge | src/memcache/handler.cpp:109-128 | the loop that erases while it walks computes that list, and hands the silent slaves to the reactor in order |
| Handler.MemcacheHandler.GcReady | src/memcache/handler.cpp:28-58 | exactly when a GC thread may start, when a finished one is joined, and how the number of consecutive GCs (at most 3) changes |
| Handler.MemcacheHandler.StartGc | src/memcache/handler.cpp:130-135 | the thread gets the union of both lists and the new slaves, whose list is cleared |
| Handler.MemcacheHandler.AddSlave | src/memcache/handler.cpp:230-253 | at most five slaves; the slave is on the list at once and a new slave once every worker was seen idle |
| Handler.FindWorker | src/server.cpp:21-30 | round robin: the first worker not running from the index on, every one skipped was running, none is found only if all are |
| Handler.Reactor.Remove | cybozu/reactor.cpp:86-103 | the resource moves from the map to the garbage, its descriptor is no longer polled nor on the list of readable ones, and it is closed exactly if no thread is using it; the logic error is exactly an unknown descriptor |
| Handler.ClearedExactly | cybozu/reactor.cpp:97-98 | clearing the list of readable descriptors leaves exactly the others |
| Handler.Reactor.TryClose | cybozu/reactor.hpp:209-218 | closed exactly if the write lock can be had |
| Handler.Reactor.ProcessDrops | cybozu/reactor.cpp:117-124 | all requests succeed exactly when they are distinct and known; then the dropped resources are garbage in request order, and closed exactly where no thread is using them |
| Handler.Reactor.FixGarbage | cybozu/reactor.hpp:310-324 | the logic error is exactly a saved list left over; otherwise the garbage is saved and what no thread is using is closed |
| Numeric.ParseOfPrint | src/memcache/object.cpp:16-21 | reading the printed decimal text of a 64-bit number gives the number |
| Numeric.StoullReads | src/memcache/object.cpp:16-21 | what is read of any text: white space, a sign, digits and the rest; none of them or 2^64 and more is an error, a minus negates modulo 2^64 |
| Numeric.PrintFits | src/memcache/object.cpp:50-58 | the text has 1 to 20 bytes |
| Objects.NumbersStayNumbers | src/memcache/object.cpp:134-172 | any run of incr and decr on a numeric object succeeds and leaves the decimal text of the folded value in 20 bytes at most, with one `cas` per operation |
| Objects.OneStep | src/memcache/object.cpp:134-172 | the sum differs from v + n by a multiple of 2^64; the difference w has w + n = v, or is 0 with v < n |
| Objects.FoldedSum | src/memcache/object.cpp:134-172 | a run of increments gives (v + sum) mod 2^64, a run of decrements v - sum or 0 |
| Objects.RunsAddUp | src/memcache/object.cpp:134-172 | and that is what the text of the object reads as after the run |
| Commands.MessageTellsAll | src/memcache/sockets.cpp:155-537 | for every single-key command: no message means no change in what slaves hold, a touch message a change of the expiration time alone, a delete message a removal, a set message an object; which object is CommandEffects.LeavesData and LeavesRest |
| CommandEffects.SucceedsExactly | src/memcache/sockets.cpp:155-537 | for every command, with or without an object: it succeeds exactly under its condition on sizes, lock, expiration, unique number, mode and number |
| CommandEffects.FailsExactly | src/memcache/sockets.cpp:155-537 | each failure status is answered exactly under its own condition |
| CommandEffects.LeavesData | src/memcache/sockets.cpp:155-537 | after success the object is gone exactly for delete; else its data are the new data, the old with the new behind or in front, the decimal text of sum, difference or initial value, or the old data |
| CommandEffects.LeavesRest | src/memcache/sockets.cpp:155-537 | flags and expiration time after success: those of the command where it has them, the old ones elsewhere |
| CommandEffects.Bookkeeping | src/memcache/sockets.cpp:155-537 | age, lock and unique number after success |
| CommandEffects.FailureChangesNothing | src/memcache/sockets.cpp:155-537 | a command that fails leaves the object, the lock list and the slaves alone |
| WorldContent.CommandShows | src/memcache/sockets.cpp:155-537 | in every reachable state: a command that succeeds shows its data under its key and leaves all other keys alone, a command that fails changes no state |
| WorldContent.ContentStays | src/memcache/sockets.cpp:155-537 | an object keeps data and flags over any run in which nothing writes or removes its key, and its expiration time if nothing touches it |
| WorldContent.LastWriteShows | src/memcache/sockets.cpp:155-537 | over any run: what the last successful command left under a key is there until the key is written or removed |
| Commands.LockDiscipline | src/memcache/sockets.cpp:503-537 | for every command: only an unlocked object is locked, only its owner unlocks or deletes it, and the change of the lock list matches |
| Commands.ReleasesExactly | src/memcache/sockets.cpp:298-537 | a command takes a key off its connection's list exactly when it unlocks, deletes or replaces an object the connection owns, with the right unique number |
| Commands.LockedBySomeoneElse | src/memcache/object.hpp:150-164 | an object locked by another connection keeps data, flags, `cas` and owner under every command; only touching changes its expiration time |
| Commands.CompareBeforeWrite | src/memcache/sockets.cpp:241-277 | a request with another unique number changes nothing, every write moves the number on by one, and nothing else moves it; what a write leaves is CommandEffects.LeavesData |
| Stored.StoredObject.constructor | src/memcache/object.cpp:36-48 | a new object stands for its bytes, in a file exactly when they exceed the limit |
| Stored.StoredObject.Number | src/memcache/object.cpp:50-58 | a new number stands for its decimal text |
| Stored.StoredObject.Set | src/memcache/object.cpp:60-81 | `set` on either tier is the plain replacement |
| Stored.StoredObject.Append | src/memcache/object.cpp:83-103 | `append` on either tier and across the limit is concatenation behind |
| Stored.StoredObject.Prepend | src/memcache/object.cpp:105-132 | `prepend` is concatenation in front, including the rewrite of a file |
| Stored.StoredObject.Incr | src/memcache/object.cpp:134-152 | `incr` fails exactly when the data are no number; else it returns (v + n) mod 2^64 for the number v they read as, and the new data read as that |
| Stored.StoredObject.Decr | src/memcache/object.cpp:154-172 | `decr` likewise: w with w + n = v, or 0 if v < n |
| Stored.StoredObject.Touch | src/memcache/object.hpp:77-80 | `touch` changes expiration time and age only |
| Stored.StoredObject.Data | src/memcache/object.hpp:82-88 | `data` returns the plain bytes from either tier and resets the age |
| Stored.PlayAll | src/memcache/object.cpp:60-172 | any run of changes leaves the plain object's value, with the length right and a file exactly above the limit |
| Stored.CasCounts | src/memcache/object.cpp:60-172 | over any run `cas` grows by one for each successful set, append, prepend, incr and decr, and not for touch |
| Buffers.Dynbuf.Reset | cybozu/dynbuf.hpp:68-80 | empty contents and the default capacity |
| Buffers.Dynbuf.Enlarge | cybozu/dynbuf.hpp:169-185 | exactly so much more capacity, contents kept |
| Buffers.Dynbuf.Append | cybozu/dynbuf.hpp:85-90 | contents grow by the bytes, whatever the capacity was |
| Buffers.Dynbuf.Erase | cybozu/dynbuf.hpp:97-121 | the head is dropped in each of the three ways; it fails exactly when there is not as much |
| Buffers.Dynbuf.Prepare | cybozu/dynbuf.hpp:131-135 | enough free space, contents kept |
| Buffers.Dynbuf.Consume | cybozu/dynbuf.hpp:139-141 | bytes written into the free space become contents |
| Buffers.Swap | cybozu/dynbuf.hpp:61-65 | the two buffers exchange their contents |
| Buffers.Tempfile.Write | src/tempfile.cpp:11-20 | all bytes are appended, however few each system call takes |
| Buffers.Tempfile.ReadContents | src/tempfile.cpp:30-44 | the whole file is appended to the buffer; an unexpected end of file cannot happen |
| HashMaps.Bucket.Locate | cybozu/hash_map.hpp:161-166 | the walk stops at the first item with the key |
| HashMaps.Bucket.Apply | cybozu/hash_map.hpp:161-172 | handler on an existing object, creator for a missing one at the head of the chain, and the documented results |
| HashMaps.Bucket.Unlink | cybozu/hash_map.hpp:199-203 | relinking drops exactly that item and keeps the chain |
| HashMaps.Bucket.Remove | cybozu/hash_map.hpp:197-209 | exactly the item with the key goes |
| HashMaps.Bucket.RemoveIf | cybozu/hash_map.hpp:226-240 | the item goes exactly if the predicate says so; the result says whether it existed |
| HashMaps.Bucket.Gc | cybozu/hash_map.hpp:247-258 | one pass leaves what the predicate spares, in order, with the predicate's state threaded through |
| HashMaps.CalledInOrder | cybozu/hash_map.hpp:247-258 | the predicate is called once per item, in chain order |
| HashMaps.GetSwept | cybozu/hash_map.hpp:242-258 | a key survives `gc` exactly if it was there and not selected |
| HashMaps.ApplyRefines | cybozu/hash_map.hpp:161-172 | one bucket of a table changed by `apply` is `apply` on the map the table shows, and every key stays in the bucket of its hash, once |
| HashMaps.RemoveRefines | cybozu/hash_map.hpp:197-209 | the same for `remove` |
| HashMaps.GcAll | cybozu/hash_map.hpp:247-258 | the same for a pass over all buckets: exactly the selected items go |
| HashTable.OnlyMap | cybozu/hash_map.hpp:357-359 | a table of buckets shows one map only |
| HashTable.MapRemovedIf | cybozu/hash_map.hpp:226-240 | `remove_if` on the bucket of the key is `remove_if` on the map |
| HashTable.HashMap.constructor | cybozu/hash_map.hpp:275-276 | empty buckets that share nothing: the empty map |
| HashTable.HashMap.Apply | cybozu/hash_map.hpp:305-308 | on an array of linked chains in memory that share no node: the map changes as `apply` says, the chains stay apart, and the result is the documented one |
| HashTable.HashMap.Remove | cybozu/hash_map.hpp:331-335 | exactly the key goes from the map; the result says whether it was there |
| HashTable.HashMap.RemoveIf | cybozu/hash_map.hpp:337-348 | the key goes, or gets a new object, as the predicate decides; the result says whether it was there |
| HashTable.HashMap.Gc | src/memcache/gc.cpp:131-133 | the loop over all buckets: exactly the selected items go from the map, and the predicate's state is threaded through all chains in order |
| Wire.ByteOrder | cybozu/util.hpp:57-98 | `ntoh` inverts `hton` for every value that fits |
| Wire.BodyPartition | src/memcache/memcache.cpp:818-837 | extras, key and data partition the body of every accepted request |
| Wire.RoundTripSet | src/memcache/replication.cpp:37-55 | a SetQ followed by anything parses to its key, data, flags and expiration time and consumes exactly itself; it is accepted exactly with 1 to 30 Mi bytes of data |
| Wire.RoundTripTouch | src/memcache/replication.cpp:57-70 | likewise for Touch |
| Wire.RoundTripDelete | src/memcache/replication.cpp:72-82 | likewise for DeleteQ |
| Wire.OversizeDesynchronizes | src/memcache/replication.cpp:29-30 | a body of 4 GiB or more wraps in the header and the receiver consumes less than the message |
| Wire.ExptimeTrip | src/memcache/memcache.cpp:68-77 | exactly which expiration times survive the wire |
| Wire.ObjectTrip | src/memcache/memcache.cpp:866-875 | exactly which objects reach a slave unchanged |
| Wire.EmptyObjectLosesFlags | src/memcache/memcache.cpp:871 | an empty object with flags arrives without them |
| World.BinaryRequestsAreParsed | src/memcache/memcache.cpp:798-959 | every good binary request has what the commands assume: a key of 1 to 250 bytes and 32-bit flags; which command it is, is Requests.RequestArrives |
| Requests.RequestArrives | src/memcache/memcache.cpp:798-959 | the request of any single-key command, under its loud and quiet opcodes and with anything behind it, is good, as long as it is, and that command: key, data, flags, unique number, amount, initial value and times |
| Requests.GoodExactly | src/memcache/memcache.cpp:798-959 | a complete request is good exactly if its key is at most 250 bytes, its body holds its parts, its data are at most 30 MiB and the lengths fit its opcode; too large exactly if only the data are |
| Encoders.Hton | cybozu/util.hpp:80-98 | the bytes written are the big-endian ones and no others change |
| Encoders.FillHeader | src/memcache/replication.cpp:21-31 | the array holds the header, lengths in 16, 8 and 32 bits |
| Encoders.SetPieces | src/memcache/replication.cpp:37-55 | the four pieces are the SetQ message |
| Encoders.TouchPieces | src/memcache/replication.cpp:57-70 | the three pieces are the Touch message |
| Encoders.DeletePieces | src/memcache/replication.cpp:72-82 | the two pieces are the DeleteQ message |
| Frames.DrainPartition | src/memcache/sockets.cpp:68-86 | parsed requests and the rest partition the buffer |
| Frames.DrainSplit | src/memcache/sockets.cpp:60-95 | parsing a buffer and later its rest with more bytes is parsing all of it |
| Frames.ChunkIndependence | src/memcache/sockets.cpp:45-100 | while a connection is open, what was executed and what is left depend on the bytes alone |
| Frames.Served | src/memcache/sockets.cpp:87-94 | exactly the streams without over-long or malformed requests execute the same requests and leave the same rest under every cut |
| Streams.BinaryServed | src/memcache/sockets.cpp:74-94 | the same for the binary requests of a memcache connection and the limit of 30 MiB, a text request being the end |
| CounterSockets.CounterServed | src/counter/sockets.cpp:43-61 | the same for a counter connection |
| Frames.BeyondIsDenied | src/memcache/sockets.cpp:87-94 | any other stream is cut off when it comes byte by byte |
| Frames.ParseLoop | src/memcache/sockets.cpp:68-86 | the loop over head and length yields the requests and the rest |
| Frames.Receiver.ReceiveJob | src/memcache/sockets.cpp:45-104 | a whole receive job, with pending bytes loaded and saved, is that function of the chunks |
| Streams.BinarySteady | src/memcache/memcache.cpp:798-803 | binary requests are recognised as soon as they are complete and never differently with more bytes |
| Streams.BinaryParse | src/memcache/memcache.cpp:798-959 | the parser reads only the bytes of the request |
| Streams.ReplRecv | src/memcache/replication.cpp:84-150 | the loop applies every complete request in order and reports exactly the bytes it consumed; it throws exactly on bytes that begin no binary request |
| Streams.MessageDecodes | src/memcache/replication.cpp:84-150 | a message out of its bytes has the effect the master meant |
| Streams.SlaveReplays | src/memcache/sockets.cpp:994-1034 | however the bytes are cut and wherever they stop, the slave has applied exactly the complete messages and holds exactly the unfinished one |
| Streams.MasterToSlave | src/memcache/replication.cpp:37-150 | from the bytes the kernel was given to the slave's table, for messages below 4 GiB: whole messages in order, all of them once all bytes arrived |
| Streams.BoundariesExactly | src/memcache/replication.cpp:15-35 | a receiver splits the stream into the messages it was made of exactly when every body is below 4 GiB |
| Streams.OversizeLosesTheRest | src/memcache/replication.cpp:15-35 | a stream with a body of 4 GiB after which the slave misses a key the messages give it |
| WorldOversize.OversizeReached | src/memcache/sockets.cpp:335-388 | a run of the master in which appends, which have no size limit, make it send a valid slave such a message |
| Streams.ReplClient.OnReadable | src/memcache/sockets.cpp:994-1034 | at most 50 reads, up to the first that has nothing or finds the connection gone; buffer and table follow the stream, and the end says which of the four it was |
| CounterSockets.CounterSteady | src/counter/counter.cpp:50-53 | counter requests frame their stream, so every cut serves the same requests |
| CounterSockets.CounterParse | src/counter/counter.cpp:49-118 | the parser reads only the bytes of the request |
| CounterSockets.ParsedRequest | src/counter/counter.cpp:74-109 | an accepted Acquire has 1 <= resources <= maximum < 2^32 and every named request a name |
| CounterSockets.CounterRequestsArrive | src/counter/counter.cpp:49-116 | get, release and acquire requests with anything behind them are parsed as written: name, amount and maximum; an acquire of nothing or of more than its maximum is invalid |
| Replicas.CommandReplicates | src/memcache/sockets.cpp:155-537 | if a slave follows an entry before a command and gets its message, it follows the entry after it |
| WorldRepl.StepKeeps | src/memcache/gc.cpp:73-134 | every step of the master with its data keeps the replication invariant |
| WorldRepl.RunKeeps | src/memcache/gc.cpp:73-134 | so does every finite interleaving of them |
| WorldRepl.ReplicaAgreement | src/memcache/gc.cpp:73-134 | in every run, replaying the messages a valid scanned slave was sent gives every scanned key of the master: data and flags are the master's, or both empty if the data are empty or over 30 MiB, and expiration times that survive the wire are the master's |
| WorldRepl.SlaveExtras | docs/design.md:117-121 | a key only the replayed messages give was removed by a thread whose list lacked the slave |
| WorldRepl.SentMessagesAreGood | src/memcache/replication.cpp:37-82 | every message of every run has a key of 1 to 250 bytes and 32-bit flags |
| WorldRepl.NothingMissedAfterStart | docs/design.md:156-170 | once a scan was started for the slave, no removal misses it |
| WorldWire.ByteAgreement | src/memcache/replication.cpp:84-150 | in every run, for every valid slave none of whose messages reached 4 GiB: however the bytes of its stream are cut, the table it decodes from them agrees with the master on every scanned key, and has no other keys than those it missed |
| WorldWire.Earlier | src/memcache/replication.cpp:37-82 | every prefix of a slave's stream was the whole stream at some earlier point of the run, and the slave was valid there |
| WorldWire.PrefixConsistency | src/memcache/sockets.cpp:994-1034 | whatever part of the stream the send queue has given to the kernel and however it arrives, the slave's table is the one of some earlier point of the run and consistent with the master at that point; with nothing left to send, that point is now |
| WorldLocks.StepKeeps | src/memcache/sockets.hpp:33-59 | every step keeps lock fields and lock lists in agreement, and no key on two lists |
| WorldLocks.RunKeeps | src/memcache/sockets.hpp:33-59 | so does every finite interleaving |
| WorldLocks.LockOwnership | src/memcache/sockets.hpp:33-59 | in every run an object is locked by a number exactly when its key is on the list of a socket with that number; it is on one list only, there once, and the reference leads to the living item |
| WorldLocks.FaultsExactly | src/memcache/object.hpp:131-149 | the throws of `lock`, `unlock` and `remove_lock` happen exactly in two cases: a job that began on an invalid socket releases a lock under another connection's context, or a command releases a key that is on the list of another undestructed socket with the same number |
| WorldLocks.RunsFaultExactly | src/memcache/sockets.cpp:47-50 | the same for every reachable state |
| WorldLocks.LockedObjectsStay | src/memcache/gc.cpp:73-91 | in every run a locked object is not flushed, evicted, expired, deleted or overwritten by any step but a command under its owner's number on that key or the release of that lock |
| WorldLocks.LockEndsExactly | src/memcache/sockets.cpp:298-537 | a lock ends exactly by a command of its owner that unlocks, deletes or replaces the object, or by the release of the list the key is first on; until then the item stays |
| WorldLocks.DistinctOwnership | src/memcache/sockets.hpp:33-59 | while no two sockets share a number, a connection owns exactly the objects on its list |
| WorldLocks.DistinctFaults | src/memcache/sockets.cpp:47-50 | and only the first of the two cases is left |
| WorldReuse.ReusedNumberFaults | cybozu/reactor.cpp:100-102 | a run into the second case: the number of a closed socket is handed out again before its destruction |
| WorldStale.StaleContextFaults | src/memcache/sockets.cpp:47-50 | a run into the first case, in a state where no two sockets share a number |
| WorldCas.WritesCounted | src/memcache/object.cpp:44-171 | in every run, between two sights of one item its unique number counts the writes modulo 2^64, and without one data and flags stayed |
| WorldCas.SameNumberSameData | src/memcache/sockets.cpp:241-277 | in every run, an item that shows the same unique number less than 2^64 steps apart has the same data and flags |
| WorldCas.SameItemExactly | cybozu/hash_map.hpp:161-172 | two sights of a key are sights of one item exactly if the key was in the store at every point between them |
| WorldCas.NoLostUpdate | src/memcache/sockets.cpp:241-537 | a write that insists on the number read earlier and succeeds meets the data that was read, if the key was never away in between; without an object only a counting command with an initial value succeeds |
| WorldCas.LockedNumberDetects | src/memcache/sockets.cpp:503-537 | from any reachable state on, while no step gives up the lock on a key, its object is there and its owner's, and the same number means the same data and flags |
| WorldCas.ReplacedUnnoticed | src/memcache/object.hpp:172 | a run in which the key was deleted and stored again and other data show the number that was read, because numbers start from 1 |
| Handler.LockList.Remove | src/memcache/sockets.hpp:39-48 | the first reference with the key goes; the logic error is exactly a key not listed |
| Handler.LockList.UnlockAll | src/memcache/sockets.hpp:50-59 | it ends well exactly when every listed item is alive and locked by this context, and releases exactly those |
| CounterObjects.IntervalMaximum | src/counter/object.hpp:57-61 | after any run with a clock that never goes back and no wrap, `max_consumption` is the greatest level held since the interval boundary, the level carried in included |
| CounterObjects.CounterObject.Acquire | src/counter/object.hpp:25-38 | granted exactly if the 32-bit sum is within the maximum; the three fields follow |
| CounterObjects.CounterObject.Release | src/counter/object.hpp:40-51 | granted exactly if that much is consumed |
| Counters.NoBug | src/counter/sockets.cpp:176-192 | with balanced books neither logic error can happen |
| Counters.StepKeeps | src/counter/sockets.cpp:156-242 | every step that does not overflow keeps the books balanced |
| Counters.ConservedExactly | src/counter/object.hpp:26 | a step keeps them balanced exactly if its sum does not wrap or the connection's own entry wraps with it and leaves something |
| Counters.RunKeeps | src/counter/sockets.cpp:156-242 | so does every interleaving without overflow |
| Counters.Conservation | src/counter/sockets.cpp:156-242 | over all interleavings without overflow: consumption is the sum of the entries, every entry is positive and its counter alive, and no throw is reachable |
| Counters.HeldNeverCollected | src/counter/gc.cpp:27-43 | GC never deletes a counter somebody holds |
| Counters.CollectedExactly | src/counter/gc.cpp:27-43 | in every run a counter may be deleted exactly if nobody holds it and its last use was in an earlier interval |
| Counters.GrantExactly | src/counter/sockets.cpp:156-175 | in every run an acquire that does not overflow is granted exactly if what all connections hold and the amount fit into the maximum, and then this connection holds that much more; else nothing changes |
| Counters.GiveBackExactly | src/counter/sockets.cpp:176-193 | a release is granted exactly if the connection itself holds that much, and then it holds that much less; else nothing changes |
| Counters.GrantWithinMaximum | src/counter/sockets.cpp:156-174 | after a grant all connections together hold at most the maximum asked |
| Counters.LeavesNothing | src/counter/sockets.cpp:225-242 | a connection that has left `release_all` holds nothing |
| Counters.OverflowFails | src/counter/object.hpp:26 | a run with an overflow after which `release_all` reaches a reference whose counter was collected |
| Counters.ModularConservation | src/counter/object.hpp:26 | with any overflows, consumption and holdings stay congruent modulo 2^32 |
| Counters.ModularFromStart | src/counter/object.hpp:26 | so every counter shows its holdings modulo 2^32 |
| CounterSockets.CounterSocket.NoteAcquired | src/counter/sockets.cpp:202-209 | `on_acquire`, in 32 bits |
| CounterSockets.CounterSocket.NoteReleased | src/counter/sockets.cpp:211-223 | `on_release`: refused exactly if not as much was acquired; an entry released in full goes |
| CounterSockets.CounterSocket.CmdAcquire | src/counter/sockets.cpp:156-174 | table, entries and status after an acquire |
| CounterSockets.CounterSocket.CmdRelease | src/counter/sockets.cpp:176-192 | table, entries and status after a release |
| CounterSockets.CounterSocket.ReleaseAll | src/counter/sockets.cpp:225-242 | in any order of the entries it ends well exactly when each can be given back, and then each counter is lower by this connection's entry |
| CounterSockets.ReleaseAllSucceeds | src/counter/sockets.cpp:225-242 | which balanced books guarantee |
| SendQueue.SendQueue.constructor | cybozu/tcp.cpp:132-143 | the buffers are allocated once |
| SendQueue.SendQueue.Push | cybozu/tcp.cpp:170-184 | the kernel is given a prefix of the message, whatever the system calls answer |
| SendQueue.SendQueue.TakeBuffer | cybozu/tcp.cpp:213-222 | a buffer is taken from a free list that is not empty |
| SendQueue.SendQueue.Enqueue | cybozu/tcp.cpp:197-222 | the last buffer is filled first, then free ones; the queue grows by exactly the bytes |
| SendQueue.SendQueue.Send | cybozu/tcp.cpp:162-224 | blocked exactly without room, refused exactly after shutdown; an accepted message is one contiguous element of the stream; after an error the kernel has a prefix |
| SendQueue.Advance | cybozu/tcp.cpp:262-270 | the cursor over the pieces moves by exactly the bytes written |
| SendQueue.SendQueue.EnqueueV | cybozu/tcp.cpp:295-321 | the nested copying loops queue exactly the pieces |
| SendQueue.SendQueue.Sendv | cybozu/tcp.cpp:226-323 | the same for a message in pieces |
| SendQueue.SendQueue.WritePending | cybozu/tcp.cpp:325-387 | writing out keeps the stream, returns buffers to the free list, and closes exactly when all is sent after a shutdown |
| SendQueue.SendQueue.FreeBuffers | cybozu/tcp.cpp:145-160 | no buffer is left and nothing is accepted any more |
| SendQueue.SendQueue.SendClose | cybozu/tcp.hpp:131-145 | the last message; closed at once exactly when nothing is pending |
| SendQueue.SendQueue.SendvClose | cybozu/tcp.hpp:156-172 | the same for a message in pieces |
| SendQueue.Session | cybozu/tcp.cpp:162-387 | over any interleaving of senders and writers up to the first failed call: accepted messages are those of the accepted calls in order, the kernel has a prefix of them that the unsent bytes complete while no call failed, and nothing is accepted after a closing send |
| Eviction.EvictAgeBounds | src/memcache/gc.cpp:57-71 | 1 <= evict_age <= max(1, oldest_age), and below oldest_age from 2 on |
| Eviction.EvictAgeHalves | src/memcache/gc.cpp:64-68 | below two hours the age is half the oldest, rounded down, but 1 at least; from there on it is one hour less than the oldest |
| Eviction.OneHourExactly | src/memcache/gc.cpp:63 | an hour is the least number of runs that takes more than 3600 seconds |
| Eviction.FastConverges | src/memcache/gc.cpp:57-118 | one hour goes per run above two hours, and below them the oldest age halves: from oldest_age < (2 + j) hours and 2^k, memory is within the limit within j + k runs |
| Eviction.SizeClassExactly | src/memcache/gc.cpp:97-114 | the size classes end at 1 KiB, 4 KiB, and so on to 4 MiB |
| Eviction.MemoryCounted | src/memcache/gc.cpp:115-117 | used memory is the overhead per object, the bytes of all keys, and the data that stay in the heap |
| Eviction.ScanItemAgrees | src/memcache/gc.cpp:73-123 | the step of the GC thread in the concurrent model decides and ages as the run here |
| Eviction.AccessedSurvives | src/memcache/gc.cpp:80-86 | an object accessed since the last run is not evicted |
| Eviction.KeptExactly | src/memcache/gc.cpp:73-93 | exactly the objects the predicate spares survive, one run older |
| Eviction.RunAddsUp | src/memcache/gc.cpp:73-93 | survivors, evictions, expirations and flushed objects add up |
| Eviction.OverLimitProgress | src/memcache/gc.cpp:57-71 | left alone, a run over the limit lowers the oldest age or empties the table |
| Eviction.EvictionConverges | src/memcache/gc.cpp:57-118 | without requests and with nothing locked, memory is within the limit after at most oldest_age + 3 runs, whatever ages and statistics it starts with |
| Eviction.Visit | src/memcache/gc.cpp:73-125 | the predicate on one object updates every statistic rightly |
| Eviction.Bucket | src/memcache/gc.cpp:131-133 | one bucket: survivors in order, and a conflict counted exactly from two survivors on |
| Eviction.ChooseAge | src/memcache/gc.cpp:57-71 | the eviction age: positive exactly when nothing is flushed and memory is over the limit, and then half the oldest age or an hour less |
| Eviction.RunGc | src/memcache/gc.cpp:54-148 | the whole run: survivors of every bucket, statistics that describe them, and the step of the convergence argument |
| EvictionLocks.RestRuns | src/memcache/gc.cpp:57-91 | the memory of the locked objects, and of those that never expire and were accessed more than an hour after the oldest of them, stays the same over any number of runs |
| EvictionLocks.OnlyTheRest | src/memcache/gc.cpp:57-118 | over the limit all the time, nothing else is left after enough runs |
| EvictionLocks.ConvergesExactly | src/memcache/gc.cpp:57-118 | without requests and with accurate statistics the memory comes within its limit exactly if these objects fit into it, whatever the clock shows |
| EvictionLocks.ConvergesFromAny | src/memcache/gc.cpp:57-118 | the same from any statistics, in terms of what the first run leaves |
| EvictionLocks.LockHoldsUpEviction | src/memcache/gc.cpp:57-91 | two objects of 61 bytes and a limit of 100: with one of them locked four runs ago the memory never comes within the limit, though the locked one alone would fit |
| Text.WordsShape | src/memcache/memcache.cpp:164-236 | words are not empty, lie inside the line and advance strictly |
| Text.WordsCover | src/memcache/memcache.cpp:164-236 | the words hold exactly the bytes that are no spaces |
| Text.SkipSpaces | src/memcache/memcache.cpp:165 | the unbounded scan stops at or before the CR of the line |
| Text.Find | src/memcache/memcache.cpp:47-49 | the first occurrence inside the bounds, or none |
| Text.Tail | src/memcache/memcache.cpp:208-222 | an optional "noreply" and nothing else |
| Text.ParseStorage | src/memcache/memcache.cpp:163-237 | a storage line is accepted exactly if its words are key, flags, exptime, bytes, cas unique and "noreply"; the request is incomplete exactly while its data block has not arrived |
| Text.ParseKeyOnly | src/memcache/memcache.cpp:239-321 | delete, lock and unlock accept exactly one key, delete with "noreply" |
| Text.ParseKeyNumber | src/memcache/memcache.cpp:265-392 | touch, incr and decr accept exactly a key and a number, which becomes an expiration time for touch and an amount for the others |
| Text.ParseGet | src/memcache/memcache.cpp:394-402 | the first word is the first key |
| Text.ParseFlushAll | src/memcache/memcache.cpp:85-121 | an optional time that starts with a digit, an optional "noreply" |
| Text.Parse | src/memcache/memcache.cpp:414-553 | nothing is consumed before the line is complete, the request never exceeds the buffer, key and data lie inside it, each command accepts exactly its lines, and a storage request is incomplete exactly while its data block has not arrived |
| Text.NextKey | src/memcache/memcache.hpp:93-106 | the next word before the next CR, or the end |
| Text.AllKeys | src/memcache/memcache.hpp:93-106 | the iteration ends and yields the words of the line up to the first CR behind the first key |
| Text.NamedExactly | src/memcache/memcache.cpp:430-553 | a word is a command exactly if it is spelled like it |
| Text.StatsNamed | src/memcache/memcache.cpp:324-356 | the categories of stats are ops, items, sizes and settings |
| Text.Exptime | src/memcache/memcache.cpp:187-189 | 0 is never, up to 30 days is from now, the rest is a date |
| Text.TimesAgree | src/memcache/memcache.cpp:68-77 | a time means the same in both protocols, but for the one that means none |
| TextRequests.NumberArrivesExactly | src/memcache/memcache.cpp:51-66 | a decimal number at the end of a word is read exactly if it fits its type, and 2^64 - 1 only while no earlier range error is left in `errno` |
| TextRequests.LineShows | src/memcache/memcache.cpp:414-553 | the words of a line are those it was written with, however they are spaced |
| TextRequests.TextArrives | src/memcache/memcache.cpp:163-553 | the text request of any single-key command, however spaced and with anything behind it, is valid, as long as it is, and that command: key, data, flags, time, unique number, amount and "noreply" |

## Left out

- System calls, epoll, eventfd and socket options: their results are parameters (bytes taken, would block, interrupted, error).
- Weak memory ordering: atomic accesses and critical sections are sequentially consistent steps.
- The worker's start: `run` stores the idle flag once more when the thread begins (cybozu/worker.hpp:79), which can race with the first job; workers are modelled as started.
- The end of master mode (src/server.cpp:157-170), slave-mode reclamation (src/server.cpp:94-126) and the election by virtual address.
- The readable list of the reactor (cybozu/reactor.cpp:105-114): a job may be posted for any reason.
- Drop requests in the step machine are taken one at a time from one queue; `Handler.Reactor.ProcessDrops` has the loop over the swapped list.
- When a GC thread starts is free in the step machine; `Handler.MemcacheHandler.GcReady` has the decision.
- `unlock_all` and `release_all` clear their list at the end; the step machines drop each element when it is released, which nothing can tell apart because the list is not read in between.
- Responses to clients beyond their status (a text append or prepend without an object answers NOT_STORED, which is NotFound here), statistics other than those of a GC run, and the logger.
- SipHash and the prime number of buckets: any hash function and any positive number of buckets.
- The memory allocator's failures, secure erasing of buffers, and errors of temporary files.
- The flushing of old files in `survive`.
- `strtoull` is a parameter of the text parser; `TextRequests.ToUint` is that parameter for a buffer, with `errno` as a parameter and as far as the buffer goes: the code has no bound there.  Text requests are not part of the chunk results, where a first byte other than 0x80 ends a binary stream.
- Text commands stats and verbosity keep only whether the line is accepted.
- 32-bit wrap-around of GC statistics and ages, and 64-bit clocks.
- CAS values on slaves, which are not replicated by design.
- Commands without a key (flush, noop, version, stats, quit, keys): they change no object; the pending flush time and the clock are parameters of every command and GC step.
- `foreach` over the hash map, which only the `keys` and `dump` commands use, and the bucket locks, which are steps of `World`.
- Buffers.Tempfile.Write: errors of the system call, which throw, are not modelled.
- Buffers.Tempfile.ReadContents: errors of the system call, which throw, are not modelled.
- Frames.ParseLoop: one kind of request per connection; a memcache connection that mixes text and binary requests is not modelled, because a text request ends where its numbers say.
- Frames.Receiver.ReceiveJob: the release of locks and the closing of the connection behind a reset are one result here; their steps are in `World` and `Protocol`.
- Handler.Reactor.Remove: an error of the epoll deletion, which throws, is not modelled.
- SendQueue.Session: ends with the first failed call.  The failing thread gives up the mutex before it invalidates the socket (cybozu/reactor.hpp:149-160), so a sender that passed the validity test before can still send behind the torn message; that window is not modelled.
- Streams.BinaryServed: a text request on the same connection counts as the end of the binary stream, as for `Frames.ParseLoop`.
- WorldRepl.ReplicaAgreement: about messages; `WorldWire.ByteAgreement` is about the bytes, for slaves none of whose messages reached 4 GiB.
- Streams.MasterToSlave: messages with a body of 4 GiB or more are excluded, which `Streams.BoundariesExactly` shows to be necessary.
