# A verified model of the memcached example server

This project models a small memcached client and server in Dafny, and proves what the
three layers it stands on promise.

* **The reader/writer lock** (`LockSteps`, `Locks`, `LockInvariant`, `LockProgress`, `LockExclusion`,
  `LockService`): one atomic counter, one plain counter, a recursive mutex and two manual-reset
  events, used by any number of threads, each source line a step of its own. Counter laws,
  gate closure, no lost wakeup, progress, and where exactly a call waits hold at that grain. Exclusion of readers and writers, which the
  comment at ReadWriteLock.h:12-19 promises, does not: it is proved with LockRead and UnlockRead as
  single steps, and at the line grain for guarded runs, those in which no writer passes its
  wait while some thread is past the read gate. It is shown exactly when a writer can be joined
  by a reader, with a run in which that happens.
* **The byte buffer and the wire codec** (`Bytes`, `DataBuffers`, `ByteQueue`, `Wire`, `WireNumbers`,
  `Messages`, `Sockets`): the growing buffer with its two offsets, the messages of the memcached
  binary protocol built in place and parsed back, their bytes in plain numbers, and the receive
  loops over a stream that is cut into arbitrary chunks. Objects and their in-place updates are classes; their contracts tie them to
  byte strings, about which the laws are proved.
* **The cache and the whole path** (`CacheProtocol`, `Linearizability`, `TornReply`, `Service`,
  `Server`, `Client`, `EndToEnd`, `ForeignFrames`, `Sessions`): the handlers in small steps under the lock, linearizable in
  guarded runs, with an unguarded run that tears a reply; the map of deep-copied buffers, a
  client's call as bytes from Build to the parsed reply, and the sessions of the server.

Widths are those of the Win32 target: `size_t`, `int` and offsets have 32 bits and wrap around, a key
length has 16 bits, an extras length 8. Keys and values are byte strings.

Some things hold only under conditions which the theorems state exactly: a long long whose bit 31 is
set is read back with its high word all ones; a key of more than 65535 bytes is cut at its
length modulo 65536, and the rest of it becomes part of the value; a second Build of
anything but a GetRequest adds to the total of the first; a thread past line 58 of
ReadWriteLock.cpp is not yet visible to a writer.

`dafny verify dfyconfig.toml` checks the whole project.

## Model

| member | source | states |
|---|---|---|
| `Locks.ReadWriteLock.constructor` | MemcachedLib/MemcachedLib/ReadWriteLock.cpp:36-44 | a new lock has zero counters, both events signalled and a free mutex |
| `Locks.ReadWriteLock.LockRead` | MemcachedLib/MemcachedLib/ReadWriteLock.cpp:55-64 | one line of LockRead by one thread, in place: wait for the write event; increment; reset the read event if the counter was zero; the object keeps the invariant of all runs |
| `Locks.ReadWriteLock.UnlockRead` | MemcachedLib/MemcachedLib/ReadWriteLock.cpp:66-72 | one line of UnlockRead: decrement, and raise the read event only after reaching zero; the invariant is kept |
| `Locks.ReadWriteLock.LockWrite` | MemcachedLib/MemcachedLib/ReadWriteLock.cpp:74-87 | one line of LockWrite: recursive mutex, write event down, increment, wait for the read event only for the outermost lock; the invariant is kept |
| `Locks.ReadWriteLock.UnlockWrite` | MemcachedLib/MemcachedLib/ReadWriteLock.cpp:89-98 | one line of UnlockWrite: decrement, raise the write event at zero, release one level of the mutex; the invariant is kept |
| `LockInvariant.StepKeepsInv` | MemcachedLib/MemcachedLib/ReadWriteLock.cpp:55-98 | every line of every thread keeps the lock invariant (counters, mutex, events) |
| `LockInvariant.CounterLaws` | MemcachedLib/MemcachedLib/ReadWriteLock.cpp:60-91 | in every run the read counter is the number of threads between their increment and decrement, the write counter is the mutex holder's open increments, and the write section, nested or not, has at most one thread |
| `LockInvariant.NoLostWakeup` | MemcachedLib/MemcachedLib/ReadWriteLock.cpp:58-97 | in every run an unsignalled read event has a counted reader or a thread about to raise it, and the write event is unsignalled exactly while a mutex holder stands between lines 80 and 94 |
| `LockInvariant.GateClosure` | MemcachedLib/MemcachedLib/ReadWriteLock.cpp:58-94 | while a writer is between lines 80 and 94 the set of threads past the read gate only shrinks |
| `LockProgress.DisciplinedRunKeeps` | MemcachedLib/MemcachedLib/ReadWriteLock.cpp:55-98 | threads that never nest a read lock in another lock, nor a write lock in a read lock, stay that way, with the lock invariant |
| `LockProgress.NoDeadlockInAnyRun` | MemcachedLib/MemcachedLib/ReadWriteLock.cpp:55-98 | in every disciplined run, as long as some thread is not idle, some such thread can take a step that acquires nothing new |
| `LockProgress.EveryScheduleDrains` | MemcachedLib/MemcachedLib/ReadWriteLock.cpp:55-98 | every schedule of steps that acquire nothing new is bounded by the open work, and when no such step is left every thread is idle and the lock is exactly as constructed |
| `LockProgress.Drain` | MemcachedLib/MemcachedLib/ReadWriteLock.cpp:55-98 | there is such a schedule to the idle state, if the open work is below 2^32 - 1 |
| `LockProgress.ReadInsideOwnWriteSticks` | MemcachedLib/MemcachedLib/ReadWriteLock.cpp:55-87 | a run in which a thread that takes a read lock inside its own write lock is stuck for ever |
| `LockProgress.WriteInsideOwnReadSticks` | MemcachedLib/MemcachedLib/ReadWriteLock.cpp:55-87 | a run in which a thread that takes a write lock inside its own read lock is stuck for ever |
| `LockProgress.QuiescentIsInitial` | MemcachedLib/MemcachedLib/ReadWriteLock.cpp:36-98 | with all threads idle the lock is exactly as constructed |
| `LockService.BlockedIff` | MemcachedLib/MemcachedLib/ReadWriteLock.cpp:55-98 | in every run a started call is blocked if and only if it stands at line 58 with the gate shut, at line 77 with another thread in the write section, or at line 85 with the read event down |
| `LockService.CallsAreFree` | MemcachedLib/MemcachedLib/ReadWriteLock.cpp:55-98 | a thread outside may always start a LockRead or LockWrite, and the Unlock of exactly the locks it holds |
| `LockService.WriterShutsGate` | MemcachedLib/MemcachedLib/ReadWriteLock.cpp:77-80 | in every run a writer at line 77, with no other thread in the write section, has shut the gate after two lines of its own, whatever readers there are |
| `LockService.ReaderIsCounted` | MemcachedLib/MemcachedLib/ReadWriteLock.cpp:58-60 | in every run, with the gate open, a caller of LockRead is counted after two lines of its own |
| `LockService.WriterGetsLock` | MemcachedLib/MemcachedLib/ReadWriteLock.cpp:85 | in every run a writer at its wait goes on as soon as no reader is counted and none is about to set the read event |
| `LockService.WriterNests` | MemcachedLib/MemcachedLib/ReadWriteLock.cpp:74-87 | in every run a holder of the write lock that locks it again has it after three lines of its own |
| `LockService.ReaderLeaves` | MemcachedLib/MemcachedLib/ReadWriteLock.cpp:66-72 | UnlockRead never waits: after at most two lines of its own the hold is gone |
| `LockService.WriterLeaves` | MemcachedLib/MemcachedLib/ReadWriteLock.cpp:89-98 | UnlockWrite never waits: after at most three lines one mutex level is given back, and the gate opens with the outermost level only |
| `LockService.ReadersShare` | MemcachedLib/MemcachedLib/ReadWriteLock.h:12-19 | readers do not block readers: any number of threads below 2^32 can hold the read lock at once |
| `LockService.WritersNest` | MemcachedLib/MemcachedLib/ReadWriteLock.cpp:74-87 | a thread can nest its write lock to any depth below 2^32, within the calling discipline |
| `LockExclusion.BlockIsPath` | MemcachedLib/MemcachedLib/ReadWriteLock.cpp:55-98 | LockRead and UnlockRead as single steps are runs of the line-by-line machine |
| `LockExclusion.Exclusion` | MemcachedLib/MemcachedLib/ReadWriteLock.h:12-19 | with LockRead and UnlockRead as single steps: in every run a writer past its wait and a reader never coexist, the read event is signalled exactly when nobody reads, and there is one writer |
| `LockExclusion.OverlapIffSomeonePastGate` | MemcachedLib/MemcachedLib/ReadWriteLock.cpp:58-85 | line by line, a writer that passes line 85 can be joined by a reader if and only if some thread is past the read gate at that moment |
| `LockExclusion.GuardedExclusion` | MemcachedLib/MemcachedLib/ReadWriteLock.cpp:55-98 | with every line a step: in every run in which no writer passes line 85 while some thread is past the read gate, a writer past its wait and a reader never coexist |
| `LockExclusion.BlockStepsAreGuarded` | MemcachedLib/MemcachedLib/ReadWriteLock.cpp:55-98 | where LockRead and UnlockRead are single steps that condition always holds |
| `LockExclusion.ReaderAndWriterTogether` | MemcachedLib/MemcachedLib/ReadWriteLock.cpp:58-85 | a concrete line-by-line run in which one thread holds the read lock and another the write lock |
| `CacheProtocol.MoveKeepsInv` | MemcachedLib/MemcachedLib/MemcacheServer.cpp:95-146 | every small step of a Get, Set or Clear handler, and every guarded lock step, a single line or a whole LockRead or UnlockRead, keeps the system invariant |
| `CacheProtocol.DataNeverBlocks` | MemcachedLib/MemcachedLib/MemcacheServer.cpp:95-146 | under the invariant a handler inside its lock can always take its next step on the map |
| `CacheProtocol.HandlersNeverDeadlock` | MemcachedLib/MemcachedLib/MemcacheServer.cpp:95-207 | under the invariant, as long as some handler is under way some handler can take a step |
| `CacheProtocol.HandlerWaitsIff` | MemcachedLib/MemcachedLib/MemcacheServer.cpp:95-207 | under the invariant a handler under way has no next step if and only if its lock call must wait |
| `CacheProtocol.AnyRequestMayBegin` | MemcachedLib/MemcachedLib/MemcacheServer.cpp:88-151 | a thread without a request may begin any Get, any Set and a Clear |
| `CacheProtocol.WholeRunsAreGuarded` | MemcachedLib/MemcachedLib/ReadWriteLock.cpp:55-72 | runs that take LockRead and UnlockRead as single steps are guarded, so all that follows holds for them |
| `Linearizability.TakesEffectOnce` | MemcachedLib/MemcachedLib/MemcacheServer.cpp:88-151 | in every run, guarded or not, exactly one effect of a handler is logged between its begin and its return: that of the request it was given, with exactly the reply it returns |
| `Linearizability.EveryEffectHasItsHandler` | MemcachedLib/MemcachedLib/MemcacheServer.cpp:88-151 | in every run each logged effect is that of a handler that had begun, logged in the very step in which that handler became done |
| `Linearizability.RealTimeOrder` | MemcachedLib/MemcachedLib/MemcacheServer.cpp:88-151 | in every run a handler that returns before another begins takes effect before it |
| `Linearizability.EffectUnderWriteLock` | MemcachedLib/MemcachedLib/MemcacheServer.cpp:136-138 | in every guarded run (no writer passes line 85 of ReadWriteLock.cpp while some thread is past the read gate), a Set or Clear gets the write lock exactly once, and holds it until after it has taken effect |
| `Linearizability.WriteLockOrder` | MemcachedLib/MemcachedLib/MemcacheServer.cpp:136-207 | in every guarded run (no writer passes line 85 of ReadWriteLock.cpp while some thread is past the read gate), of two Sets or Clears the one that gets the write lock first takes effect first, and conversely |
| `Linearizability.Linearizable` | MemcachedLib/MemcachedLib/MemcacheServer.cpp:95-207 | in every guarded run (no writer passes line 85 of ReadWriteLock.cpp while some thread is past the read gate), the effects in their order are a sequential run on a plain map: each Get answers what the effects before it leave, and with no Set half-way the cache is that map |
| `Linearizability.NoTornReply` | MemcachedLib/MemcachedLib/MemcacheServer.cpp:99-117 | in every guarded run (no writer passes line 85 of ReadWriteLock.cpp while some thread is past the read gate), flags and value of the reply a Get returns are those of one Set, the latest of that key since the last Clear at the moment the Get takes effect, which lies between its begin and its return; without one the reply is key-not-found; an entry without buffer is never seen |
| `Linearizability.IteratorsStayValid` | MemcachedLib/MemcachedLib/MemcacheServer.cpp:101-107 | in every guarded run (no writer passes line 85 of ReadWriteLock.cpp while some thread is past the read gate), the map iterator a Get works with is never invalidated by other threads |
| `TornReply.TornReplyRun` | MemcachedLib/MemcachedLib/ReadWriteLock.cpp:58-85 | a run with every line a step, not guarded, in which a Get returns the flags of one Set with the value of another, an answer no sequential run gives |
| `CacheProtocol.ModelHasLatestSet` | MemcachedLib/MemcachedLib/MemcacheServer.cpp:136-207 | what the plain map holds for a key is what its latest Set since the last Clear gave |
| `CacheProtocol.LatestSetInModel` | MemcachedLib/MemcachedLib/MemcacheServer.cpp:136-207 | a key with such a Set is in the plain map |
| `Bytes.BE8RoundTrip` | MemcachedLib/MemcachedLib/DataBuffer.cpp:215-248 | writing and reading a long long gives it back if and only if bit 31 is clear or the high word is all ones; otherwise the high word comes back all ones |
| `DataBuffers.DataBuffer.WithSize` | MemcachedLib/MemcachedLib/DataBuffer.cpp:32-39 | an array of the given size, both offsets zero |
| `DataBuffers.DataBuffer.Copy` | MemcachedLib/MemcachedLib/DataBuffer.cpp:14-30 | a deep copy, offsets included; a zero-size source gives an empty buffer |
| `DataBuffers.DataBuffer.Alloc` | MemcachedLib/MemcachedLib/DataBuffer.cpp:46-54 | a new array, both offsets zero |
| `DataBuffers.DataBuffer.Realloc` | MemcachedLib/MemcachedLib/DataBuffer.cpp:56-87 | keeps what has been written as far as it fits; the read offset ends at the write offset instead of being restored |
| `DataBuffers.DataBuffer.Cleanup` | MemcachedLib/MemcachedLib/DataBuffer.cpp:89-95 | drops the array and the offsets but leaves the size stale |
| `DataBuffers.DataBuffer.ReadByte` | MemcachedLib/MemcachedLib/DataBuffer.cpp:144-152 | the byte at the read offset, written or not, or zero past the end of the array |
| `DataBuffers.DataBuffer.WriteByte` | MemcachedLib/MemcachedLib/DataBuffer.cpp:154-163 | puts the byte at the write offset, or changes nothing when it does not fit |
| `DataBuffers.DataBuffer.ReadShort` | MemcachedLib/MemcachedLib/DataBuffer.cpp:165-175 | big-endian 16-bit value inside the array, after which the read offset is not past the write offset; zero and no move outside the array |
| `DataBuffers.DataBuffer.WriteShort` | MemcachedLib/MemcachedLib/DataBuffer.cpp:177-187 | puts two bytes, or changes nothing |
| `DataBuffers.DataBuffer.ReadInt` | MemcachedLib/MemcachedLib/DataBuffer.cpp:189-199 | the same for a big-endian 32-bit value |
| `DataBuffers.DataBuffer.WriteInt` | MemcachedLib/MemcachedLib/DataBuffer.cpp:201-213 | puts four bytes, or changes nothing |
| `DataBuffers.DataBuffer.ReadLongLong` | MemcachedLib/MemcachedLib/DataBuffer.cpp:215-230 | big-endian 64-bit value whose low word is sign-extended over the high one |
| `DataBuffers.DataBuffer.WriteLongLong` | MemcachedLib/MemcachedLib/DataBuffer.cpp:232-248 | puts eight bytes, or changes nothing |
| `DataBuffers.DataBuffer.ReadBytes` | MemcachedLib/MemcachedLib/DataBuffer.cpp:250-259 | copies what is left to read, up to the number asked for, and leaves the rest of the destination |
| `DataBuffers.DataBuffer.WriteBytes` | MemcachedLib/MemcachedLib/DataBuffer.cpp:271-281 | puts as many bytes as fit |
| `DataBuffers.PutExact` | MemcachedLib/MemcachedLib/DataBuffer.cpp:154-281 | a write that fits changes exactly the bytes from the write offset on and moves it by their number; one that does not fit changes nothing |
| `DataBuffers.DataBuffer.GetBytesLeftToRead` | MemcachedLib/MemcachedLib/DataBuffer.cpp:293-300 | what is left leads from the read offset to the write offset, and there is something left exactly when the read offset is behind |
| `DataBuffers.DataBuffer.GetBytesLeftForWrite` | MemcachedLib/MemcachedLib/DataBuffer.cpp:302-309 | write offset plus the result is the buffer size |
| `DataBuffers.DataBuffer.MoveReadForward` | MemcachedLib/MemcachedLib/DataBuffer.cpp:311-314 | moves with 32-bit wrap-around, clamped to the write offset |
| `DataBuffers.DataBuffer.MoveReadBackward` | MemcachedLib/MemcachedLib/DataBuffer.cpp:316-325 | moves back with 32-bit wrap-around; past the write offset it becomes zero |
| `DataBuffers.DataBuffer.MoveWriteForward` | MemcachedLib/MemcachedLib/DataBuffer.cpp:327-330 | moves with 32-bit wrap-around, clamped to the size |
| `DataBuffers.DataBuffer.MoveWriteBackward` | MemcachedLib/MemcachedLib/DataBuffer.cpp:332-341 | moves back with 32-bit wrap-around; past the size it becomes zero |
| `DataBuffers.DataBuffer.Assign` | MemcachedLib/MemcachedLib/DataBuffer.cpp:343-360 | a deep copy; a zero-size source, or the buffer itself, changes nothing |
| `DataBuffers.MoveReadBackwardExact` | MemcachedLib/MemcachedLib/DataBuffer.cpp:316-325 | moving back by len is max(0, offset - len) if and only if it does not wrap or wraps past the write offset |
| `DataBuffers.MoveForwardExact` | MemcachedLib/MemcachedLib/DataBuffer.cpp:311-330 | moving forward by len is min(offset + len, limit) if and only if the sum does not wrap |
| `ByteQueue.TypedQueue` | MemcachedLib/MemcachedLib/DataBuffer.cpp:56-281 | for every sequence of writes that fits, with any growing reallocations in between, the matching reads return the same values in order if and only if every long long has bit 31 clear or its high word all ones |
| `ByteQueue.WriteThenRead` | MemcachedLib/MemcachedLib/DataBuffer.cpp:56-281 | the same law for a buffer object: its write and Realloc methods, ResetRead and its read methods, called in turn |
| `Wire.HeaderRoundTrip` | MemcachedLib/MemcachedLib/MemcacheMessages.cpp:41-75 | the 24-byte header round-trips if and only if its CAS has bit 31 clear or its high word all ones |
| `Wire.LayoutIff` | MemcachedLib/MemcachedLib/MemcacheMessages.cpp:138-159 | what Build leaves is header, extras, key, value with lengths that say so if and only if the key has at most 65535 bytes and no earlier Build left its total in the header |
| `Wire.LayoutIffKeyFits` | MemcachedLib/MemcachedLib/MemcacheMessages.cpp:144-146 | the bytes of a fresh message have the simple layout if and only if the key fits its 16-bit length |
| `Wire.RoundTrip` | MemcachedLib/MemcachedLib/MemcacheMessages.cpp:119-468 | for each class and every key and value: parsing the built bytes accepts exactly when a request keeps a key on the wire and a SetRequest has a value, and gives the fields that were put on the wire |
| `Wire.RoundTripExact` | MemcachedLib/MemcachedLib/MemcacheMessages.cpp:119-468 | with a key of at most 65535 bytes key, value, flags, expiry and status come back exactly |
| `Wire.GetRequestCanonical` | MemcachedLib/MemcachedLib/MemcacheMessages.cpp:240-289 | any buffer GetRequest accepts with zero data type, status, opaque and CAS is reproduced byte for byte by building a GetRequest with the parsed key, whatever the building object held |
| `WireNumbers.BuiltByNumbers` | MemcachedLib/MemcachedLib/MemcacheMessages.cpp:59-75 | the 24 header bytes each of the four classes builds, in numbers: magic, opcode and extras length; key length, total, opaque and CAS most significant byte first |
| `WireNumbers.BuiltBodyByNumbers` | MemcachedLib/MemcachedLib/MemcacheMessages.cpp:323-454 | what follows the header: flags and expiry most significant byte first, then key, then value |
| `WireNumbers.BuiltHeaderByNumbers` | MemcachedLib/MemcachedLib/MemcacheMessages.cpp:138-159 | the header every Build leaves, repeated Builds included: lengths are added to the total of an earlier one, other fields stay; a GetRequest starts from zeros |
| `WireNumbers.DispatchByNumbers` | MemcachedLib/MemcachedLib/MemcacheSocket.cpp:308-335 | the four supported combinations of magic and opcode; every other is unsupported |
| `WireNumbers.GetRequestAccepts` | MemcachedLib/MemcachedLib/MemcacheMessages.cpp:240-275 | for every byte string: GetRequest accepts exactly 0x80, 0x00, no extras and a non-empty key that is the whole body; opaque, data type, status and CAS do not matter |
| `WireNumbers.SetRequestAccepts` | MemcachedLib/MemcachedLib/MemcacheMessages.cpp:380-406 | for every complete byte string: SetRequest accepts exactly eight bytes of extras, a key and a value that are not empty; and where flags, expiry, key and value are found |
| `WireNumbers.GetResponseAccepts` | MemcachedLib/MemcachedLib/MemcacheMessages.cpp:302-370 | for every complete byte string: GetResponse accepts exactly four bytes of extras; and where status, flags, key and value are found |
| `WireNumbers.SetResponseAccepts` | MemcachedLib/MemcachedLib/MemcacheMessages.cpp:473-487 | for every byte string: SetResponse accepts every header whose key is all there |
| `WireNumbers.GetFrameAcceptedIff` | MemcachedLib/MemcachedLib/MemcacheMessages.cpp:240-275 | any header in front of a body of its length is a valid GetRequest if and only if magic, opcode, extras and lengths say so, whatever its other fields |
| `WireNumbers.SetFrameAcceptedIff` | MemcachedLib/MemcachedLib/MemcacheMessages.cpp:380-406 | the same for SetRequest, with its fields |
| `WireNumbers.FrameIsCut` | MemcachedLib/MemcachedLib/MemcacheSocket.cpp:280-301 | any header of any magic and opcode with a body of its TotalBodyLen bytes is one message of 24 + TotalBodyLen bytes, whatever follows |
| `Messages.WriteHeader` | MemcachedLib/MemcachedLib/MemcacheMessages.cpp:59-75 | writes the 24 header bytes, or nothing when they do not fit |
| `Messages.ParseHeader` | MemcachedLib/MemcachedLib/MemcacheMessages.cpp:41-57 | the header found at the read offset, or nothing when less than 24 bytes are left |
| `Messages.Message.constructor` | MemcachedLib/MemcachedLib/MemcacheMessages.cpp:80-83 | a blank message over a buffer of its own; a SetRequest's expiry is arbitrary |
| `Messages.Message.WriteExtras` | MemcachedLib/MemcachedLib/MemcacheMessages.cpp:416-433 | appends flags, or flags and expiry, as many whole fields as there is room for |
| `Messages.Message.WriteKey` | MemcachedLib/MemcachedLib/MemcacheMessages.cpp:181-197 | appends the whole key, reallocating when needed, and stores its length modulo 65536 |
| `Messages.Message.WriteValue` | MemcachedLib/MemcachedLib/MemcacheMessages.cpp:446-454 | appends the value, reallocating when needed |
| `Messages.Message.BaseBuild` | MemcachedLib/MemcachedLib/MemcacheMessages.cpp:138-159 | gap, body, then header over the gap: the memory starts with the header and the body, and the write offset is 24 + TotalBodyLen as far as the buffer reaches |
| `Messages.Message.Build` | MemcachedLib/MemcachedLib/MemcacheMessages.cpp:277-289 | the four Builds produce in place, with or without reallocation, the bytes of the simple specification for a message not built before; the simple layout if and only if the key fits and there is no stale total |
| `Messages.Message.ReadExtras` | MemcachedLib/MemcachedLib/MemcacheMessages.cpp:435-444 | extras are read only when their length is that of the class |
| `Messages.Message.ReadKey` | MemcachedLib/MemcachedLib/MemcacheMessages.cpp:199-215 | the key at the read offset, or failure when it is not all there |
| `Messages.Message.ReadValue` | MemcachedLib/MemcachedLib/MemcacheMessages.cpp:456-468 | the value after key and extras; an empty one leaves the old value |
| `Messages.Message.BaseParse` | MemcachedLib/MemcachedLib/MemcacheMessages.cpp:119-136 | header, extras, key and value are all read, whatever the earlier parts say |
| `Messages.Message.Parse` | MemcachedLib/MemcachedLib/MemcacheMessages.cpp:240-275 | verdict and fields of the four Parses are a function of the received bytes and the object's earlier fields |
| `Messages.Message.Assign` | MemcachedLib/MemcachedLib/MemcacheClient.cpp:52-64 | assigning a message copies its fields, deep-copies its value and shares its buffer |
| `Sockets.MemcacheSocket.Recv` | MemcachedLib/MemcachedLib/MemcacheSocket.cpp:257-260 | a chunk of any positive size up to the number asked for lands at the write pointer, inside the buffer |
| `Sockets.MemcacheSocket.Fill` | MemcachedLib/MemcachedLib/MemcacheSocket.cpp:289-301 | the receive loop takes exactly the missing bytes from the stream, however it is cut into chunks |
| `Sockets.MemcacheSocket.ReceiveHeader` | MemcachedLib/MemcachedLib/MemcacheSocket.cpp:250-274 | 24 bytes from the front of the stream, and the header in them |
| `Sockets.MemcacheSocket.ReceiveFrame` | MemcachedLib/MemcachedLib/MemcacheSocket.cpp:250-301 | exactly 24 + TotalBodyLen bytes, growing the buffer only when needed |
| `Sockets.MemcacheSocket.Dispatch` | MemcachedLib/MemcachedLib/MemcacheSocket.cpp:308-335 | a fresh object of the class that magic and opcode name; for any other opcode the previous object stays |
| `Sockets.MemcacheSocket.Receive` | MemcachedLib/MemcachedLib/MemcacheSocket.cpp:242-343 | for a supported opcode verdict, class and fields depend on the frame alone, not on chunks, buffer size or earlier messages; for any other opcode the previous object is parsed over the new bytes |
| `Sockets.VerdictFromFrame` | MemcachedLib/MemcachedLib/MemcacheSocket.cpp:308-339 | the fields an object starts with do not reach an accepted result |
| `Service.FramingWithTail` | MemcachedLib/MemcachedLib/MemcacheSocket.cpp:212-301 | a concatenation of well-formed messages with less than a header behind it is cut at the message boundaries: cache and replies are those of the messages one by one, and exactly the tail stays unread |
| `Service.FramingIsExact` | MemcachedLib/MemcachedLib/MemcacheSocket.cpp:250-301 | in particular nothing stays unread at a message boundary |
| `Server.MemcacheServer.EntriesAreDisjoint` | MemcachedLib/MemcachedLib/MemcacheServer.cpp:130-138 | two stored entries never share a buffer or an array, in any state the handlers reach |
| `Server.MemcacheServer.OnReceivedMessage` | MemcachedLib/MemcachedLib/MemcacheServer.cpp:88-151 | cache and reply follow the value-level handler; the reply is newly allocated and shares nothing with cache or request; nothing but the server object is changed; the casts are type-correct |
| `Server.MemcacheServer.OnGet` | MemcachedLib/MemcachedLib/MemcacheServer.cpp:97-121 | a reply with deep-copied value and the flags of the entry, or key-not-found, or not-stored for an entry without buffer |
| `Server.MemcacheServer.CopyEntry` | MemcachedLib/MemcachedLib/MemcacheServer.cpp:104-113 | a found entry goes into the reply as a deep copy with its flags, or as not-stored when it has no buffer |
| `Server.MemcacheServer.OnSet` | MemcachedLib/MemcachedLib/MemcacheServer.cpp:122-146 | the entry holds the request's flags and a deep copy of its value; status no-error |
| `Server.MemcacheServer.Store` | MemcachedLib/MemcachedLib/MemcacheServer.cpp:136-138 | replaces exactly one entry of the map; the new buffer has one owner |
| `Server.MemcacheServer.ClearDataCache` | MemcachedLib/MemcachedLib/MemcacheServer.cpp:202-207 | empties the cache |
| `Server.MemcacheServer.BuildReply` | MemcachedLib/MemcachedLib/MemcacheSocket.cpp:345-360 | what is sent back are the built bytes of the reply |
| `Server.MemcacheServer.ReadMessage` | MemcachedLib/MemcachedLib/MemcacheSocket.cpp:242-371 | one call consumes one frame and leaves the cache and the sent bytes of the value-level server |
| `Server.MemcacheServer.Run` | MemcachedLib/MemcachedLib/MemcacheSocket.cpp:171-240 | the read loop of a connection serves the whole stream as the value-level server does, for every chunking, and stops with less than a header |
| `Server.ReplyIsSnapshot` | MemcachedLib/MemcachedLib/MemcacheServer.cpp:104-145 | a reply once produced stays what the cache gave at the time through any sequence of later frames (Gets, Sets, others) and Clears; stored entries, the read buffer with the request value, and the reply share no object or array |
| `ForeignFrames.GetIsServed` | MemcachedLib/MemcachedLib/MemcacheServer.cpp:95-121 | a Get of any sender, whatever its opaque, data type, status and CAS, is answered from the cache |
| `ForeignFrames.SetIsServed` | MemcachedLib/MemcachedLib/MemcacheServer.cpp:122-146 | a Set of any sender stores its entry and is acknowledged |
| `ForeignFrames.OthersArePassedOver` | MemcachedLib/MemcachedLib/MemcacheSocket.cpp:308-370 | a message whose magic is not 0x80, or whose opcode is neither 0x00 nor 0x01, changes nothing and is not answered |
| `ForeignFrames.InvalidRequestsArePassedOver` | MemcachedLib/MemcachedLib/MemcacheSocket.cpp:337-366 | nor do requests with wrong extras, an empty key or an empty value |
| `ForeignFrames.ReadOneMessage` | MemcachedLib/MemcachedLib/MemcacheSocket.cpp:242-371 | ReadMessage on a stream that starts with a message of any magic and opcode leaves exactly what follows the message |
| `ForeignFrames.GetReplyIsDelivered` | MemcachedLib/MemcachedLib/MemcacheClient.cpp:45-72 | what a client makes of any server's answer to a Get, by its status |
| `ForeignFrames.SetReplyIsDelivered` | MemcachedLib/MemcachedLib/MemcacheClient.cpp:45-72 | what a client makes of any server's answer to a Set: success is status 0 |
| `ForeignFrames.RepliesByNumbers` | MemcachedLib/MemcachedLib/MemcacheDefs.h:19-40 | the status bytes of the answer to a Get are 0, 1 without an entry, 0, 5 for an entry without a buffer, and 0, 0 with flags and value for a hit |
| `ForeignFrames.SetFrameInFull` | MemcachedLib/MemcachedLib/MemcacheSocket.cpp:242-371 | 35 literal bytes of a Set: they store the entry in whatever cache and are answered by 24 literal bytes |
| `Client.MemcacheClient.OnReceivedMessage` | MemcachedLib/MemcachedLib/MemcacheClient.cpp:45-72 | a response is kept as a newly allocated message with the same fields; any other message leaves the kept one; the casts are type-correct |
| `Client.MemcacheClient.ReadMessage` | MemcachedLib/MemcachedLib/MemcacheSocket.cpp:242-371 | with the client as handler: the response delivered is what the first frame parses to |
| `Client.MemcacheClient.Send` | MemcachedLib/MemcachedLib/MemcacheSocket.cpp:156-169 | a built request is served, and the reply bytes arrive |
| `Client.MemcacheClient.Set` | MemcachedLib/MemcachedLib/MemcacheClient.cpp:79-127 | for every key and value: true if and only if the client is connected, a key is left on the wire and there is a value; then exactly one entry of the server's cache is set, to flags and value as they appear on the wire |
| `Client.MemcacheClient.Get` | MemcachedLib/MemcachedLib/MemcacheClient.cpp:129-185 | for every key: true if and only if the client is connected and what the wire leaves of the key is in the server's cache; then flags and bytes are those stored, otherwise the caller's are untouched; the cache does not change |
| `Client.Connected` | MemcachedLib/MemcachedLib/MemcacheClient.cpp:15-27 | a new client connected to a new server, with nothing under way and an empty cache |
| `EndToEnd.SetExact` | MemcachedLib/MemcachedLib/MemcacheClient.cpp:79-127 | the same for a Set as bytes: for every cache, key, value and uninitialised expiry |
| `EndToEnd.GetExact` | MemcachedLib/MemcachedLib/MemcacheClient.cpp:129-185 | the same for a Get as bytes, with the status of the reply |
| `EndToEnd.PerformStocked` | MemcachedLib/MemcachedLib/MemcacheMessages.cpp:380-406 | no call ever leaves an entry with an empty key, a key over 65535 bytes, a missing buffer or an empty value |
| `EndToEnd.CallIsPlainIff` | MemcachedLib/MemcachedLib/MemcacheClient.cpp:79-185 | a call does exactly what a plain map does if and only if it is a Set with a key of 1 to 65535 bytes and a value, or a Get whose key is not truncated to nothing nor to a stored key, or a Clear |
| `EndToEnd.HistoryIsPlainIff` | MemcachedLib/MemcachedLib/MemcacheServer.cpp:88-151 | a whole history agrees with the plain map after every call if and only if every one of its calls meets that condition |
| `EndToEnd.GetReturnsLatestSet` | MemcachedLib/MemcachedLib/MemcacheClient.cpp:79-185 | end to end, in every history of calls with keys of 1 to 65535 bytes and non-empty values: each Set succeeds, and each Get returns flags and bytes of the latest Set of its key since the last Clear, or key-not-found when there is none |
| `Sessions.SocketTable.OnAcceptConn` | MemcachedLib/MemcachedLib/MemcacheServer.cpp:82-86 | files the socket under its session id; one already there is destroyed |
| `Sessions.SocketTable.OnSocketClosed` | MemcachedLib/MemcachedLib/MemcacheServer.cpp:153-167 | moves the socket from the map to the disposal list; an unknown id changes nothing |
| `Sessions.SocketTable.ProcessClosedSockets` | MemcachedLib/MemcachedLib/MemcacheServer.cpp:169-182 | destroys the listed sockets in order and empties the list |
| `Sessions.SocketTable.CloseAllSockets` | MemcachedLib/MemcachedLib/MemcacheServer.cpp:184-200 | the erase-while-iterating loop moves every socket to the list, by increasing session id |
| `Sessions.SocketTable.ShutdownSockets` | MemcachedLib/MemcachedLib/MemcacheServer.cpp:42-54 | closing all, then disposing of all |
| `Sessions.AscendingIsSorted` | MemcachedLib/MemcachedLib/MemcacheServer.cpp:187-199 | the order in which CloseAllSockets lists the sockets is strictly increasing in the id |
| `Sessions.StepCounts` | MemcachedLib/MemcachedLib/MemcacheServer.cpp:82-200 | a handler call changes the number of places a socket is found in for the socket it accepts only |
| `Sessions.Conservation` | MemcachedLib/MemcachedLib/MemcacheServer.cpp:82-200 | after every sequence of handler calls each accepted socket is in exactly one place, once: live, waiting for disposal or destroyed; and no other socket is anywhere |
| `Sessions.ShutdownDestroysAll` | MemcachedLib/MemcachedLib/MemcacheServer.cpp:42-54 | Shutdown after any history empties map and list, and every accepted socket has been destroyed exactly once |
| `Sessions.NothingAfterShutdown` | MemcachedLib/MemcachedLib/MemcacheServer.cpp:42-54 | after Shutdown no notice or clean-up changes anything until another accept |
| `Sessions.StrayNotice` | MemcachedLib/MemcachedLib/MemcacheServer.cpp:153-167 | a close notice before its accept, or a second one, changes nothing |
| `Sessions.NoticeMovesOne` | MemcachedLib/MemcachedLib/MemcacheServer.cpp:153-167 | a close notice moves the socket live under its id to the end of the disposal list; every other live socket stays live and none is destroyed |
| `Sessions.AcceptAddsOne` | MemcachedLib/MemcachedLib/MemcacheServer.cpp:82-86 | an accepted socket is live under its id; all other live sockets and the list stay |
| `Sessions.CleanUpLeavesLive` | MemcachedLib/MemcachedLib/MemcacheServer.cpp:169-182 | clean-up destroys the list in order and leaves every live socket alone |
| `Sessions.LeavesMapOnlyBy` | MemcachedLib/MemcachedLib/MemcacheServer.cpp:82-200 | a live socket leaves the map only by a notice for its id, an accept under its id, CloseAllSockets or Shutdown |
| `Sessions.AcceptDestroysIff` | MemcachedLib/MemcachedLib/MemcacheServer.cpp:82-86 | an accept destroys a live socket if and only if its session id is in use |

## Left out

- The Winsock calls, threads, `select`, timed waits and joining: a connection is a byte stream whose reads return between one and the requested number of bytes, or an error at its end; a send delivers everything. A read that returns zero bytes, with which the source's loops make no progress, is not part of the model.
- Server.MemcacheServer.Run: the peek for 24 bytes sees everything the client has sent, so a header that arrives in two pieces is not taken for a closed socket (MemcacheSocket.cpp:212-229); every frame in the stream is complete, and small enough that its value fits into a reply.
- Sockets.MemcacheSocket.Receive: the stream holds the whole body, with TotalBodyLen at least KeyLen + ExtrasLen and a total that can be allocated; bodies cut off by a socket error, and lengths that contradict each other, have no useful meaning in the source.
- Sockets.MemcacheSocket.ReceiveFrame: the same as for Receive.
- Sockets.MemcacheSocket.Recv: an error comes only when the stream is exhausted, and no read returns zero bytes.
- Messages.Message.ReadExtras: extras of the right length lie within the bytes received.
- Messages.Message.ReadValue: lengths in the header that fit each other and what has been received (KeyLen + ExtrasLen <= TotalBodyLen <= bytes after the header); otherwise the source computes the value size with wrap-around and copies bytes that were never received.
- Messages.Message.BaseParse: the same as for ReadValue, for the classes that have a value.
- Messages.Message.Parse: the same.
- Arrays of 2^32 - 8 bytes and more: the target cannot allocate them, and `new` throws instead of returning null; so the branches for a failed allocation, too, are not reached.
- Messages.Message.Build: a message always has a buffer, of at least 32 bytes as both constructors used for building give it; the null checks of the shared buffer pointer are not modelled. One class with a `kind` stands for the four message classes, and `kind` for the dynamic type.
- Messages.Message.BaseBuild: a buffer of at least 32 bytes, as for Build.
- LockProgress.Drain: the open work, a weighted count of held locks and of lines still to run, is below 2^32 - 1, so that the 32-bit counters cannot overflow on the way.
- Lock counters wrap around modulo 2^32 as in the source; the theorems about runs assume that fewer than 2^32 read locks and nested write locks are held at once.
- Server.MemcacheServer.ReadMessage: the handler runs as one step here; that handlers of several threads interleave under the lock is the subject of `CacheProtocol` and `Linearizability`. The frame is complete, as for Receive. Requires that stored values still fit into one reply (2^32 - 8 - 2048 bytes), and keeps it so.
- Client.MemcacheClient.ReadMessage: the frame is complete, as for Receive.
- Client.MemcacheClient.Send: everything is sent; failed and partial sends are not modelled.
- Client.MemcacheClient.Set: the server answers before the client reads, as with a blocking socket; when there is no answer the read ends with an error instead of waiting.
- Client.MemcacheClient.Get: the same; the server's cache holds no empty keys or values, which every call keeps (`EndToEnd.PerformStocked`).
- Sessions: handler calls are atomic, a socket pointer is never null, and the assignment of session ids is left open (any two sockets may carry the same id, as after a wrap of the 32-bit counter). Closing a socket and joining its thread are not modelled.
- `DataBuffer::ReadAllBytes`, the raw pointer accessors, `PrintDataCache`, `StatusToString` and the two console programs: plain getters, loops over the modelled calls, or printing.
- Expiry, CAS checks and other opcodes: the server does not implement them.
