# Verification of the IOCP game-server core

This project models the concurrent and memory-handling core of the server (`ServerCore`, `GameServer`) and two
pieces of the protobuf library kept beside it, and proves properties of the models. Protocols between threads
are state machines whose steps are the single accesses to shared state; objects that one thread updates are
classes; what both are measured against are plain functions.

- `RwLock`: the re-entrant reader/writer spin lock. Every load, compare-exchange, fetch-add, store, and each
  half of the plain `_writeCount` updates, is a step of some thread. Thread ids are distinct and in 1..65535,
  read holds and write depth stay below 65536.
- `LockOrder`, `LockNames`: the deadlock profiler: depth-first search with discovery order, finished flags and
  parents over the growing lock-order graph, the per-thread lock stacks, and what the ids say of the names.
  Statements about locks assume one lock per name.
- `SendPipeline`: `Send`, `RegisterSend` and `ProcessSend` by any number of threads, with WSASend succeeding,
  failing or completing as the environment chooses.
- `Framing`, `Receiving`: frames reassembled from TCP segments, the compacting receive buffer, `ProcessRecv`.
- `Wire`, `Codec`, `Records`, `Messages`: varints, the wire format of `S_TEST` and `BuffData` as functions, what
  any reader of the encoding sees of them, and the generated message classes. The varint helpers follow the Protocol Buffers Encoding specification, sections
  "Base 128 Varints", "Length-Delimited Records" and "Packed Repeated Fields".
- `Packets`: the frame writer, the dispatch, and the whole path from serialiser to parser.
- `SymbolOrder`, `SymbolIndex`, `SymbolTiers`, `EncodedIndex`: the descriptor databases' prefix-free symbol
  index with its one-probe lookup, and its two-tier form with the package/symbol comparator.
- `Arena`, `SerialArenas`, `ArenaReset`: bump allocation with cleanup nodes growing down, the fallbacks, the
  cleanup pass, and the freeing of every thread's blocks.
- `SendChunks`, `SendChunkCalls`: send buffers cut from thread-local chunks, recycled through a pool by reference
  count.
- `MemoryPools`: the size-class table and the pool allocator's free lists and counters.
- `SessionLifecycle`: connecting, disconnecting and the service's session table.
- `Options`, `Lists`, `Bytes`: stock helpers.

## Where the code departs from its evident intent

The models follow the code; a parameter `fixed`, where there is one, selects the evident intent (true) or the
code as written (false), and each theorem says which it is about.

- `ServerCore/Session.cpp:262` passes the number of bytes just received, not the number of unread bytes. As
  written the receiver reports every complete frame exactly when they all fit in the last segment
  (`Framing.AsWrittenKeepsUpIff`); it keeps its place (`AsWrittenKeepsItsPlace`) but may fall behind for ever
  (`ShortSegmentsStall`).
- A receiver that falls behind fills its buffer: from segments shorter than a header it holds all it has
  received, and the first call after which more than nine tenths of the buffer are unread makes
  `ServerCore/RecvBuffer.cpp:29` copy the unread bytes onto themselves, which memcpy does not allow
  (`Receiving.PacketSession.StallAll`).
- `ServerCore/Session.cpp:344` passes the start of the window for every packet, so every packet of a call that
  differs from the first is delivered wrong (`Framing.AsWrittenPointer`).
- `ServerCore/Session.cpp:329-346` does not end on a header of size 0 (`Framing.HangsIff`).
- `ServerCore/Session.cpp:254-262` goes on after OnWrite has refused the bytes, and then shows OnRecv as many
  bytes as were refused, beyond the unread ones and perhaps beyond the buffer
  (`Receiving.PacketSession.ProcessRecv`). No real completion comes there: it would have to be larger than the
  free space that lines 149-150 offered, and nothing moves the cursors in between.
- Properly nested guards do reach "Invalid Unlock Order": write, read, write, then the inner write unlock
  (`RwLock.NestedGuardsCrash`). It is reported exactly when the unlocking thread still holds a read guard
  (`RwLock.InvalidOrderIff`), and never in a run in which no thread takes a write guard over its own read guard
  (`RwLock.GuardsNeverCrash`).
- The profiler sees no circular wait among threads that all wait for one lock they all hold, such as two readers
  that both want to write (`LockOrder.SameLockWaitIsUnseen`).
- `ServerCore/DeadLockProfiler.cpp:44` numbers a name that was never pushed 0. A pop of such a name goes through
  when the lock of that id is on top, and then two names share an id (`LockNames.UnknownPopIff`); statements about
  names hold for runs without such pops.
- A WSASend that fails without a reset gives the token back and leaves whatever was queued meanwhile without an
  owner; nothing else does (`SendPipeline.StrandsIff`, reached from the start in `StrandingIsReachable`).
- `GameServer/ServerPacketHandler.h:45-58` truncates the packet size to 16 bits; a frame is made exactly when
  payload and header fit a send chunk, and for payloads of 65532 to 65535 bytes the payload is written beyond
  what was opened (`Packets.MakeSendBuffer`).
- `ServerCore/Memory.cpp:10-38` never sets the table entries 3873..4096 (`MemoryPools.FailsIff`).
- `Libraries/Include/google/protobuf/descriptor_database.cc:168-173` with 210-234 steps over the first key when
  every key sorts above the new name. The invariant survives a sequence of calls exactly when no call does that
  (`SymbolIndex.RunIsPrefixFreeIff`). The two tiers each do it for themselves, so they need not decide as one map
  would (`EncodedIndex.DecideAlikeIff`, `TiersMayDisagree`); the two stay alike along a sequence of calls exactly
  while every declaration is sound (`EncodedIndex.RunAlikeIff`).
- The two-tier database alone checks the package of a file. The one with one map records the name of a file with
  an invalid package, and accepts the file if it declares nothing but extensions that can be remembered
  (`EncodedIndex.InvalidPackageIff`).
- The package/symbol comparator is not the order of full names when a symbol is empty
  (`SymbolTiers.SymbolLessIff`, `EmptySymbolBreaksTheOrder`).
- `Libraries/Include/google/protobuf/arena.cc:164` does not round the limit down as lines 112 and 184 do: a block
  other than the first whose size is not a multiple of 8 and that holds exactly one cleanup node never runs it
  (`Arena.ArenaCleansUpIff`, `Arena.OddBlockLosesItsCleanup`).
- A buffer closed twice while its chunk is open for another passes both assertions of
  `ServerCore/SendBuffer.cpp:13-18` and 97-102, and the next buffer opened lies inside a live one
  (`SendChunks.SecondCloseOverlaps`, reached from the start in `OverlapIsReachable`). Live buffers stay apart
  exactly as long as every Close is harmless (`SendChunks.RunIsApartIff`).
- A session whose DisconnectEx is refused is never reported nor removed (`SessionLifecycle.RefusedStays`,
  reached from the start in `RefusalIsReachable`).

## Model

| member | source | states |
|---|---|---|
| RwLock.StepKeepsInv | ServerCore/Lock.cpp:5-90 | one atomic access by any thread keeps the packed word equal to owner and reader count, the owner unique and everyone else's holds empty while there is an owner |
| RwLock.MutualExclusion | ServerCore/Lock.cpp:5-90 | in every interleaving a thread inside a write section excludes every other thread's read or write section |
| RwLock.WordIsTrue | ServerCore/Lock.cpp:5-90 | in every interleaving the packed word is the id of the true owner (0 if none) above the true number of read holds |
| RwLock.NoUpdateIsLost | ServerCore/Lock.cpp:12-49 | only the owner changes the plain counter, each increment and decrement takes effect without wrapping, and at the blind store of EMPTY_FLAG the word holds the storing thread's id and nothing else |
| RwLock.QuiescentIsFree | ServerCore/Lock.cpp:36-90 | when every guard is gone the word and the counter are those of a free lock |
| RwLock.ReaderEnters | ServerCore/Lock.cpp:52-80 | while nobody owns the word, a thread asking for a read guard, wherever in ReadLock it is and behind however many readers, gets it on its own: one guard more on its stack, one reader more in the word, nothing else changed |
| RwLock.OwnerReads | ServerCore/Lock.cpp:59-64 | so does the thread that owns the word |
| RwLock.WriterEnters | ServerCore/Lock.cpp:12-33 | a thread asking for a write guard of a free lock, wherever in WriteLock it waits, gets it on its own, and the word is its id above no readers |
| RwLock.OwnerWrites | ServerCore/Lock.cpp:12-16 | so does the owner, again, and the word stays |
| RwLock.WriterLeaves | ServerCore/Lock.cpp:36-49 | dropping a write guard over no read guard takes it off the stack; the word is free after the last and otherwise stays |
| RwLock.ReaderLeaves | ServerCore/Lock.cpp:82-90 | dropping a read guard takes it off the stack and one reader off the word |
| RwLock.TwoReaders | ServerCore/Lock.cpp:66-73 | from a free lock any two threads come to read at the same time |
| RwLock.ReaderTimesOut | ServerCore/Lock.cpp:76-77 | a thread asking for a read guard while another owns the word can come to the time-out |
| RwLock.WriterTimesOut | ServerCore/Lock.cpp:29-30 | so can one asking for a write guard of a lock that is taken and not its own |
| RwLock.ReadExchangeIff | ServerCore/Lock.cpp:68-73 | in every run an exchange of ReadLock adds the read guard if and only if the word is still the reader count loaded before, with no owner; otherwise the thread loads again |
| RwLock.WriteExchangeIff | ServerCore/Lock.cpp:21-27 | in every run an exchange of WriteLock makes the thread the owner if and only if the lock is free; otherwise it changes nothing |
| RwLock.NoMultipleUnlock | ServerCore/Lock.cpp:82-90 | "Multiple Unlock" is never reached in any run of guards |
| RwLock.InvalidOrderIff | ServerCore/Lock.cpp:42-44 | "Invalid Unlock Order" is reported exactly when the unlocking thread still holds a read guard |
| RwLock.FailsIff | ServerCore/Lock.cpp:5-90 | in every run a step fails exactly when a waiting thread times out or a write guard is dropped over a read guard |
| RwLock.GuardsNeverCrash | ServerCore/Lock.h:35-64 | in every run of nested guards in which no thread takes a write guard over its own read guard, neither test fires |
| RwLock.UpgradeCrashes | ServerCore/Lock.cpp:11-16 | from any state the invariant allows with a read guard inside a write guard, the same thread can reach "Invalid Unlock Order" on its own |
| RwLock.NestedGuardsCrash | ServerCore/Lock.cpp:36-44 | from a free lock any thread, alone and with properly nested guards, reaches "Invalid Unlock Order" |
| RwLock.UpgradeNeverSucceeds | ServerCore/Lock.cpp:20-33 | a thread that holds only read guards and asks for the write lock never gets it: its exchange fails as long as it holds them |
| RwLock.UnassignedIdIsNotSeen | ServerCore/Lock.cpp:12-16 | a thread whose id is still 0 enters a write section while the word says the lock is free |
| LockOrder.ReportedCycleIsCycle | ServerCore/DeadLockProfiler.cpp:101-111 | lines of the printed form make a directed cycle of recorded edges |
| LockOrder.DeadLockProfiler.Dfs | ServerCore/DeadLockProfiler.cpp:69-116 | Dfs ends (the undiscovered nodes shrink), and either reports a true cycle or finishes its node with all finished nodes in an order every edge of which leads back |
| LockOrder.DeadLockProfiler.Report | ServerCore/DeadLockProfiler.cpp:101-111 | on a back edge the parent walk reaches the other end in finitely many steps, and the printed edges are all recorded and close a directed cycle |
| LockOrder.OrderedIsAcyclic | ServerCore/DeadLockProfiler.cpp:60-62 | a graph all of whose nodes are listed so that every edge leads strictly to the left has no directed cycle |
| LockOrder.WalkStaysLeft | ServerCore/DeadLockProfiler.cpp:85-115 | every walk from a finished node ends at one finished before it |
| LockOrder.DeadLockProfiler.CheckCycle | ServerCore/DeadLockProfiler.cpp:51-67 | a deadlock is reported if and only if the recorded graph has a directed cycle, and the report is one |
| LockOrder.DeadLockProfiler.PushLock | ServerCore/DeadLockProfiler.cpp:4-35 | the new edge is recorded before anything else; a report is made exactly when a new edge closes a cycle, and otherwise ids, graph and stack become what they should |
| LockOrder.DeadLockProfiler.PopLock | ServerCore/DeadLockProfiler.cpp:37-49 | it crashes exactly on an empty stack or a name that is not on top, and otherwise takes off the top |
| LockOrder.IdsStayInRange | ServerCore/DeadLockProfiler.cpp:8-32 | ids stay below the number of names, on the stacks and in the graph, and no edge joins an id to itself |
| LockOrder.RunIsAcyclic | ServerCore/DeadLockProfiler.cpp:4-49 | over every run of calls by many threads that has not crashed the graph is acyclic and holds every distinct adjacent pair of every stack |
| LockOrder.HeldReachesTop | ServerCore/DeadLockProfiler.cpp:20-34 | from every held lock the graph leads to the one on top |
| LockOrder.NoCircularWait | ServerCore/Lock.cpp:7-9 | with one lock per name, the only circle of threads each waiting for a lock the next one holds that is reachable without a report is one in which all wait for one lock that all hold |
| LockOrder.SameLockWaitIsUnseen | ServerCore/DeadLockProfiler.cpp:24-31 | and that one is reachable, for any two threads and any name |
| LockNames.StepAgrees | ServerCore/DeadLockProfiler.cpp:4-49 | as long as pops name pushed locks, a call crashes on ids exactly when it should on names, and otherwise ids, stacks and graph go on spelling the names |
| LockNames.IdsAreNames | ServerCore/DeadLockProfiler.cpp:10-18 | over every such run different names have different ids, each id has its name, the stacks spell the names pushed and not popped, and the graph is that of the name pairs |
| LockNames.NamesRun | ServerCore/DeadLockProfiler.cpp:4-49 | and every sequence of calls that goes through on names goes through on ids |
| LockNames.PushIsReportedIff | ServerCore/DeadLockProfiler.cpp:20-31 | over every such run a push is reported if and only if the lock is not on top and, by the name pairs recorded so far by any thread, leads to the one that is |
| LockNames.OppositeOrdersAreReported | ServerCore/DeadLockProfiler.cpp:20-31 | two different locks taken one inside the other by one thread and the other way round by another are reported |
| LockNames.UnknownPopIff | ServerCore/DeadLockProfiler.cpp:44-48 | a pop of a name never pushed goes through exactly when the lock of id 0 is on top, and then two names share the id 0 |
| SendPipeline.StepKeepsInv | ServerCore/Session.cpp:17-38 | every step of any thread keeps the lock, token, event, work and wake-up invariants |
| SendPipeline.OwnershipIsExclusive | ServerCore/Session.cpp:164-214 | in every interleaving at most one party (registering thread, outstanding send, completing thread) owns the send event, and only while the token is taken |
| SendPipeline.OnlyOwnerTouchesEvent | ServerCore/Session.cpp:164-214 | only the owner's steps change the send event, never while a send is outstanding |
| SendPipeline.BatchesArePushOrder | ServerCore/Session.cpp:179-192 | the batches given to WSASend, one after the other, then what is being loaded, then the queue, are the buffers pushed, each once and in order; no batch is empty |
| SendPipeline.BatchesTakeAll | ServerCore/Session.cpp:179-192 | in every interleaving the queue is empty when RegisterSend gives the lock back: nothing queued is left out of a batch |
| SendPipeline.LoadsAll | ServerCore/Session.cpp:167-192 | RegisterSend, from Send or from ProcessSend, comes on its own to WSASend with the whole queue it found, of any length, in order |
| SendPipeline.SendIsSubmitted | ServerCore/Session.cpp:17-38 | a Send that finds the token free sends its buffer behind all that was still queued, as one batch |
| SendPipeline.SendQueues | ServerCore/Session.cpp:17-38 | a Send that finds the token taken queues its buffer and returns |
| SendPipeline.CompletionEnds | ServerCore/Session.cpp:277-297 | a completion with nothing queued clears the event and gives the token back |
| SendPipeline.CompletionSendsOn | ServerCore/Session.cpp:277-297 | a completion with buffers queued sends all of them as one batch and keeps the token |
| SendPipeline.EmptyCompletionDisconnects | ServerCore/Session.cpp:282-285 | a completion without bytes disconnects the session and touches neither queue nor token |
| SendPipeline.FailsAlone | ServerCore/Session.cpp:205-213 | a WSASend that fails, nested or not, loses its batch and gives the token back; with a reset it disconnects as well |
| SendPipeline.NothingAfterDisconnect | ServerCore/Session.cpp:19-20 | on a disconnected session Send changes nothing and RegisterSend returns at once |
| SendPipeline.NoLostWakeup | ServerCore/Session.cpp:290-296 | while connected and no WSASend has failed, a non-empty queue under a free lock has an owner |
| SendPipeline.OwnerIffRegistered | ServerCore/Session.cpp:17-38 | in every interleaving, failed sends included, a connected session has an owner exactly while the token is taken |
| SendPipeline.StrandedIff | ServerCore/Session.cpp:205-213 | in every interleaving a queue is stranded exactly while it is not empty, the token is free and nobody is about to ask for it, and only after a WSASend has failed |
| SendPipeline.StrandsIff | ServerCore/Session.cpp:205-213 | one step strands a queue exactly when it gives the token back after a failed WSASend while buffers are queued and nobody is about to ask for the token |
| SendPipeline.UnstrandsIff | ServerCore/Session.cpp:17-38 | one step ends the stranding exactly when it queues another buffer or disconnects the session |
| SendPipeline.FailureStrandsTheQueue | ServerCore/Session.cpp:205-213 | from any state the invariant allows, a WSASend that fails without a reset leaves buffers queued with no owner |
| SendPipeline.StrandingIsReachable | ServerCore/Session.cpp:17-214 | and from any initial state any two threads get there: one send fails while the other thread's buffer is queued behind it |
| Framing.ScanRemainder | ServerCore/Session.cpp:326-349 | OnRecv never claims more than its window, and unless it hangs leaves less than a frame can be long |
| Framing.ScanFindsFrames | ServerCore/Session.cpp:326-349 | a window that starts on a frame boundary is cut exactly into the frames complete in it |
| Framing.ReceiveCuts | ServerCore/Session.cpp:245-274 | one receive on a frame boundary reports the complete frames of its window and leaves the rest on a frame boundary |
| Framing.IntendedPackets | ServerCore/Session.cpp:262-262 | with the intended window and pointer one receive reports exactly the frames now complete |
| Framing.AsWrittenPackets | ServerCore/Session.cpp:344-344 | as written each packet of a call has the right size and the bytes at the start of the window |
| Framing.AsWrittenKeepsUpIff | ServerCore/Session.cpp:258-262 | as written all complete frames are reported if and only if they fit in the bytes just received |
| Framing.AsWrittenPointer | ServerCore/Session.cpp:344-345 | as written a packet is the true frame if and only if that frame equals the first of the call |
| Framing.HangsIff | ServerCore/Session.cpp:329-346 | the loop hangs if and only if whole frames of positive size are followed by a header that announces the size 0 |
| Framing.ZeroHeaderHangs | ServerCore/Session.cpp:329-346 | four zero bytes hang it, whatever follows |
| Framing.CompleteIs | ServerCore/Session.cpp:339-341 | the number of frames complete in n bytes: they fit and one more does not |
| Framing.CompleteUnique | ServerCore/Session.cpp:339-341 | and no other number has that property |
| Framing.IntendedDelivers | ServerCore/Session.cpp:245-274 | with the intended window and pointer, whatever the segmentation, the packets delivered so far are exactly the frames completed so far |
| Framing.AsWrittenKeepsItsPlace | ServerCore/Session.cpp:245-274 | as written, whatever the segmentation, received bytes are whole reported frames then the unread bytes, and the sizes reported are those of consecutive frames |
| Framing.ShortSegmentsStall | ServerCore/Session.cpp:329-346 | as written, segments shorter than a header are never answered and the unread bytes only grow, however many there are |
| Receiving.RecvBuffer.constructor | ServerCore/RecvBuffer.cpp:4-10 | a buffer of ten times the size, empty |
| Receiving.RecvBuffer.Clean | ServerCore/RecvBuffer.cpp:16-34 | the copied ranges overlap exactly when the free space is short and the unread bytes reach past the read position; otherwise the unread bytes are unchanged, an empty buffer is wholly free again, the cursors stay while a buffer is free, and else the unread bytes lie at the front; with less than one buffer unread at least one is free |
| Receiving.RecvBuffer.OnRead | ServerCore/RecvBuffer.cpp:36-43 | succeeds exactly up to the unread bytes and drops that many of them |
| Receiving.RecvBuffer.OnWrite | ServerCore/RecvBuffer.cpp:45-52 | succeeds exactly up to the free space and appends what was written there |
| Receiving.PacketSession.OnRecv | ServerCore/Session.cpp:326-349 | the loop consumes and reports exactly the frames a recursive scan finds, and hangs exactly where the scan is stuck, which Framing.HangsIff says in bytes |
| Receiving.PacketSession.ProcessRecv | ServerCore/Session.cpp:245-274 | for any completion, of more bytes than there is room for too: when it disconnects, hangs, reads beyond the buffer or goes on, what OnRecv is shown and reports, what is left unread, and where Clean leaves the cursors or overlaps |
| Receiving.PacketSession.ReceiveAll | ServerCore/Session.cpp:132-274 | on the real buffer, with the intended window and pointer and any segmentation that fits the room offered to WSARecv, every call goes on, the packets are the frames completed so far, a whole buffer is free for the next receive, and all ten once nothing is unread |
| Receiving.PacketSession.ReceiveAllAsWritten | ServerCore/Session.cpp:132-274 | on the real buffer as written, for any such segmentation of a stream of frames: no hang and no disconnection, the packets of the run, nothing received lost while the buffer waits, and overlapping copies only with a buffer or more unread |
| Receiving.PacketSession.StallAll | ServerCore/RecvBuffer.cpp:16-34 | on the real buffer as written, segments shorter than a header are kept unread and unanswered until more than nine buffers of the ten are full, and then Clean overlaps |
| Wire.VarintHasItsSize | GameServer/Struct.pb.cc:242-262 | the size functions count the bytes of the encoding |
| Wire.SizeIsLeast | GameServer/Struct.pb.cc:242-262 | the size is the least number of seven-bit groups that hold the number |
| Wire.VarintBytes | Libraries/Include/google/protobuf/io/coded_stream.h:905-928 | byte k of a varint holds bits 7k to 7k+6 of the number, and all bytes but the last are marked as continued |
| Wire.ReadVarintIs | Libraries/Include/google/protobuf/parse_context.cc:369-397 | a varint ends with the first byte not marked as continued, and its value is the sum of the seven-bit groups up to there |
| Wire.ReadVarintNoneIff | Libraries/Include/google/protobuf/parse_context.cc:369-397 | there is none if and only if no such byte is among those allowed |
| Wire.NumbersAreCut | Libraries/Include/google/protobuf/parse_context.cc:369-408 | tags take at most five bytes, numbers ten, and what exceeds 32 or 64 bits is dropped |
| Wire.ReadsBack | GameServer/Struct.pb.cc:149-152 | an encoded number is read back with what follows it, whatever follows |
| Wire.ReadsBackBlock | GameServer/Struct.pb.cc:165-176 | a length-delimited block is read back with what follows it |
| Wire.Fixed32Bytes | GameServer/Struct.pb.cc:208-214 | a 32-bit value is four bytes, least significant first |
| Wire.Fixed32ReadsBack | GameServer/Struct.pb.cc:158-164 | a little-endian 32-bit value is read back |
| Codec.VarintsReadBack | GameServer/Struct.pb.cc:165-176 | a packed field of any number of values is read back |
| Codec.ParseMergesBuff | GameServer/Struct.pb.cc:144-305 | parsing what the serialiser writes for a buff into any buff is MergeFrom |
| Codec.BuffsParse | GameServer/Protocol.pb.cc:200-213 | parsing any number of serialised buffs appends merged copies of them |
| Codec.ParseIsMerge | GameServer/Protocol.pb.cc:168-347 | parsing what the serialiser writes for a message into any message is MergeFrom |
| Codec.CopyBuffsIsIdentityIff | GameServer/Protocol.pb.cc:330-347 | copied buffs are the buffs if and only if none has a negative-zero time |
| Codec.RoundTripIff | GameServer/Protocol.pb.cc:168-268 | the serialisation always parses, and gives the message back if and only if no buff has a negative-zero time |
| Codec.ConcatenationIsMergeIff | GameServer/Protocol.pb.cc:330-347 | parsing two serialisations one after the other is MergeFrom of the second into the first, if and only if the first holds no negative zero |
| Records.BuffIsItsRecords | Common/Protobuf/bat/Struct.proto:6-11 | a generic reader of the encoding sees a serialised buff as exactly its fields that are not zero, by the declared numbers and wire types |
| Records.TestIsItsRecords | Common/Protobuf/bat/Protocol.proto:7-15 | and a serialised message likewise |
| Records.BuffParsesItsRecords | GameServer/Struct.pb.cc:144-195 | for any bytes, of whatever serialiser and in whatever order, parsing a buff applies its records one after the other: later scalars replace, victims packed or single append; bytes that are no records do not parse |
| Records.TestParsesItsRecords | GameServer/Protocol.pb.cc:168-228 | and parsing a message likewise, with 32-bit numbers cut and every buff a message of its own |
| Messages.VarintInjective | GameServer/Struct.pb.cc:216-223 | different numbers have different encodings |
| Messages.RightIffCacheFresh | GameServer/Struct.pb.cc:216-223 | the serialiser writes the right bytes if and only if the cached packed size is that of the present victims |
| Messages.BuffMessage.ByteSizeLong | GameServer/Struct.pb.cc:232-274 | returns and caches the length of the serialisation, and caches the packed size |
| Messages.BuffMessage.InternalSerialize | GameServer/Struct.pb.cc:197-230 | writes what the cached packed size makes it write, which is the serialisation when the cache is fresh |
| Messages.BuffMessage.InternalParse | GameServer/Struct.pb.cc:144-195 | the parse loop is the recursive parser, for packed and single victims, malformed and unknown input |
| Messages.BuffMessage.MergeFrom | GameServer/Struct.pb.cc:291-305 | appends the victims and overwrites with what is not zero |
| Messages.TestMessage.ByteSizeLong | GameServer/Protocol.pb.cc:270-313 | returns and caches the length of the serialisation and leaves every buff measured |
| Messages.TestMessage.Serialize | GameServer/Protocol.pb.cc:230-268 | after ByteSizeLong exactly the serialisation is emitted, that many bytes |
| Messages.AnyTag34 | GameServer/Protocol.pb.cc:200-213 | however the tag of a buff is encoded, the parser goes on as after its one-byte form |
| Messages.TestMessage.InternalParse | GameServer/Protocol.pb.cc:168-228 | the parse loop with its inner loop over repeated buffs is the recursive parser |
| Messages.TestMessage.MergeFrom | GameServer/Protocol.pb.cc:330-347 | appends new copies of the buffs and overwrites with what is not zero |
| Packets.MakeSendBuffer | GameServer/ServerPacketHandler.h:45-58 | a frame of size, id and serialisation is made if and only if it fits a send chunk; the payload runs over what was opened if and only if its size is one of the four for which the 16-bit packet size wraps; the message is unchanged |
| Packets.FrameIsFrame | GameServer/ServerPacketHandler.h:52-55 | bytes 0 and 1 are the frame's length, bytes 2 and 3 the id, both least significant first, then the payload, and the receiver's header reading accepts it |
| Packets.HandsOverIff | GameServer/ServerPacketHandler.h:35-42 | a frame delivers a message exactly when its id is that of S_TEST and its payload is records that make up the message |
| Packets.FrameCarries | GameServer/ServerPacketHandler.h:35-42 | dispatching a written frame delivers the message, unchanged if and only if it holds no negative zero |
| Packets.EndToEnd | GameServer/ServerPacketHandler.h:35-58 | with the intended window and pointer, for any messages and any segmentation, exactly the messages whose frames have arrived are delivered, in order |
| SymbolOrder.ValidateSymbolName | Libraries/Include/google/protobuf/descriptor_database.cc:153-162 | accepts exactly the names of letters, digits, underscores and periods |
| SymbolOrder.ValidCharsAre | Libraries/Include/google/protobuf/descriptor_database.cc:151-161 | the permitted characters are the letters, the digits, the underscore and the period |
| SymbolOrder.CoversIff | Libraries/Include/google/protobuf/descriptor_database.cc:184-191 | a name covers itself and what continues it after a period, nothing else |
| SymbolOrder.LessIff | Libraries/Include/google/protobuf/descriptor_database.cc:163-173 | names are ordered by the first difference, a name before its continuations |
| SymbolOrder.BetweenIsSubSymbol | Libraries/Include/google/protobuf/descriptor_database.h:239-254 | a valid name that sorts between a parent and its sub-symbol is a sub-symbol of that parent |
| SymbolOrder.ParentsNest | Libraries/Include/google/protobuf/descriptor_database.h:216-222 | two names that cover a third are nested |
| SymbolIndex.OneProbe | Libraries/Include/google/protobuf/descriptor_database.h:224-259 | in a prefix-free index, a key that covers the name sought is the key the probe lands on |
| SymbolIndex.ProbeIsExactIff | Libraries/Include/google/protobuf/descriptor_database.h:216-265 | the probe finds every covering key of every name if and only if no key covers another |
| SymbolIndex.ClashIff | Libraries/Include/google/protobuf/descriptor_database.cc:208-240 | the two comparisons find a conflict if and only if there is one; as written, except on the call that skips the first key |
| SymbolIndex.AddKeepsPrefixFreeIff | Libraries/Include/google/protobuf/descriptor_database.cc:195-250 | a call keeps the index prefix-free if and only if it does not skip the first key, and then succeeds exactly for valid names that conflict with nothing |
| SymbolIndex.InsertIsPrefixFreeIff | Libraries/Include/google/protobuf/descriptor_database.cc:242-249 | inserting a key keeps the index prefix-free if and only if it conflicts with no key |
| SymbolIndex.RunIsPrefixFreeIff | Libraries/Include/google/protobuf/descriptor_database.cc:195-250 | over every sequence of calls keys stay sorted and valid, and no key covers another at the end if and only if (as written) no call skipped the first key |
| SymbolIndex.FindAfterRun | Libraries/Include/google/protobuf/descriptor_database.cc:297-305 | after every such sequence a lookup answers with a key if and only if that key is the one equal to or a dotted parent of the name |
| SymbolIndex.AcceptedFileAdds | Libraries/Include/google/protobuf/descriptor_database.cc:116-147 | an accepted file adds its symbols under package, period, name, and its fully-qualified extensions by extendee and number, and nothing else |
| SymbolIndex.FindAfterFile | Libraries/Include/google/protobuf/descriptor_database.cc:116-147 | while no key covers another, a lookup after an accepted file answers with it for what its symbols cover, and otherwise as before |
| SymbolIndex.RefusedFileKeeps | Libraries/Include/google/protobuf/descriptor_database.cc:128-147 | a refused file leaves exactly what it declared before the declaration that was refused |
| SymbolIndex.ExtensionRefusedIff | Libraries/Include/google/protobuf/descriptor_database.cc:265-289 | after accepted declarations an extension is refused exactly when it is fully qualified and the same extendee and number were there before or among them |
| SymbolIndex.DescriptorIndex.AddSymbol | Libraries/Include/google/protobuf/descriptor_database.cc:195-250 | the method is the transition those statements are about |
| SymbolIndex.DescriptorIndex.AddFile | Libraries/Include/google/protobuf/descriptor_database.cc:116-146 | a file of a known name is refused, and otherwise its symbols and extensions go in one by one until one is refused, and what went in before stays |
| SymbolIndex.DescriptorIndex.FindSymbol | Libraries/Include/google/protobuf/descriptor_database.cc:297-305 | in a prefix-free index the value of the covering key, or nothing if there is none |
| SymbolIndex.ParentAddedSecond | Libraries/Include/google/protobuf/descriptor_database.cc:168-173 | "foo.bar" then "foo" are both accepted as written, and a lookup of "foo.c" then finds nothing |
| SymbolTiers.SymbolLessIff | Libraries/Include/google/protobuf/descriptor_database.cc:485-520 | the package/symbol comparator is the order of full names, except before a package with an empty symbol |
| SymbolTiers.EmptySymbolBreaksTheOrder | Libraries/Include/google/protobuf/descriptor_database.cc:485-520 | with an empty symbol its equivalence is not transitive |
| SymbolTiers.SearchesFullNames | Libraries/Include/google/protobuf/descriptor_database.cc:174-182 | searching a sorted tier with the comparator is searching its full names, one position further exactly when the name met is the empty symbol of the package sought |
| SymbolTiers.MergeHasBoth | Libraries/Include/google/protobuf/descriptor_database.cc:803-811 | merging keeps every entry of both tiers, each as often as it was |
| SymbolTiers.MergeIsSorted | Libraries/Include/google/protobuf/descriptor_database.cc:803-811 | merging two sorted tiers that share no name and hold nothing the comparator confuses gives a sorted vector |
| EncodedIndex.DescriptorIndex.AddSymbol | Libraries/Include/google/protobuf/descriptor_database.cc:691-728 | the method is the transition those statements are about, comparator, both tiers and set insertion included |
| EncodedIndex.DescriptorIndex.AddFile | Libraries/Include/google/protobuf/descriptor_database.cc:623-660 | the value is recorded, then package and name are judged, then symbols and extensions go in one by one until one is refused |
| EncodedIndex.DescriptorIndex.FindSymbol | Libraries/Include/google/protobuf/descriptor_database.cc:770-786 | it flattens and probes the flat vector with the comparator |
| EncodedIndex.FindsTheSame | Libraries/Include/google/protobuf/descriptor_database.cc:776-786 | that probe answers as the probe of the sorted full names, even when the comparator confuses a name with the one sought |
| EncodedIndex.TierClashIff | Libraries/Include/google/protobuf/descriptor_database.cc:663-689 | one tier reports a clash if and only if it holds a conflict and does not miss it, with the exact misses |
| EncodedIndex.DecideAlikeIff | Libraries/Include/google/protobuf/descriptor_database.cc:706-720 | the tiers and the one map decide alike on a valid symbol if and only if nothing conflicts, or the map misses the conflict just if each tier misses what conflicts there |
| EncodedIndex.AddSame | Libraries/Include/google/protobuf/descriptor_database.cc:691-728 | a sound symbol (invalid, or without conflict, or refused by both) is decided alike by both databases and leaves them holding the same |
| EncodedIndex.SoundIff | Libraries/Include/google/protobuf/descriptor_database.cc:691-728 | on any symbol, empty ones included, both decide alike and stay alike if and only if it is sound |
| EncodedIndex.FlatIsTheMap | Libraries/Include/google/protobuf/descriptor_database.cc:803-819 | once flattened the vector is the one sorted map, entry for entry |
| EncodedIndex.OpAlikeIff | Libraries/Include/google/protobuf/descriptor_database.cc:623-660 | a call is answered alike and leaves both alike, as does every declaration in it, if and only if it is a lookup, or a file of a known name, or one with a valid package whose declarations are sound at their turn |
| EncodedIndex.RunAlikeIff | Libraries/Include/google/protobuf/descriptor_database.cc:623-819 | along every sequence of AddFile and FindSymbol calls the tiers and the one map stay alike if and only if every call is sound at its turn |
| EncodedIndex.TiersAnswerAsOneMap | Libraries/Include/google/protobuf/descriptor_database.cc:623-819 | over every such sequence of sound calls, conflicts that both refuse included, the two tiers answer every call as one sorted map does, as written and as corrected |
| EncodedIndex.TiersAnswerFromEmpty | Libraries/Include/google/protobuf/descriptor_database.cc:623-819 | and so from the empty index |
| EncodedIndex.FitRunIsSound | Libraries/Include/google/protobuf/descriptor_database.cc:623-819 | as written, sequences of files with valid packages and no conflicting symbol are sound, empty symbols included |
| EncodedIndex.CorrectedRunIsSound | Libraries/Include/google/protobuf/descriptor_database.cc:623-819 | with the corrected comparisons all sequences of files with valid packages and without empty symbols are sound, whatever conflicts |
| EncodedIndex.TiersMayDisagree | Libraries/Include/google/protobuf/descriptor_database.cc:706-720 | as written, from the empty index, four calls whose answers differ: the tiers accept what the one map refuses |
| EncodedIndex.InvalidPackageIff | Libraries/Include/google/protobuf/descriptor_database.cc:626-643 | the tiers refuse a file with an invalid package and do not record its name; the one map records it, and accepts the file if and only if the name is new and it declares nothing but extensions that can be remembered |
| Arena.StepKeepsInv | Libraries/Include/google/protobuf/arena_impl.h:151-199 | every allocation keeps objects below the nodes, nodes where the cleanup pass looks for them, everything inside its block |
| Arena.NewBlockKeeps | Libraries/Include/google/protobuf/arena.cc:53-77 | a new block always has room for what did not fit |
| Arena.MakesBlockIff | Libraries/Include/google/protobuf/arena.cc:53-77 | a block is made exactly when the newest has too little room; it holds the need and is otherwise the lesser of twice the last block and the policy's maximum |
| Arena.BlocksDouble | Libraries/Include/google/protobuf/arena.cc:53-63 | over every run of requests the first block could hold, block sizes double up to the policy's maximum |
| Arena.NothingOverlaps | Libraries/Include/google/protobuf/arena_impl.h:151-199 | headers, objects and cleanup nodes lie inside their blocks and no two share a byte |
| Arena.StepKeepsSpace | Libraries/Include/google/protobuf/arena.cc:149-177 | the space counters stay the sizes of the blocks and the bytes handed out |
| Arena.SpaceIsTrue | Libraries/Include/google/protobuf/arena.cc:149-177 | over every run of a fresh arena SpaceAllocated is the size of all its blocks and SpaceUsed is what the run asked for |
| Arena.AllRunIff | Libraries/Include/google/protobuf/arena.cc:179-195 | the cleanup pass runs all nodes, newest first, if and only if no block loses its node |
| Arena.ArenaCleansUpIff | Libraries/Include/google/protobuf/arena.cc:149-195 | over every run of a fresh arena each registered cleanup runs exactly once, last registered first, if and only if no block but the first has a size that is no multiple of 8 and exactly one node |
| Arena.WholeBlocksLoseNothing | Libraries/Include/google/protobuf/arena.cc:53-77 | with an initial block of a multiple of 4 bytes and a policy in multiples of 8 that is always so |
| Arena.OddBlockLosesItsCleanup | Libraries/Include/google/protobuf/arena.cc:164-184 | with an initial block of 81 bytes and the default policy the one registered cleanup never runs |
| SerialArenas.SerialArena.AllocateAligned | Libraries/Include/google/protobuf/arena_impl.h:151-163 | hands out the next bytes, of a new block if need be, falling back at most once |
| SerialArenas.SerialArena.AllocateAlignedWithCleanup | Libraries/Include/google/protobuf/arena_impl.h:179-192 | the same with a cleanup node at the other end, falling back at most once |
| SerialArenas.SerialArena.AddCleanup | Libraries/Include/google/protobuf/arena_impl.h:194-199 | registers a cleanup with no bytes of its own |
| SerialArenas.SerialArena.CleanupList | Libraries/Include/google/protobuf/arena.cc:179-195 | runs exactly the cleanups the statements above are about, in that order |
| SerialArenas.RunBlock | Libraries/Include/google/protobuf/arena.cc:183-192 | on one block every node is run, last registered first, unless it ends above its rounded end and there is only one |
| ArenaReset.ThreadSafeArena.SpaceAllocated | Libraries/Include/google/protobuf/arena.cc:409-416 | the sum of all blocks of all threads |
| ArenaReset.ThreadSafeArena.Free | Libraries/Include/google/protobuf/arena.cc:121-133 | every block of every thread goes back once, in list order, but the initial one, which is handed over |
| ArenaReset.FirstBlockSize | Libraries/Include/google/protobuf/arena.cc:216-233 | a first block made for a policy is as large as the policy starts with, at least 144 bytes |
| ArenaReset.AllThreadsRunIff | Libraries/Include/google/protobuf/arena.cc:418-421 | the first pass runs every cleanup registered in any thread, last registered first, if and only if no block of any thread loses its node |
| ArenaReset.ThreadSafeArena.CleanupList | Libraries/Include/google/protobuf/arena.cc:418-421 | the cleanups of every thread run, in list order |
| ArenaReset.ThreadSafeArena.Reset | Libraries/Include/google/protobuf/arena.cc:319-352 | all cleanups run before any block goes back; it returns what SpaceAllocated returned before, gives back every block once but never the user's, and leaves the arena as first set up |
| SendChunks.StepKeepsPlaces | ServerCore/SendBuffer.cpp:21-68 | every step of any thread, whatever callers do, keeps each chunk in one place and no live buffer in a chunk that is pooled, in a hand or about to be reset |
| SendChunks.CloseSlicesIff | ServerCore/SendBuffer.cpp:13-18 | a Close keeps live buffers apart if and only if it is the first of its buffer, or caught by an assertion, or harmless to all others of the chunk |
| SendChunks.StepKeepsSlicesIff | ServerCore/SendBuffer.cpp:78-102 | every step of any thread keeps live buffers apart if and only if it is not a harmful Close |
| SendChunks.RunIsApartIff | ServerCore/SendBuffer.cpp:78-102 | along any run live buffers stay apart in every state if and only if every Close is harmless |
| SendChunks.LiveBuffersAreApart | ServerCore/SendBuffer.cpp:78-102 | at the end of every run whose Closes are harmless, as they are when no buffer is closed twice, the bytes of live buffers are pairwise disjoint, and a closed one's lie below its chunk's used size |
| SendChunks.ResetIsUnshared | ServerCore/SendBuffer.cpp:21-39 | in every run, whatever callers do, a chunk is reset only when no live buffer, no other thread and not the pool refers to it |
| SendChunks.ChunksAreConserved | ServerCore/SendBuffer.cpp:41-68 | in every run, whatever callers do, each chunk ever made is either referred to or in the pool exactly once |
| SendChunks.StepKeepsReady | ServerCore/SendBuffer.cpp:85-102 | if callers close what they open and ask for at most a chunk, no assertion fires and nobody disturbs a chunk between check and use |
| SendChunks.OpenSucceeds | ServerCore/SendBuffer.cpp:21-39 | and then every Open that gets to its end returns a buffer of the bytes asked for |
| SendChunks.SecondCloseOverlaps | ServerCore/SendBuffer.cpp:97-102 | from any state with a buffer open behind a closed one, closing the closed one again passes both assertions, and the next buffer opened claims bytes of the open one |
| SendChunks.OverlapIsReachable | ServerCore/SendBuffer.cpp:13-102 | and any thread alone can get there from the start |
| SendChunkCalls.OpensInItsChunk | ServerCore/SendBuffer.cpp:21-95 | an Open that nobody disturbs takes the thread's chunk while it has room: the buffer begins where the used bytes end, and nothing else changes |
| SendChunkCalls.OpensAnew | ServerCore/SendBuffer.cpp:21-57 | otherwise it opens at the start of the chunk returned last, or of a new one if the pool is empty, and the chunk replaced goes back if no live buffer keeps it |
| SendChunkCalls.OpensBehindWhatWasWritten | ServerCore/SendBuffer.cpp:13-18 | after a Close the next buffer begins right behind the bytes written, not those opened |
| SendChunkCalls.MakesChunkIff | ServerCore/SendBuffer.cpp:41-57 | a chunk is made exactly when one is asked for and the pool is empty |
| SendChunkCalls.TooLargeFails | ServerCore/SendBuffer.cpp:85-88 | asking for more than a chunk fails an assertion, whatever chunk the thread has |
| SendChunkCalls.OpenTwiceFails | ServerCore/SendBuffer.cpp:21-28 | so does asking while the last buffer of the thread's chunk is open |
| SendChunkCalls.CloseFailsIff | ServerCore/SendBuffer.cpp:13-18 | a Close fails exactly when more was written than opened or the chunk is not open |
| MemoryPools.TableIsLeastClass | ServerCore/Memory.cpp:6-39 | up to 3872 the table gives the least class that is big enough, above that nothing |
| MemoryPools.ClassesAre | ServerCore/Memory.cpp:11-38 | the classes are the multiples of 32 up to 1024, then every 128 from 1056 to 1952, then every 256 from 2080 to 3872 |
| MemoryPools.Memory.constructor | ServerCore/Memory.cpp:6-39 | the three loops build exactly those classes and that table |
| MemoryPools.StepKeepsInv | ServerCore/Memory.cpp:49-90 | every step of Allocate and Release by any thread keeps blocks in one place with a fitting header, and fails exactly on an unset table entry |
| MemoryPools.BlocksHaveOnePlace | ServerCore/MemoryPool.cpp:16-39 | in every run a block is held once, or on exactly one free list exactly once with allocSize 0; a held one came from the least class that fits it |
| MemoryPools.ReleasedToItsPool | ServerCore/Memory.cpp:69-90 | in every run a released block goes to the pool it was made for |
| MemoryPools.StepKeepsCounts | ServerCore/MemoryPool.cpp:16-39 | every step keeps a pool's counters equal to its live and free blocks but for what threads in mid-call owe |
| MemoryPools.QuiescentCounts | ServerCore/MemoryPool.cpp:16-39 | whenever no thread is in a call the counters are the numbers of live and of free blocks |
| MemoryPools.AllocateReuses | ServerCore/MemoryPool.cpp:24-39 | an Allocate that nobody disturbs takes the block its pool got back last, marks it, moves both counters, and makes none |
| MemoryPools.AllocateMakes | ServerCore/MemoryPool.cpp:24-39 | with an empty list it makes a block |
| MemoryPools.ReleaseGivesBack | ServerCore/MemoryPool.cpp:16-22 | Release puts a block on top of its pool's list with a cleared header and moves both counters |
| MemoryPools.LargeBlocks | ServerCore/Memory.cpp:49-90 | blocks beyond MAX_ALLOC_SIZE come from the heap and go back to it without any pool |
| MemoryPools.MakesBlockIff | ServerCore/MemoryPool.cpp:24-31 | in every run a block is made when an Allocate finds its pool's list empty or asks for more than MAX_ALLOC_SIZE, and only then |
| MemoryPools.FailsIff | ServerCore/Memory.cpp:49-90 | in every run a call fails if and only if it is an Allocate whose size plus header lies in 3873..4096; both assertions hold |
| SessionLifecycle.StepKeepsInv | ServerCore/Session.cpp:216-243 | every step of any thread keeps stages, table and count in agreement |
| SessionLifecycle.OnceAndInOrder | ServerCore/Session.cpp:45-54 | in every run AddSession, OnDisconnected and ReleaseSession each run at most once for a session, in that order, and the erase assertion never fails |
| SessionLifecycle.CountIsTrue | ServerCore/Service.cpp:28-40 | in every run, whenever the service's lock is free the session count is the size of the table |
| SessionLifecycle.SettledSessions | ServerCore/Session.cpp:216-243 | once nothing is under way a session is connected and in the table, or reported and out of it, or its DisconnectEx was refused |
| SessionLifecycle.Connects | ServerCore/Session.cpp:216-230 | a connection that nobody disturbs reaches OnConnected with the session connected, in the table and counted once, and returns |
| SessionLifecycle.DisconnectExAnswers | ServerCore/Session.cpp:45-54 | disconnecting a connected session gives up the connection and, if DisconnectEx is accepted, leaves it waiting for the completion, and if not, for nothing; the table keeps it |
| SessionLifecycle.SecondDisconnect | ServerCore/Session.cpp:45-49 | disconnecting a session no longer connected changes nothing |
| SessionLifecycle.CompletionReleases | ServerCore/Session.cpp:234-243 | the completion of DisconnectEx reports the session and takes it out of the table and the count, each once |
| SessionLifecycle.RefusedIff | ServerCore/Session.cpp:116-130 | a step gives a session up exactly when its DisconnectEx is refused |
| SessionLifecycle.RefusedStays | ServerCore/Session.cpp:116-130 | a session whose DisconnectEx was refused stays in the table for good without being reported |
| SessionLifecycle.RefusalIsReachable | ServerCore/Session.cpp:116-243 | and from the start any thread brings any session there, by disconnecting it from OnConnected |

## Left out

- Winsock, IOCP and the listener: they appear only as outcomes (pending, refused, completed with n bytes).
- Lock timeouts, spin counts, yielding and the clock: a timeout is a step that may happen whenever the code tests for it.
- Weak memory ordering: atomics are sequentially consistent, the default order these files use.
- RwLock.GuardsNeverCrash: holds for runs in which no thread upgrades, because with nested guards alone the claim is false.
- LockOrder.NoCircularWait: excepts threads that all wait for one lock they all hold, because equal neighbours on a stack record no edge; the exception is exact.
- LockOrder.DeadLockProfiler.Dfs: visits the neighbours of a node in any order, which includes the ascending order of std::set.
- The profiler's stack of each thread is a map from threads to stacks; printing is the returned list of edges.
- Framing.AsWrittenKeepsItsPlace: claims no delivery, because the code as written may fall behind.
- EncodedIndex.TiersAnswerAsOneMap: for sound calls, because an unsound one leaves the two databases holding different keys, or both a key they should have refused (RunAlikeIff is exact); which later lookup shows it is not followed.
- Packets.EndToEnd: is about the intended window and pointer, because as written frames may stay unread.
- FindFile, FindExtension and FindAllExtensionNumbers; of the file-name and extension tables only the keys are kept, and in the two-tier index both tiers together, because AddFile asks for membership alone.
- The walk over a file's messages, enums, extensions and services is given as the list of what it visits.
- Unknown fields, S_LOGIN, reflection, descriptor tables and the enum files; a field the two messages do not know ends a parse with its own outcome.
- Float arithmetic: remainTime is its 32-bit pattern with a test for the two zeros.
- Messages of 2 GiB and more, where the library's int-sized caches end; arena and allocation sizes at the end of the address range.
- The packet handler table beyond the one registered handler, and the index 65535 just past its end.
- SendChunks and SessionLifecycle show no class: the objects are shared by threads, so their fields are records inside the state machine.
- Arena memory is a map from node offsets to nodes; object contents, object destructors that allocate, and the compare-exchange that links a new thread's arena are not modelled.
- Reference counts of chunks are read off the references; shared_ptr itself is not part of this model.
- TypeCast, RefCounting, BufferReader, BufferWriter and StompAllocator: short members that would add little.
