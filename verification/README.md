# Boost.Log: models and proofs

A Dafny 4.11 model of the parts of Boost.Log where a mistake is hardest to see, with proofs of what each part promises.
`dafny verify dfyconfig.toml` checks the whole project. What the operating system, sinks, handlers, clocks and file
systems answer is a parameter everywhere, so that the theorems hold for every such answer.

| part of the system | modules |
|---|---|
| interprocess message queue: the byte ring and its operations | `MessageRing`, `MessageQueue` |
| the same queue shared by processes that may die at any step | `QueueProtocol`, `QueueSafety`, `QueueOrigins`, `QueueProgress`, `QueueWakeups`, `QueueStranding` |
| life time of the shared memory region | `RegionLifetime` |
| queue between sink frontend and feeding threads | `TwoLockQueue` |
| attribute sets and the lazy attribute value set | `BucketList`, `AttributeSet`, `AttributeValueSet` |
| binary dumps, scalar and vector | `HexText`, `VectorDump`, `HexDump` |
| opening and pushing records in the core | `RecordCore`, `RecordPush` |
| numbers in text | `Digits` |
| file names, file collector, opening of files | `FileNames`, `FileNameProofs`, `FileNameMatching`, `FileNameScan`, `FileNameCuts`, `StoredFiles`, `FileCollector`, `FileOpening` |
| filter expressions | `FilterText`, `FilterGrammar`, `FilterProofs`, `FilterMisreading`, `FilterAcceptance`, `FilterParser` |
| function names in signatures | `ScopeNames`, `ScopeNameScan`, `ScopeArguments`, `ScopeSignatures`, `ScopeOperators` |
| format strings | `TextAt`, `FormatText`, `FormatReading`, `FormatParser` |

Functions carry the specification, methods and classes follow the loops and objects of the C++ code and are proved
against it, and lemmas state what is promised. Concurrent parts are state machines whose steps are single loads and
stores; theorems about them speak of every run.

## Where the code does less than one might expect

For each of these the members named show the case that fails; where they end in `Iff`, and for file names and signatures,
they also give the exact condition, for all inputs, under which the code does what is meant.

- The 32-bit block count wraps for messages close to 2^32 bytes (`MessageRing.EstimateExactIff`), and a ring of more
  than 2^32 bytes loses payload bytes at some positions (`MessageRing.NoBytesLostIff`).
- When the holder of the queue mutex dies and the next thread to get the mutex comes out of a wait, the mutex becomes
  unusable for good instead of being recovered (`QueueSafety.OwnerDeathOutcome`; a run that gets there is
  `QueueStranding.WaitEndsFirstEndsQueue`).
- A reader that dies between shrinking the queue and notifying, or a writer that dies between growing it and notifying,
  leaves threads waiting un-notified (`QueueStranding.DeadReaderStrandsWriters`, `QueueStranding.DeadWriterStrandsReader`), for
  good once the mutex is unusable (`QueueStranding.StrandedForGood`). In all states with a free mutex or a living holder
  that owes nothing they are not (`QueueWakeups.NoWriterIsStranded`; for readers, as long as receives do not overlap,
  `QueueWakeups.ReaderInTurnIsNotStranded`).
- Enqueue signals one reader, and only when the queue stops being empty: of two waiting readers one can stay un-notified
  although a message is there (`QueueStranding.SecondReaderIsStranded`). Readers that follow one another, in any threads
  and processes and also after a death, cannot (`QueueWakeups.ReaderInTurnIsNotStranded`).
- Of two pops of the two-lock queue that overlap, one can free the node whose value the other has still to take
  (`TwoLockQueue.SecondConsumerFreesUnreadNode`, with a run in `TwoLockQueue.UnreadNodeIsFreed`). The interface comment
  forbids concurrent pops; pops that do not overlap, in whatever threads, are safe
  (`TwoLockQueue.PopsInTurnTakeInOrder`).
- When a suppressing exception handler is installed and the preparation of a blocking call throws, the first sink is
  given up without having been called (`RecordPush.GiveUpUncalled`, with the exact condition in
  `RecordPush.UnpreparedIff`).
- Digits appended to resolve a name clash become part of a counter that ends the pattern, and a pattern with `%%` and no
  date placeholder does not match its own names (`FileNameMatching.GeneratedNameMatches`).
- A presence test followed by `and` or `or` is read as a custom relation (`FilterMisreading.ParsesIff`). Mostly the text is
  then refused; with white space inside percent signs it may be accepted as another filter
  (`FilterMisreading.AcceptedAsAnother`).
- When function names are extracted, an identifier that begins with `operator` is taken for an operator, and a return type
  in front of a name that begins with `::` for a scope of it (`ScopeSignatures.SignatureName`,
  `ScopeSignatures.RootedNameMisread`).

## Model

| member | source | states |
|---|---|---|
| `MessageRing.InitBlockSize` | src/posix/ipc_reliable_message_queue.cpp:653-683 | five halvings find the position of the single bit of any power-of-two block size, and the mask is one less than the block size |
| `MessageRing.CeilDivIsLeast` | src/posix/ipc_reliable_message_queue.cpp:722-727 | the block count is the least number of blocks with room for the bytes |
| `MessageRing.CeilDivIsShift` | src/posix/ipc_reliable_message_queue.cpp:726 | adding the block size less one before dividing gives that least number |
| `MessageRing.ExtentIsLeast` | src/posix/ipc_reliable_message_queue.cpp:722-727 | a message takes the least multiple of the block size that holds header and payload |
| `MessageRing.EstimateExactIff` | src/posix/ipc_reliable_message_queue.cpp:723-727 | the 32-bit estimate equals the needed block count if and only if its sum does not wrap |
| `MessageRing.RoomExact` | src/posix/ipc_reliable_message_queue.cpp:742 | in a ring of at most 2^32 bytes the 32-bit room between a header and the end of the ring is exact |
| `MessageRing.NoBytesLostIff` | src/posix/ipc_reliable_message_queue.cpp:742-743 | a message that stays in front of the end of the ring is copied whole, at every position and size, if and only if the ring has at most 2^32 bytes |
| `MessageRing.HoldsUnique` | src/posix/ipc_reliable_message_queue.cpp:730-797 | a memory image represents at most one queue of messages |
| `MessageRing.HoldsFrame` | src/posix/ipc_reliable_message_queue.cpp:730-762 | changing bytes outside the blocks in use does not change the queue the memory represents |
| `MessageRing.HoldsAppend` | src/posix/ipc_reliable_message_queue.cpp:730-762 | a message stored right behind the blocks in use extends the queue by that message |
| `MessageRing.ExtentIsTotal` | src/posix/ipc_reliable_message_queue.cpp:730-797 | the bytes in use are exactly the blocks of the queued messages |
| `MessageQueue.FixedBufferTakesWholeMessage` | src/posix/ipc_reliable_message_queue.cpp:1004-1013 | however a message is cut into chunks, the fixed buffer handler ends with the whole message or throws, exactly when the buffer is too small for it |
| `MessageQueue.WrittenStores` | src/posix/ipc_reliable_message_queue.cpp:739-754 | the copies of an enqueue store the message, wrapped or not, and touch no byte outside its header slot and payload |
| `MessageQueue.WrittenAppends` | src/posix/ipc_reliable_message_queue.cpp:730-762 | written behind the bytes in use, a message extends the queue and no unread message changes |
| `MessageQueue.EnqueueAppends` | src/posix/ipc_reliable_message_queue.cpp:730-762 | the same in block positions, with the wrapped write position |
| `MessageQueue.StoredChunks` | src/posix/ipc_reliable_message_queue.cpp:774-791 | the two chunks handed to a receive handler make up the stored message, byte for byte |
| `MessageQueue.DequeueDrops` | src/posix/ipc_reliable_message_queue.cpp:783-794 | moving the read position past the first message leaves exactly the rest of the queue |
| `MessageQueue.ReliableMessageQueue.constructor` | src/posix/ipc_reliable_message_queue.cpp:545-554 | a fresh region holds the empty queue |
| `MessageQueue.ReliableMessageQueue.EnqueueMessage` | src/posix/ipc_reliable_message_queue.cpp:730-762 | appends the message to the queue the memory represents; a reader is to be notified exactly when the queue was empty |
| `MessageQueue.ReliableMessageQueue.DequeueMessage` | src/posix/ipc_reliable_message_queue.cpp:765-797 | delivers the first message in chunks that make it up and removes it; a throwing handler leaves the queue unchanged |
| `MessageQueue.ReliableMessageQueue.Positions` | src/posix/ipc_reliable_message_queue.cpp:730-797 | in every valid state put is (get + size) mod capacity, and size is the sum of the block counts of the queued messages |
| `MessageQueue.ReliableMessageQueue.ClearQueue` | src/posix/ipc_reliable_message_queue.cpp:713-720 | leaves the empty queue |
| `MessageQueue.ReliableMessageQueue.TrySend` | src/posix/ipc_reliable_message_queue.cpp:438-462 | fails exactly for messages larger than the ring, sends exactly when not stopped and there is room, and changes the queue in no other case |
| `MessageQueue.ReliableMessageQueue.TryReceive` | src/posix/ipc_reliable_message_queue.cpp:489-504 | returns the first message, nothing on stop or an empty queue, or an error that leaves the queue unchanged when the buffer is too small |
| `QueueProtocol.ChunksAreThoseOfTheCode` | src/posix/ipc_reliable_message_queue.cpp:742-790 | in a ring of at most 2^32 bytes the chunks stored and read by the steps are those of the 32-bit room computation |
| `QueueProtocol.HolderStep` | src/posix/ipc_reliable_message_queue.cpp:713-797 | every single store of a thread that holds the mutex stays in the ring and keeps the meaning of the memory, including half-written messages |
| `QueueSafety.RunInv` | src/posix/ipc_reliable_message_queue.cpp:401-532 | an invariant of all reachable states: mutual exclusion, the meaning of the memory, and the delivery log |
| `QueueSafety.DeliveriesAreWholeAndOrdered` | src/posix/ipc_reliable_message_queue.cpp:401-524 | in every run, with processes dying anywhere: completed receives return whole messages of sends completed in the same epoch, each at most once and in order |
| `QueueSafety.FreeMutexMeansIntactRing` | src/posix/ipc_reliable_message_queue.cpp:685-797 | whenever the mutex is free the ring holds exactly the sends not yet received since the last clear or recovery |
| `QueueSafety.StepsStayInRing` | src/posix/ipc_reliable_message_queue.cpp:730-797 | no step of any run reads or writes outside the ring |
| `QueueSafety.OwnerDeathOutcome` | src/posix/ipc_reliable_message_queue.cpp:685-711 | after the death of a holder, a thread that locks the mutex empties the queue and makes it consistent, while a thread that comes out of a wait makes it unusable |
| `QueueSafety.UnusableForGood` | src/posix/ipc_sync_wrappers.hpp:134-157 | from the moment the mutex is unusable it stays so to the end of every run, and nothing is sent or delivered any more |
| `QueueSafety.OnlyBlockingWaits` | src/posix/ipc_reliable_message_queue.cpp:438-462 | in every run only blocking sends and receives wait; a non-blocking one never does |
| `QueueOrigins.OperationIsBegun` | src/posix/ipc_reliable_message_queue.cpp:401-532 | in every run a thread that is doing something is doing what it called last |
| `QueueOrigins.CompletionsAreBegun` | src/posix/ipc_reliable_message_queue.cpp:401-504 | in every run each completed send and each delivery belongs to a call of its own, those of one thread in the order of its calls, and the message sent is the one of the call |
| `QueueOrigins.StopsAreBegun` | src/posix/ipc_reliable_message_queue.cpp:506-524 | in every run a process is stopped only by a call made in it, and is not stopped right after it was reset |
| `QueueWakeups.RunWake` | src/posix/ipc_reliable_message_queue.cpp:401-524 | an invariant of all reachable states about waiting threads that were not notified |
| `QueueWakeups.NoWriterIsStranded` | src/posix/ipc_reliable_message_queue.cpp:401-524 | in every reachable state whose mutex is free or held by a living thread that owes no broadcast, no un-notified waiting writer has room for its message; in every reachable state, threads of a stopped process wait un-notified only while the stop is being broadcast |
| `QueueWakeups.ReaderInTurnIsNotStranded` | src/posix/ipc_reliable_message_queue.cpp:464-487 | in every run whose receives do not overlap, in whatever threads and processes they are made, deaths included: in every state whose mutex is free or held by a living thread that owes no signal, no reader waits un-notified on a queue with a message |
| `QueueStranding.DeadReaderStrandsWriters` | src/posix/ipc_reliable_message_queue.cpp:793-796 | a run in which a reader dies between shrinking the queue and notifying, which leaves writers un-notified although there is room |
| `QueueStranding.DeadWriterStrandsReader` | src/posix/ipc_reliable_message_queue.cpp:756-761 | for every geometry, a run in which a writer dies between growing the queue and notifying, which leaves a reader un-notified although there is a message |
| `QueueStranding.WaitEndsFirstEndsQueue` | src/posix/ipc_sync_wrappers.hpp:199-204 | for every geometry, a run in which an owner dies after it has signalled a reader, the reader's wait ends first, and the mutex is unusable |
| `QueueStranding.DeadReaderEndsQueue` | src/posix/ipc_reliable_message_queue.cpp:793-796 | that run goes on to an unusable mutex with a writer still un-notified |
| `QueueStranding.SecondReaderIsStranded` | src/posix/ipc_reliable_message_queue.cpp:758-761 | for every geometry with two blocks or more, a run without any death but with two receives that overlap, in which two sends signal one of two waiting readers, so that the other waits un-notified on a queue with a message |
| `QueueStranding.StrandedForGood` | src/posix/ipc_sync_wrappers.hpp:145-148 | in every run, a thread that waits un-notified while the mutex is unusable goes on so until its own wait ends or its process dies |
| `QueueProgress.SendCompletes` | src/posix/ipc_reliable_message_queue.cpp:401-462 | from every reachable state with a free mutex, a send, blocking or not, that has room and is left alone completes in a number of steps given by its length, records exactly that send, and leaves the other threads where they were |
| `QueueProgress.ReceiveCompletes` | src/posix/ipc_reliable_message_queue.cpp:464-504 | from every such state, a receive, blocking or not, that has a message and is left alone completes, delivers exactly the first send not yet received, and leaves the other threads where they were |
| `QueueProgress.ReturnsAtOnce` | src/posix/ipc_reliable_message_queue.cpp:438-504 | left alone in every such state, a non-blocking send without room, a non-blocking receive on an empty queue, and a send or a blocking receive of a stopped process return after three steps, and nothing else has changed |
| `QueueProgress.WaitsWithoutMutex` | src/posix/ipc_reliable_message_queue.cpp:401-487 | a blocking send without room and a blocking receive on an empty queue come to wait, un-notified, with the mutex free and nothing else changed |
| `QueueProgress.ClearCompletes` | src/posix/ipc_reliable_message_queue.cpp:526-532 | a clear that is left alone ends with the empty queue, the mutex free, and every waiting writer notified |
| `QueueProgress.StopCompletes` | src/posix/ipc_reliable_message_queue.cpp:506-519 | a stop that is left alone ends with its process stopped, the mutex free, the queue as it was, and every waiting thread notified |
| `RegionLifetime.RunInv` | src/posix/ipc_reliable_message_queue.cpp:556-651 | an invariant of all interleavings of a creator, adopters and closers |
| `RegionLifetime.CounterCountsOwners` | src/posix/ipc_reliable_message_queue.cpp:596-651 | the reference count equals the number of handles that own a reference, adopters that fail validation included |
| `RegionLifetime.DestroyedOnceByLastCloser` | src/posix/ipc_reliable_message_queue.cpp:635-651 | the header is destroyed at most once, by the last closer, when nobody owns a reference |
| `RegionLifetime.NoAttachAfterRelease` | src/posix/ipc_reliable_message_queue.cpp:596-633 | once the count has gone back to zero no handle ever owns a reference again |
| `RegionLifetime.OwnersSeeLiveHeader` | src/posix/ipc_reliable_message_queue.cpp:556-651 | a handle that owns a reference never meets a destroyed header |
| `RegionLifetime.UsersFoundItCompatible` | src/posix/ipc_reliable_message_queue.cpp:606-633 | in every run, a handle that uses the queue created the region or found it compatible, and one that takes its reference back found it incompatible |
| `RegionLifetime.CreationCompletes` | src/posix/ipc_reliable_message_queue.cpp:545-554 | a creator that is left alone ends attached, with the count at one |
| `RegionLifetime.AdoptionCompletes` | src/posix/ipc_reliable_message_queue.cpp:596-633 | an adopter that is left alone with a constructed header ends attached with the count one higher, or, if the region is incompatible, done with the count as it was |
| `RegionLifetime.AdopterGivesUp` | src/posix/ipc_reliable_message_queue.cpp:596-616 | without a constructed header an adopter looks exactly 200 times and then gives up, changing nothing but itself |
| `RegionLifetime.FailedExchangeLooksAgain` | src/posix/ipc_reliable_message_queue.cpp:602-604 | a failed exchange changes no count; the adopter goes on with the count it read |
| `RegionLifetime.CloseCompletes` | src/posix/ipc_reliable_message_queue.cpp:635-651 | closing lowers the count by one, and destroys the header exactly when it was the last reference |
| `TwoLockQueue.RunInv` | src/threadsafe_queue.cpp:94-128 | an invariant of all interleavings of pushes and pops taken pointer step by pointer step |
| `TwoLockQueue.PopsFollowLinks` | src/threadsafe_queue.cpp:107-128 | nodes come out in the order they were linked, each once as value and with the next pop once to be freed; the dummy is only freed |
| `TwoLockQueue.NoFreedNodeIsDereferenced` | src/threadsafe_queue.cpp:107-128 | no step of the queue dereferences a freed node, even while the tail still names it in the middle of a push |
| `TwoLockQueue.EveryNodeHasOneOwner` | src/threadsafe_queue.cpp:107-128 | every allocated node is in the chain or with exactly one thread, so nothing leaks and nothing is freed twice |
| `TwoLockQueue.ValuesArePushed` | include/boost/log/detail/threadsafe_queue.hpp:216-234 | in every interleaving, the values of the nodes a thread has linked, and the one it has in hand, are the values it began to push, in order |
| `TwoLockQueue.QuiescentEmptiness` | src/threadsafe_queue.cpp:94-105 | with no push under way head equals tail exactly when the queue is empty |
| `TwoLockQueue.PopsInTurnTakeInOrder` | include/boost/log/detail/threadsafe_queue.hpp:138-144 | in every run whose pops do not overlap, in whatever threads they are made: the values come out in order, each once; each is destroyed once and after it was taken; and none is read or destroyed in a freed node |
| `TwoLockQueue.SecondConsumerFreesUnreadNode` | include/boost/log/detail/threadsafe_queue.hpp:236-253 | from every state in which one thread has still to take its value and another message is queued, an overlapping pop can free the node first, as the interface comment warns |
| `TwoLockQueue.UnreadNodeIsFreed` | include/boost/log/detail/threadsafe_queue.hpp:236-253 | a run of two pushes and two pops that gets there and frees the node |
| `BucketList.InsertLinks` | src/attribute_set_impl.hpp:283-309 | linking a node in keeps one doubly linked list in the new order |
| `BucketList.EraseLinks` | src/attribute_set_impl.hpp:314-340 | unlinking a node keeps one doubly linked list of the others |
| `BucketList.InsertGroups` | src/attribute_set_impl.hpp:283-311 | a key inserted at its place keeps every bucket one contiguous sorted run |
| `BucketList.RemoveGroups` | src/attribute_set_impl.hpp:314-340 | removing an element keeps every bucket one contiguous sorted run |
| `BucketList.FoundDecides` | src/attribute_set_impl.hpp:345-383 | a bucket search decides whether the map has the key |
| `BucketList.InsertTable` | src/attribute_set_impl.hpp:266-311 | after an insertion list, buckets and count represent the old map with the new key |
| `BucketList.RemoveTable` | src/attribute_set_impl.hpp:314-340 | after a removal they represent the old map without the key |
| `BucketList.BucketTable.FindInBucket` | src/attribute_set_impl.hpp:370-383 | stops at the first node of the bucket not below the key, or at its last node; that node has the key exactly when the map does |
| `BucketList.BucketTable.InsertionPoint` | src/attribute_set_impl.hpp:283-309 | the four branches give the place and the bucket pointers that keep the bucket contiguous and sorted |
| `BucketList.BucketTable.InsertNode` | src/attribute_set_impl.hpp:280-311 | adds the key to the map and keeps list and buckets consistent |
| `BucketList.BucketTable.PushBack` | src/attribute_set_impl.hpp:234-249 | appends an element whose place is the end, as copying in list order does |
| `BucketList.BucketTable.EraseNode` | src/attribute_set_impl.hpp:314-340 | takes the key out of the map and keeps list and buckets consistent |
| `BucketList.BucketTable.Reset` | src/attribute_set_impl.hpp:260-264 | leaves the empty map |
| `AttributeSet.CopyElements` | src/attribute_set_impl.hpp:234-249 | the copy loop gives the same elements in the same order |
| `AttributeSet.Set.constructor` | src/attribute_set_impl.hpp:230-232 | an empty set with an empty pool |
| `AttributeSet.Set.Allocate` | src/attribute_set_impl.hpp:117-127 | never hands out a node that is still in the list or in the pool |
| `AttributeSet.Set.Deallocate` | src/attribute_set_impl.hpp:130-141 | pools the node while there is room, and frees it otherwise |
| `AttributeSet.Set.Find` | src/attribute_set_impl.hpp:345-358 | finds the node of a key exactly when the map has the key |
| `AttributeSet.Set.Insert` | src/attribute_set_impl.hpp:266-311 | adds the key exactly when it is new; an existing value is never replaced |
| `AttributeSet.Set.Erase` | src/attribute_set_impl.hpp:314-340 | removes exactly one key from the map |
| `AttributeSet.Set.Clear` | src/attribute_set_impl.hpp:260-264 | leaves the empty map |
| `AttributeSet.Set.Copy` | src/attribute_set_impl.hpp:234-249 | a copy has the same map and the same order in its own nodes |
| `AttributeSet.Set.Size` | src/attribute_set_impl.hpp:256 | the number of elements is the size of the map |
| `AttributeValueSet.RequestsAreDetermined` | src/attribute_value_set.cpp:340-375 | once everything is acquired, exactly the attribute selected for each key was asked, exactly once, and no shadowed one |
| `AttributeValueSet.LazyEqualsEager` | src/attribute_value_set.cpp:263-298 | any finds followed by a freeze ask the same attributes as freezing at once and give the same keys |
| `AttributeValueSet.ValueSet.constructor` | src/attribute_value_set.cpp:132-145 | nothing is acquired and all storage is free |
| `AttributeValueSet.ValueSet.NewNode` | src/attribute_value_set.cpp:381-389 | takes a slot of the storage while there is one and never passes its end |
| `AttributeValueSet.ValueSet.AcquireNode` | src/attribute_value_set.cpp:340-420 | acquires a key with one request to the attribute selected for it |
| `AttributeValueSet.ValueSet.Find` | src/attribute_value_set.cpp:263-278 | finds or acquires a key, from source before thread before global, with at most one request; values already found stay |
| `AttributeValueSet.ValueSet.FreezeNodesFrom` | src/attribute_value_set.cpp:423-440 | acquires what one set has and was not acquired yet |
| `AttributeValueSet.ValueSet.Freeze` | src/attribute_value_set.cpp:281-298 | acquires all keys of the three sets and keeps every value found before |
| `AttributeValueSet.ValueSet.FindsThenFreeze` | src/attribute_value_set.cpp:263-298 | for every history and every further finds before a freeze, the selected attributes are asked once each and no other is asked |
| `AttributeValueSet.ValueSet.Insert` | src/attribute_value_set.cpp:301-314 | adds a value exactly when the key is not acquired; such a key is never asked for |
| `AttributeValueSet.ValueSet.CopyNodesFrom` | src/attribute_value_set.cpp:443-461 | the unchecked copy loop stays within the storage and copies every element |
| `AttributeValueSet.ValueSet.Copy` | src/attribute_value_set.cpp:224-233 | a copy freezes the original and needs exactly as many slots as there are elements |
| `AttributeValueSet.ValueSet.Over` | src/attribute_value_set.cpp:188-201 | a set over the values of another freezes that one to be counted, so that the unchecked copy fits and room is left for all that can be added |
| `HexText.SpacedIsJoined` | src/dump.cpp:70-116 | the buffer form without its first space is the two-digit text of the bytes joined by single spaces |
| `HexText.DumpDeterminesData` | src/dump.cpp:70-116 | different data give different dumps |
| `HexText.JoinedAt` | src/dump.cpp:63-116 | character by character: two digits of the table for each byte, high one first, and a space between bytes |
| `HexText.TextGrows` | src/dump.cpp:79-115 | writing the buffer form of further bytes, without the first space of the first write, carries the text on |
| `VectorDump.HighHalf` | src/dump_ssse3.cpp:121-123 | shift and mask give the upper half of every byte, although the shift works on 16-bit lanes |
| `VectorDump.SlowEqualsTable` | src/dump_ssse3.cpp:268-305 | digits by arithmetic and by table lookup give the same registers, for every input and letter case |
| `VectorDump.DumpPackIsSpaced` | src/dump_ssse3.cpp:114-143 | a pack of 16 bytes becomes its 48 characters |
| `VectorDump.DumpPackWideIsSpaced` | src/dump_avx2.cpp:131-160 | a pack of 32 bytes, stored lane by lane, becomes its 96 characters |
| `VectorDump.StoredImageHoldsCharacters` | src/dump_ssse3.cpp:50-79 | read back as code units of one, two or four bytes, what was stored is the characters |
| `VectorDump.StoredImagesAgree` | src/dump_avx2.cpp:50-71 | read back as code units, what the AVX2 store wrote is the characters too |
| `VectorDump.BufferFits` | src/dump_ssse3.cpp:150-154 | for every storage address and character width the buffer is aligned and lies inside its storage |
| `VectorDump.StoreAligned` | src/dump_avx2.cpp:50-82 | every store meets the alignment of its instruction |
| `HexDump.FillBytes` | src/dump.cpp:84-92 | the scalar loop fills the buffer with the buffer form of the bytes |
| `HexDump.StoreCharacters` | src/dump_ssse3.cpp:50-79 | stores 16 characters at an aligned place and leaves what is in front of it |
| `HexDump.StorePack` | src/dump_ssse3.cpp:199-201 | stores the 48 characters of a pack |
| `HexDump.FillPacks` | src/dump_ssse3.cpp:190-221 | fills the buffer from aligned packs, reading nothing past the input |
| `HexDump.FillTail` | src/dump_ssse3.cpp:208-236 | fills the buffer from a tail: packs, then single bytes |
| `HexDump.FillWideStride` | src/dump_avx2.cpp:242-252 | fills the buffer from a stride of 32-byte packs |
| `HexDump.Write` | src/dump_ssse3.cpp:204-205 | the text written so far goes on with the next bytes |
| `HexDump.DumpGeneric` | src/dump.cpp:70-116 | writes the joined hexadecimal text, for every data and letter case |
| `HexDump.DumpSsse3` | src/dump_ssse3.cpp:145-238 | writes the same text for every address and character width, in both variants |
| `HexDump.DumpAvx2` | src/dump_avx2.cpp:194-290 | writes the same text for every address and character width |
| `HexDump.DumpData` | src/dump_ssse3.cpp:407-417 | whichever implementation is chosen, the text depends on nothing but data and letter case |
| `RecordCore.PrivateData.constructor` | src/core.cpp:100-121 | a record without sinks, with room for the given number |
| `RecordCore.PrivateData.PushBack` | src/core.cpp:151-159 | appends a sink within the capacity and notes whether it needs other threads |
| `RecordCore.AcceptingEmptyIff` | src/core.cpp:441-464 | nothing is listed exactly when no sink accepts |
| `RecordCore.AcceptingArePicked` | src/core.cpp:441-464 | what is listed are the sinks at the places of the accepting ones, all of them, in order |
| `RecordCore.ApplySinkFilter` | src/core.cpp:441-464 | creates the record with the first accepting sink; an exception leaves exactly when the filter throws and no handler suppresses it |
| `RecordCore.ApplySinkFilters` | src/core.cpp:342-351 | lists the accepting sinks in order, never more than the capacity fixed at the first acceptance |
| `RecordCore.OpenRecord` | src/core.cpp:310-395 | the record is offered to the registered sinks, or to the default sink when none is; it comes out exactly when logging is enabled, the global filter passes, some sink accepts and no exception is left, and lists the accepting sinks in order; an exception leaves exactly when one was thrown and no handler suppresses it |
| `RecordPush.RandomShuffle` | src/core.cpp:61-74 | whatever the generator gives, the first elements are permuted and the others stay |
| `RecordPush.LockSinks` | src/core.cpp:682-698 | the sinks that still exist are kept in order |
| `RecordPush.AliveArePicked` | src/core.cpp:692-698 | what is kept are the sinks at the places of those that still exist, all of them, in order |
| `RecordPush.AliveCounts` | src/core.cpp:692-698 | a sink is kept as often as it is listed, or not at all if it is gone |
| `RecordPush.Settle` | src/core.cpp:710-711 | moves a served sink behind the others without losing any, and logs what the sink answered |
| `RecordPush.TryPass` | src/core.cpp:704-716 | a non-blocking pass logs what each sink answered, keeps account of every sink, and stops exactly at a throwing one |
| `RecordPush.Block` | src/core.cpp:721-731 | blocks on a sink that was seen busy; the outcome is what that sink did, or that the preparation before the shuffle threw |
| `RecordPush.Dispatch` | src/core.cpp:700-751 | the loop makes exactly the calls that the answers determine, ends for all answers, and stops early only on an exception that no handler suppresses |
| `RecordPush.PushRecord` | src/core.cpp:675-762 | the calls are those the answers determine, each logged with the answer given; unless an exception leaves, every sink takes the record or is given up as often as it is listed if it still exists, and never if it is gone; where nothing throws all take it, under every handler; a thread blocks only on a sink seen busy; a sink is given up uncalled if and only if preparation fails |
| `RecordPush.SettledSplits` | src/core.cpp:702-751 | settled sinks are those that took the record and those given up |
| `RecordPush.NothingThrownNothingLost` | src/core.cpp:739-751 | a sink is given up only where its own call or the preparation threw |
| `RecordPush.UnpreparedIff` | src/core.cpp:721-751 | for all answers, a sink is given up uncalled if and only if a suppressing handler is installed, several sinks are alive, and preparation throws where the thread first has to block |
| `RecordPush.UnpreparedIsNeverBlockedOn` | src/core.cpp:739-751 | a sink given up uncalled is never called to consume the record |
| `RecordPush.GiveUpUncalled` | src/core.cpp:721-751 | two busy sinks and failing preparation: a sink is given up that was never called to consume the record |
| `FileNameProofs.CounterReads` | src/text_file_backend.cpp:331-376 | a counter placeholder with any flag, width and precision is read whole |
| `FileNameProofs.DateIsNotCounter` | src/text_file_backend.cpp:331-376 | a date or time placeholder is not taken for a counter |
| `FileNameProofs.SplitFindsCounter` | src/text_file_backend.cpp:519-561 | the split finds the counter placeholder, its width and the number of other placeholders |
| `FileNameProofs.GeneratesName` | src/text_file_backend.cpp:563-608 | a generated name is the pattern with each piece replaced |
| `FileNameProofs.GeneratesPlainName` | src/text_file_backend.cpp:521-609 | the name generated from a pattern without a counter, piece by piece, for every pattern, clock and counter value |
| `FileNameMatching.MatchPieces` | src/text_file_backend.cpp:401-463 | literals and date placeholders match what they were replaced by |
| `FileNameMatching.MatchFromCounter` | src/text_file_backend.cpp:465-507 | from the counter on, a name matches and gives the counter back exactly when no digit follows the counter, or only zeros follow a zero |
| `FileNameMatching.DoubledPercentFails` | src/text_file_backend.cpp:592-603 | without date formatting a name with a doubled percent sign never matches its pattern |
| `FileNameMatching.GeneratedNameMatches` | src/text_file_backend.cpp:379-609 | for every pattern with one counter, clock, counter value and clash suffix: the generated name matches and gives its counter back if and only if the counter is not followed by digits and escaped percent signs come only with a date placeholder |
| `FileNameMatching.ClashDigitsMisread` | src/text_file_backend.cpp:841-859 | an input for which digits added on a clash change the counter read back |
| `FileNameMatching.EscapedPercentDoesNotMatch` | src/text_file_backend.cpp:592-603 | an input for which a pattern does not match its own name |
| `FileNameScan.ScanDigits` | src/text_file_backend.cpp:387-399 | succeeds exactly when the next n characters are digits |
| `Digits.SkipDigits` | src/text_file_backend.cpp:361-363 | stops behind the longest run of digits |
| `Digits.ExtractUint` | src/text_file_backend.cpp:348-352 | reads a number; fails on no digits and on 32-bit overflow |
| `FileNameScan.ParseCounterPlaceholder` | src/text_file_backend.cpp:331-376 | recognises exactly the counter placeholders of the specification |
| `FileNameScan.MatchPlaceholder` | src/text_file_backend.cpp:425-490 | one placeholder of the match, as specified |
| `FileNameScan.MatchPattern` | src/text_file_backend.cpp:379-507 | the matching loop decides as specified for every name and pattern, unsupported placeholders included |
| `FileNameCuts.MatchesIff` | src/text_file_backend.cpp:379-507 | for every name and every pattern of literals, date placeholders and counters: the name matches if and only if it can be cut into one part for each piece, and digits behind them; the counter given back is the value of the last counter part |
| `FileNameCuts.CutMatches` | src/text_file_backend.cpp:401-490 | where a name begins with one part for each piece, the match goes on behind them with the counter so far |
| `FileNameCuts.MatchCuts` | src/text_file_backend.cpp:401-490 | where the match gets past the pieces, the name begins with one part for each of them |
| `FileNameCuts.CounterReadBack` | src/text_file_backend.cpp:331-376 | what is read as a counter placeholder is a flag, a width and a precision, each optional, and the letter, and its width is what is given back |
| `FileNameCuts.UnsupportedIff` | src/text_file_backend.cpp:425-490 | a pattern with an unsupported placeholder fails with that error exactly for the names that have text left where it stands, and matches no other |
| `FileNameCuts.LonePercentIff` | src/text_file_backend.cpp:407-507 | a pattern that ends in a percent sign matches exactly the names that leave at least one digit, and only digits, for it |
| `FileNameScan.FindCounter` | src/text_file_backend.cpp:519-561 | finds the first counter placeholder and counts the others |
| `FileNameScan.NameFromPattern` | src/text_file_backend.cpp:510-609 | builds the specified name |
| `FileNameScan.FreeName` | src/text_file_backend.cpp:841-859 | gives the name itself if unused, else the first unused one with an appended number, and fails only when all 2^32 are used |
| `FilterGrammar.ChainFilterIsMeant` | src/setup/filter_parser.cpp:418-468 | the filter an expression stands for has its truth value: negation signs one by one, operators from left to right with equal precedence |
| `FilterProofs.AttributeParses` | src/setup/filter_parser.cpp:236-258 | an attribute placeholder gives its name |
| `FilterProofs.TestParses` | src/setup/filter_parser.cpp:296-340 | a relation with its operand, quoted or not, is read whole |
| `FilterProofs.SignsParse` | src/setup/filter_parser.cpp:259-266 | negation signs add up to their parity |
| `FilterProofs.SubParses` | src/setup/filter_parser.cpp:227-293 | every subexpression is read whole and gives the filter it stands for |
| `FilterProofs.ChainParses` | src/setup/filter_parser.cpp:162-223 | every chain is read whole and folded from the left |
| `FilterProofs.ParsesToMeaning` | src/setup/filter_parser.cpp:162-293 | for every expression and every white space, place by place and empty where the language allows it, the parser accepts what is spelled, and the filter has the expression's truth value on every record |
| `FilterMisreading.SpelledAfterBareFails` | src/setup/filter_parser.cpp:317-340 | a presence test followed by a spelled-out operator does not parse |
| `FilterMisreading.ParsesIff` | src/setup/filter_parser.cpp:162-340 | for all white space, an expression parses to the filter it means if and only if no presence test is followed by a spelled-out operator; the others are refused where no white space follows an opening percent sign |
| `FilterAcceptance.AcceptsIff` | src/setup/filter_parser.cpp:155-507 | for every text and every filter: the parser returns that filter if and only if the text is an expression that stands for it, with white space around it, in which no presence test is followed by a spelled operator |
| `FilterAcceptance.AcceptedIsWritten` | src/setup/filter_parser.cpp:155-395 | every text that is accepted is a written expression, and the filter returned is what it stands for |
| `FilterAcceptance.EmptyIff` | src/setup/filter_parser.cpp:155-223 | exactly the texts of white space give the empty filter |
| `FilterMisreading.BadChainDiverges` | src/setup/filter_parser.cpp:162-340 | an expression outside that condition is refused or one of its tests comes out as another one, nested in parentheses or not |
| `FilterMisreading.AcceptedAsAnother` | src/setup/filter_parser.cpp:162-340 | a family of expressions, as "%a% and % and % contains %", that the parser accepts and reads as another filter |
| `FilterMisreading.SpelledOperatorExample` | src/setup/filter_parser.cpp:317-340 | an input that is refused although the same with a character operator is accepted |
| `FilterParser.FilterParser.TrimSpacesLeft` | src/setup/parser_utils.cpp:59-66 | skips exactly the leading white space |
| `FilterParser.FilterParser.ScanKeyword` | src/setup/filter_parser.cpp:342-362 | finds a keyword exactly when it is there with white space behind it |
| `FilterParser.FilterParser.ParseOperandAt` | src/setup/parser_utils.cpp:92-143 | reads a quoted or plain operand as specified, with all error cases |
| `FilterParser.FilterParser.ScanRelationAt` | src/setup/filter_parser.cpp:301-321 | records the relation that is there |
| `FilterParser.FilterParser.ParseRelationAt` | src/setup/filter_parser.cpp:296-340 | pushes exactly one filter, the one the relation stands for |
| `FilterParser.FilterParser.ParseAttributeAt` | src/setup/filter_parser.cpp:236-248 | reads an attribute placeholder |
| `FilterParser.FilterParser.ParseSubexpression` | src/setup/filter_parser.cpp:227-293 | on success pushes exactly one filter, the one the text stands for |
| `FilterParser.FilterParser.ParseChainAt` | src/setup/filter_parser.cpp:162-223 | folds a chain into one filter on top of what the stack held |
| `FilterParser.FilterParser.OnRelationComplete` | src/setup/filter_parser.cpp:373-416 | pushes the pending relation and forgets it; its internal-error branches are excluded by preconditions that all callers meet |
| `FilterParser.FilterParser.OnNegation` | src/setup/filter_parser.cpp:418-430 | negates the top filter, which always exists |
| `FilterParser.FilterParser.OnLogical` | src/setup/filter_parser.cpp:432-468 | replaces the two top filters, which always exist, by their combination |
| `FilterParser.FilterParser.Run` | src/setup/filter_parser.cpp:488-505 | the whole text is read; the stack ends with the returned filter and nothing else |
| `ScopeNames.FindOpeningOk` | src/named_scope_format_parser.cpp:221-326 | names begin inside the interval, the unscoped one not before the scoped one, and the scan stops at a parenthesis |
| `ScopeNames.NameRange` | src/named_scope_format_parser.cpp:380-470 | for every string, a name found is not empty, lies inside the string and ends just before a parenthesis; no scan reads outside the string |
| `ScopeNames.UnscopedIsSuffix` | src/named_scope_format_parser.cpp:444-466 | the unscoped name is a suffix of the scoped one whenever both are found |
| `ScopeNames.BracketFirstNoName` | src/named_scope_format_parser.cpp:236-256 | a text that begins with a parenthesis or an angle bracket, as the fallback for unknown functions does, has no name |
| `ScopeNameScan.SkipTemplateParameters` | src/named_scope_format_parser.cpp:182-218 | the loop ends inside the string at the specified place |
| `ScopeNameScan.FindOpeningParenthesis` | src/named_scope_format_parser.cpp:221-326 | the loop ends with the specified positions |
| `ScopeNameScan.FindClosingParenthesis` | src/named_scope_format_parser.cpp:328-378 | the loop ends with the specified position and character |
| `ScopeNameScan.ParseFunctionName` | src/named_scope_format_parser.cpp:380-470 | ends for every string because the interval shrinks; failure leaves the range as it was |
| `ScopeSignatures.WordScans` | src/named_scope_format_parser.cpp:285-320 | an identifier is scanned as a name, or as an operator exactly when it begins with that word |
| `ScopeArguments.ArgumentsClose` | src/named_scope_format_parser.cpp:328-378 | arguments with nested parentheses, angle brackets or operator names are scanned up to the parenthesis that closes them |
| `ScopeArguments.FirstCharIsMark` | src/named_scope_format_parser.cpp:328-378 | the first significant character is the first that is no space, parenthesis or text in angle brackets |
| `ScopeSignatures.TokensScan` | src/named_scope_format_parser.cpp:233-326 | words, scopes, marks and template arguments in front of the arguments are scanned as specified |
| `ScopeSignatures.SignatureName` | src/named_scope_format_parser.cpp:380-470 | from every ordinary signature, with scopes, pointers, references and template arguments in the return type and template arguments in the name, the scoped name comes out if and only if no word of the return type begins with "operator" and a name that begins with "::" has nothing in front of it; the unscoped one if and only if neither the return type nor a part of the name begins with "operator", or the last part does |
| `ScopeSignatures.OperatorScopeMisread` | src/named_scope_format_parser.cpp:66-75 | for every scope that begins with "operator" the unscoped name does not come out |
| `ScopeSignatures.RootedNameMisread` | src/named_scope_format_parser.cpp:233-326 | for every return type and name, as in "int ::f()", the return type comes out as a scope of the name |
| `ScopeOperators.SymbolEnds` | src/named_scope_format_parser.cpp:101-157 | every operator symbol of the language ends where it should, except that the last character of != and of <=> is left over |
| `ScopeOperators.OperatorEnds` | src/named_scope_format_parser.cpp:66-179 | the same for all operators: calls, subscripts, literals and conversions included, what is left over being text that the scan passes over |
| `ScopeOperators.OperatorName` | src/named_scope_format_parser.cpp:66-469 | for all operators, with any return type, scope, template arguments and arguments: the name without scope is found, and the name with scope if and only if no word of the return type begins with the keyword and a name that begins with :: has nothing in front of it |
| `ScopeOperators.DestructorName` | src/named_scope_format_parser.cpp:221-469 | for all destructors: the name without scope is found if and only if neither the class nor a word in front begins with operator, the one with scope as for operators |
| `StoredFiles.EvictsShortestPrefix` | src/text_file_backend.cpp:896-928 | eviction tries a prefix and leaves of it only what cannot be removed; each entry was tried because, with the new file, the total or the count was above its limit or the free space last reported below its own, and unless all were tried none of this holds in the end |
| `StoredFiles.StuckArePicked` | src/text_file_backend.cpp:916-920 | what eviction leaves of the entries it tried are those at the places of the ones that cannot be removed, all of them, in order |
| `StoredFiles.EvictionSuffices` | src/text_file_backend.cpp:896-928 | when everything can be removed, the shortest sufficient prefix goes, in numbers, and then either nothing is left or the new file fits the size, count and free space limits |
| `StoredFiles.SortIsStable` | src/text_file_backend.cpp:1020-1023 | ordering by time loses and adds nothing and keeps files of the same time in order |
| `StoredFiles.NotBehindIff` | src/text_file_backend.cpp:1012-1014 | within half of the counter range the wrapping comparison is the comparison of distances |
| `FileCollector.LastCounterIsNewest` | src/text_file_backend.cpp:1012-1014 | with counters in one half of their range the reported counter is the most recent one, wrap-around included |
| `FileCollector.AddedArePicked` | src/text_file_backend.cpp:986-1018 | what a scan adds are the regular, unknown, matching files of the directory, all of them, in order |
| `FileCollector.StoredWithinLimits` | src/text_file_backend.cpp:896-938 | after storing a file with every eviction succeeding it is the only entry, or the size and count limits hold |
| `FileCollector.Collector.constructor` | src/text_file_backend.cpp:788-805 | no files, total zero |
| `FileCollector.Collector.Forget` | src/text_file_backend.cpp:868-890 | drops the first entry for a path, and the total follows |
| `FileCollector.Collector.EvictOld` | src/text_file_backend.cpp:896-928 | evicts as specified, and the total follows |
| `FileCollector.Collector.StoreFile` | src/text_file_backend.cpp:813-939 | the new file becomes the last entry behind what eviction left; the total stays the sum of the entries |
| `FileCollector.Collector.ScanEntries` | src/text_file_backend.cpp:986-1018 | collects exactly the regular, unknown, matching files and their total size |
| `FileCollector.Collector.ScanForFiles` | src/text_file_backend.cpp:965-1028 | adds the files found and orders the list by time; the total stays the sum of the entries |
| `FileCollector.Collector.Update` | src/text_file_backend.cpp:1030-1038 | limits only ever become tighter |
| `FileOpening.Backend.NextCounter` | src/text_file_backend.cpp:1449-1476 | steps the counter unless the last file is continued or the counter is unused |
| `FileOpening.Backend.SearchFile` | src/text_file_backend.cpp:1443-1543 | tries counters in order, each once, until a file is not full or the counters are used up |
| `FileOpening.Backend.OpenFile` | src/text_file_backend.cpp:1443-1543 | ends within 2^32 + 1 rounds for every assignment of sizes and every starting counter; the file left open is the first that is empty or has room, unless the counters are used up |
| `FormatText.JoinedFormatsSame` | src/format_parser.cpp:46-131 | joining adjacent literals gives a sequence without empty or adjacent literals that formats to the same text |
| `FormatText.WriteThenRead` | src/format_parser.cpp:40-131 | literals and arguments 0 to 999, written and read back, come out with adjacent literals joined |
| `FormatReading.ArgumentIff` | src/format_parser.cpp:76-118 | a positional argument is found if and only if a number from 1 to 1000 without leading zeros stands between percent signs |
| `FormatReading.TooLargeIff` | src/format_parser.cpp:93-101 | it is refused as too large if and only if a larger 32-bit number stands there |
| `FormatReading.ReadsIff` | src/format_parser.cpp:40-131 | for every text: it is read as literals and arguments if and only if it is their written form, or that form without the second of two percent signs at its end |
| `FormatReading.FailsIff` | src/format_parser.cpp:76-118 | for every text: reading fails at a place, with an error, if and only if written parts come before it and a percent sign that begins nothing known stands there |
| `FormatParser.ParseArgument` | src/format_parser.cpp:76-118 | reads a positional argument, with all error cases |
| `FormatParser.ParseFormat` | src/format_parser.cpp:40-131 | for every text the description means what the text says, its literal elements tile the literal characters in order, and errors carry their position |
| `FormatParser.WriteThenParse` | src/format_parser.cpp:40-131 | a description parsed from written literals and arguments means them, with adjacent literals joined |

## Left out

- Memory ordering: steps of the concurrent models are sequentially consistent.
- Creation, mapping, waiting times and yields of shared memory, and the ABI tag check: operating system plumbing. The
  region model keeps the reference count steps; its theorems assume fewer than 2^32 handles.
- Failure of the condition variable calls other than through a dead mutex owner, and deaths of single threads: a process
  dies as a whole.
- MessageQueue.ReliableMessageQueue.constructor: requires a ring of at most 2^32 bytes, which is exactly the condition of
  `MessageRing.NoBytesLostIff`.
- MessageQueue.ReliableMessageQueue.EnqueueMessage: requires a message whose 32-bit block count does not wrap, which is
  exactly the condition of `MessageRing.EstimateExactIff`.
- MessageQueue.ReliableMessageQueue.TrySend: has the same condition, and one reading of the stop flag stands for both.
- Shared rings of more than 2^32 bytes, in which the code loses payload (`MessageRing.NoBytesLostIff`): the protocol is
  modelled for the others, whose chunks are exact by `QueueProtocol.ChunksAreThoseOfTheCode`.
- TwoLockQueue.PopsInTurnTakeInOrder: the value of a freed node is left open, so nothing is claimed about what an
  overlapping pop reads.
- AttributeValueSet.ValueSet.constructor: the three attribute sets are values that stay fixed while the value set is
  filled; that other threads may change them is not modelled.
- Value sets made by moving another one, which only swap two pointers.
- AttributeValueSet.LazyEqualsEager: compares finds and freezes. A value inserted before the freeze is covered as a key
  that is never asked for.
- CPU detection, and the `switch` over character types: the width is a parameter.
- HexDump.DumpSsse3: the two counted loops over strides and tail are written as loops over what is left.
- RecordCore.OpenRecord: fewer than 2^32 sinks, no failing allocation; the second reading of the enabled flag under the
  lock is the same value as the first.
- RecordPush.PushRecord: a handler either suppresses an exception or throws; locking of the record view is not modelled.
- Date and time formatting: each placeholder becomes its fixed number of digits, and paths have no directory part.
- FileCollector.Collector.StoreFile: sizes are unbounded, so that totals of 2^64 bytes and more do not wrap; two paths
  are the same file exactly when their numbers are equal.
- FileOpening.Backend.OpenFile: files keep their sizes during the search, and opening a file does not fail.
- Time-based rotation, open and close handlers, flushing and the writing of the message itself.
- FilterParser.FilterParser.ParseOperandAt: escape sequences in quoted operands are kept as written, because their
  translation is a separate text-to-text step.
- FilterParser.FilterParser.Run: filter factories are symbols of the filter tree, and nesting depth is unbounded.
- ScopeSignatures.SignatureName: single colons and parentheses in the return type are not in the grammar, and template
  arguments and arguments with template brackets name no operator; strings of any form are covered by
  `ScopeNames.NameRange` and `ScopeNames.UnscopedIsSuffix`.
- ScopeOperators.OperatorName: template arguments behind `operator<` are set off by a space, as without it they are read
  as `operator<<`; conversions to types written with parentheses are not in the grammar, as in the source.
- FormatParser.ParseFormat: literal positions are unbounded instead of 32-bit.
- Settings readers, sinks, syslog, event log, debugger and network backends, attributes, timers, thread and process ids,
  and regular expressions.
