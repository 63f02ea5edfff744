# storeSystem, verified

A Dafny model of the parts of storeSystem that are hard to get right, with
proofs of what they promise. storeSystem is an in-memory key-value cache with
strings, hashes and ordered sets, limits on keys and memory, deadlines, an
append-only log, snapshots, and write-back to a MySQL database. One reactor
thread works with a log writer thread, a database writer thread and a pool of
database readers.

`dafny verify dfyconfig.toml` checks everything.

## How it is built

Threads that share state are step systems: a state, one function for each step
that a thread may take, and runs of steps in any order. Theorems speak of every
run. Code that works in place is modelled by classes whose methods change fields,
loop and relink as the C code does; each method is proved against the step system
or against a function of the old state.

| module | what it models |
|---|---|
| `WriteBack` | numbering, log markers, the database writer with retries and lost acknowledgements, crash and start-up |
| `CacheAside` | reads that miss: deferral, coalescing, dirty keys, load generations, negative cache, on top of `WriteBack` |
| `Order`, `RbShape`, `RbMemory`, `RbTree` | the ordered set's tree: shapes as a zipper, memory as cells with parent links and a shared sentinel, the pointer code |
| `SkipList`, `OrderedSet` | the ordered set's other engine, and both behind one dictionary |
| `AofLog`, `AofWriter` | transactions, chunks, partial writes, syncs and published sequences of the log, as steps and as code |
| `Resp`, `AofReplay` | the wire format, the log's records, replay and repair of a torn tail |
| `HashTable`, `ExpireHeap`, `LruList`, `Cache` | the index with incremental rehash, the deadline heap, the recency list, and the cache that joins them |
| `Records`, `MarkerLog`, `Service`, `Outbox`, `Commands` | commands, the records they leave, replay, markers and submissions to the database |
| `Double`, `Crc64`, `Rdb`, `RdbFile`, `Recovery` | the snapshot format, its checksum, and recovery from a snapshot and the log after it |

Names used below:

- A *mutation* is in doubt when its commit was sent and neither success nor failure is known. A commit in doubt may still land at any later time, even after the process that sent it is gone.
- A *crash is covered* when every number in doubt is at most the database's watermark or the last number in the part of the log that survives.
- A row is *final* for a key when it is what the database will hold after every mutation submitted so far.
- A command *drops an entry silently* when it removes an expired entry and logs nothing about it.

## Model

| member | source | states |
|---|---|---|
| `WriteBack.ExactlyOnce` | src/storage/mysql_store.c:945-1015 | after every run of submissions, writer turns, failed statements, lost acknowledgements, late commits, covered crashes and restarts the rows are the bootstrapped rows with the mutations numbered up to the watermark folded in, each once and in order, and the change log holds exactly those numbers |
| `WriteBack.AppliedIsForever` | src/storage/mysql_store.c:1147-1231 | in such runs the watermark never falls and the mutations below it stay the ones of their numbers, across crashes and whatever the log lost |
| `WriteBack.RestartCatchesUp` | src/app/main.c:1695-1833 | a crash that leaves the log intact loses nothing: the next start-up succeeds and the rows become the fold of every mutation submitted |
| `WriteBack.ExactIffCovered` | src/storage/mysql_store.c:1581-1613 | a crash keeps the database exact in every later run if and only if each transaction still in doubt has a number that the database or the kept log knows |
| `WriteBack.OrphanDisplaces` | src/storage/mysql_store.c:977-1015 | after any crash that is not covered, for any next mutation, there is a run in which the orphan's effect stands in the rows while the mutation counts as applied |
| `WriteBack.OrphanWitness` | src/storage/mysql_store.c:1147-1231 | such a run written out from an empty database: one mutation is lost and another one stands in its place |
| `WriteBack.IntactRunsAreSafe` | src/app/main.c:754-795 | runs in which every crash leaves the log intact have covered crashes only, so that `ExactlyOnce` and `AppliedIsForever` hold for all of them |
| `WriteBack.IntactLogIsCovered` | src/app/main.c:754-795 | with the log intact a crash is covered and drops no mutation from the history |
| `WriteBack.RecoveryFinishes` | src/storage/mysql_store.c:1581-1613 | start-up with acknowledged transactions gets through the rest of the log, ends running, and leaves watermark and numbering at the last mutation |
| `WriteBack.NextToRecover` | src/storage/mysql_store.c:1581-1613 | the next marked record above the watermark has the next number, and the unique key admits its transaction |
| `WriteBack.RecoverCommitKeepsInv` | src/storage/mysql_store.c:1581-1613 | a recovery transaction that commits keeps the invariant whether or not its acknowledgement arrives |
| `WriteBack.LateKeepsStartUp` | src/storage/mysql_store.c:1581-1613 | a commit left over from a dead process may land during start-up without harm when the crash was covered |
| `WriteBack.CommitKeepsExact` | config/mysql-v0.7.0.sql:61-78 | a transaction admitted by the unique key with a number at most one above the watermark is the next one, and extends the fold by exactly its mutation |
| `WriteBack.NextKeepsInv` | src/storage/mysql_store.c:1147-1231 | every step, covered crashes included, keeps the invariant of queue, writer, log, doubts and database |
| `WriteBack.QuietIsFinal` | src/storage/mysql_store.c:1991-2047 | for a key with no mutation above the watermark the database holds what it will hold after all mutations submitted |
| `WriteBack.Store.Submit` | src/storage/mysql_store.c:1991-2047 | gives the mutation the next number, marks it in the log and queues it, at whatever point the writer is |
| `WriteBack.Store.TryApply` | src/storage/mysql_store.c:945-975 | one try is one step of the protocol for each outcome, a duplicate number counts as refused, and true is returned only for an acknowledged commit |
| `WriteBack.Store.LateTurn` | src/storage/mysql_store.c:977-1015 | a commit of an earlier connection may land before the watermark is asked for; the invariant holds |
| `WriteBack.Store.ConnectedTurn` | src/storage/mysql_store.c:1147-1231 | a turn of the retry loop is a run of the step system that ends with the job applied or to be checked again |
| `WriteBack.Store.Serve` | src/storage/mysql_store.c:1147-1231 | serving a job is a run of the step system; the job leaves the queue, and if it is reported applied the published watermark is the real one and has risen by exactly one |
| `CacheAside.NoStaleFill` | src/app/main.c:944-1046 | in every run, a load result that is judged not stale equals what the database will hold for the key after every mutation submitted so far, and so does everything the judgement puts into the cache or the negative cache |
| `CacheAside.NegativeCacheIsTrue` | src/app/main.c:231-298 | in every run, a key recorded as absent has no row, or one past its deadline, after every mutation submitted so far |
| `CacheAside.FreshLoadIsFinal` | src/app/main.c:342-355 | a verdict of not stale certifies a value that was read in several queries, without a lock, while the writer went on |
| `CacheAside.NextKeepsInv` | src/app/main.c:488-630 | every step of reactor, readers, writer, clock, crash and restart keeps the joint invariant |
| `CacheAside.IntactRunsAreSafe` | src/app/main.c:754-795 | runs in which every crash leaves the log intact have covered crashes only |
| `CacheAside.SubmitLoadKeepsInv` | src/storage/mysql_store.c:1922-1975 | a load that starts a job, joins one that is under way, or is turned away keeps the invariant when its key is quiet |
| `CacheAside.CompleteKeepsInv` | src/app/main.c:861-904 | a deferred command executed after its load keeps the invariant |
| `CacheAside.ReadersKeepInv` | src/storage/mysql_store.c:1036-1130 | the separate reads of a job and the copy of its waiters before the lock keep the invariant |
| `CacheAside.UnregisterKeepsCount` | src/app/main.c:357-374 | dropping a deferred request keeps the count of a key's generation entry equal to its registered requests |
| `CacheAside.FullQueueChangesNothing` | src/app/main.c:575-615 | registering for a queue that turns out to be full and unregistering again leaves all generations as they were |
| `CacheAside.CleaningIsInvisible` | src/app/main.c:468-486 | forgetting a key whose mutations are applied changes no later verdict on any key |
| `CacheAside.Tables.MarkDirtyKey` | src/app/main.c:434-458 | records the key's newest sequence and raises the generation of its loads, and touches no other key |
| `CacheAside.Tables.DirtyKeySequence` | src/app/main.c:413-432 | the sequence to wait for, 0 when it is applied; an applied entry is dropped |
| `CacheAside.Tables.RegisterLoad` | src/app/main.c:314-340 | one more request for the key, with a generation that is not stale |
| `CacheAside.Tables.UnregisterLoad` | src/app/main.c:357-374 | one request less; the entry goes with the last one |
| `CacheAside.Tables.ResultIsStale` | src/app/main.c:958-1016 | true exactly when some waiter of the result has a stale generation |
| `CacheAside.Tables.DrainDirtyWaiters` | src/app/main.c:906-942 | requests whose key is clean leave the list in order, the others stay in order, and no verdict changes |
| `Order.LessTotal` | src/engine/object.c:134-147 | the order of score and member is a strict total order |
| `Order.LessTransitive` | src/engine/object.c:134-147 | and transitive |
| `Order.BytesTotal` | src/engine/object.c:120-132 | so is the order of members, irreflexive and asymmetric |
| `Order.BytesTransitive` | src/engine/object.c:120-132 | and transitive |
| `RbShape.InsertFixInorder` | src/engine/object.c:400-440 | the insertion fix-up does not change the in-order sequence |
| `RbShape.InsertFixRedBlack` | src/engine/object.c:400-440 | it turns a tree whose only fault is a red node at the focus into a red-black tree |
| `RbShape.DeleteFixInorder` | src/engine/object.c:499-557 | the deletion fix-up does not change the in-order sequence |
| `RbShape.DeleteFixRedBlack` | src/engine/object.c:499-557 | it turns a tree that lacks one black node at the focus into a red-black tree |
| `RbTree.Engine.LeftRotate` | src/engine/object.c:353-367 | the pointer writes realise the rotation at any focus, with parent links and both sizes right, and keep all items and the sentinel |
| `RbTree.Engine.RightRotate` | src/engine/object.c:369-383 | the mirror image |
| `RbTree.Engine.InsertFixup` | src/engine/object.c:400-440 | the loop terminates and leaves the tree of the fix-up's shape, with links, parents and sizes exact |
| `RbTree.Engine.InsertNode` | src/engine/object.c:442-470 | a prepared node takes its place in the order, everything else keeps its own, and links, parents, sizes, colours and black heights are valid again |
| `RbTree.Engine.Minimum` | src/engine/object.c:472-476 | the leftmost node of a subtree, which is the first of its in-order sequence |
| `RbTree.Engine.Successor` | src/engine/object.c:478-489 | the next node of the in-order sequence, or the sentinel after the last |
| `RbTree.Engine.Transplant` | src/engine/object.c:491-497 | redirects the one link from above and writes the parent, the sentinel's included, and nothing else |
| `RbTree.Engine.DeleteFixup` | src/engine/object.c:499-557 | the loop terminates from a focus that may be the sentinel, and leaves the tree of the fix-up's shape |
| `RbTree.Engine.RecalculateUp` | src/engine/object.c:330-336 | makes every size on the way to the root exact |
| `RbTree.Engine.DetachNode` | src/engine/object.c:559-603 | exactly the target leaves the in-order sequence, and links, parents, sizes, colours and black heights are valid again |
| `RbTree.Engine.ByRank` | src/engine/object.c:605-620 | the node at that index of the in-order sequence, or the sentinel |
| `RbTree.Engine.Prepare` | src/engine/object.c:385-398 | a fresh or detached node made ready, nothing else touched |
| `RbTree.Engine.constructor` | src/engine/object.c:338-351 | an empty valid tree |
| `SkipList.SpliceExact` | src/engine/object.c:211-257 | on a level the new node reaches, both halves of the split link have exact spans, null links included |
| `SkipList.StretchExact` | src/engine/object.c:211-257 | on a level above it, the link over the place is exact again when it grows by one |
| `SkipList.LeadsTo` | src/engine/object.c:264-300 | the link over the target's position leads to the target exactly when the target reaches the level |
| `SkipList.BridgeExact` | src/engine/object.c:264-300 | joining the two links of a level makes its spans exact for the list without the target |
| `SkipList.ShrinkExact` | src/engine/object.c:264-300 | so does shortening the link over it by one |
| `SkipList.List.Search` | src/engine/object.c:211-257 | finds, on every level, the last node before the item and its exact position |
| `SkipList.List.InsertNode` | src/engine/object.c:211-257 | a node of any height takes its place; spans, backward links, tail and level are exact |
| `SkipList.List.DetachNode` | src/engine/object.c:264-300 | exactly the target leaves the list; spans, backward links, tail and level are exact |
| `SkipList.List.ShrinkLevel` | src/engine/object.c:264-300 | drops exactly the levels that only the header reaches |
| `SkipList.List.ByRank` | src/engine/object.c:302-320 | the node at that index of the order, or null |
| `SkipList.List.Next` | src/engine/object.c:1108-1160 | the next node of the order, or null |
| `SkipList.List.Prepare` | src/engine/object.c:259-262 | a node outside the list gets its contents and height |
| `SkipList.List.constructor` | src/engine/object.c:187-194 | an empty valid list |
| `OrderedSet.EnginesAgree` | src/engine/object.c:775-806 | for any sequence of adds, score changes, removals, lookups, ranges with signed bounds and clones, and whatever heights are drawn for each node made, those of a clone included, the skip list and the tree give the same answers, those of the sorted listing |
| `OrderedSet.PerformAll` | src/engine/object.c:993-1160 | either engine answers any sequence of operations as the specification on a map of scores does |
| `OrderedSet.ListsUnique` | src/engine/object.c:1250-1279 | a set of scores has one strictly sorted listing only |
| `OrderedSet.IndexIsListing` | src/engine/object.c:1250-1279 | a sorted index that agrees with the dictionary on members and scores is that listing |
| `OrderedSet.FoldedListing` | src/engine/object.c:1331-1374 | adding a set's listing to an empty set gives the set back |
| `OrderedSet.Index.InsertNew` | src/engine/object.c:679-686 | puts a node at its place in either engine |
| `OrderedSet.Index.Detach` | src/engine/object.c:704-711 | takes exactly that node out of either engine |
| `OrderedSet.Index.Move` | src/engine/object.c:688-702 | a score change keeps the nodes and re-sorts the index |
| `OrderedSet.Index.Range` | src/engine/object.c:1108-1160 | visits exactly the normalised slice |
| `OrderedSet.ZSet.Add` | src/engine/object.c:993-1057 | sets the member's score and nothing else, and reports whether it was added or changed |
| `OrderedSet.ZSet.Remove` | src/engine/object.c:1077-1099 | removes exactly the member, and reports whether it was there |
| `OrderedSet.ZSet.Score` | src/engine/object.c:1059-1075 | the score on record, or none |
| `OrderedSet.ZSet.Range` | src/engine/object.c:1108-1160 | the slice of the sorted listing, for any signed bounds |
| `OrderedSet.ZSet.Listed` | src/engine/object.c:1250-1279 | the ordered index is the listing of the dictionary, of the same length |
| `OrderedSet.ZSet.Clone` | src/engine/object.c:1331-1374 | a fresh set with the same engine kind and contents |
| `AofLog.Conservation` | src/persistence/aof.c:841-889 | in every interleaving of producer, writer and sync steps, partial writes included, on a new or a reopened file, the file, the queued bytes not yet in it, the producer's chunk and the uncopied rest are what the file held before and the concatenation of all committed transactions in sequence order |
| `AofLog.ReadyIsWritten` | src/persistence/aof.c:949-953 | a sequence reported ready has, after what the file held before, all transactions up to it in the file, and under the policy that syncs always in the part that a finished sync covers |
| `AofLog.DrainedIsComplete` | src/persistence/aof.c:903-928 | once all is flushed and drained without failure the published sequence is the last one assigned, and the file is what it held before and all transactions |
| `AofLog.CheckpointIsABoundary` | src/persistence/aof.c:682-731 | when the last sequence is published the file ends with the last transaction, and once synced all of it is on disk |
| `AofLog.RunOnTop` | src/persistence/aof.c:530-579 | a run on a reopened file does what the same run does on a new one, on top of what the file held before |
| `AofLog.RecordsTheCalls` | src/persistence/aof.c:831-894 | those transactions are exactly what the begin, append, commit, rollback and flush calls made, in order |
| `AofLog.RunOnlyGrows` | src/persistence/aof.c:404-528 | nothing written, published or synced is ever taken back |
| `AofLog.NextKeepsInv` | src/persistence/aof.c:404-528 | every step keeps the invariant of bytes, marks and published numbers |
| `AofLog.CompletedIsInside` | src/persistence/aof.c:358-385 | the sequence that consuming completes lies wholly inside the consumed bytes |
| `AofLog.DropMarks` | src/persistence/aof.c:358-385 | consuming any number of bytes keeps every sequence mark at the end of its transaction |
| `AofLog.CutMarks` | src/persistence/aof.c:268-307 | bytes cut into chunks are marked in the last chunk only, where they end |
| `AofWriter.Log.Begin` | src/persistence/aof.c:831-839 | opens a transaction exactly when none is open, the queue is below its limit and no error is published |
| `AofWriter.Log.Append` | src/persistence/aof.c:811-829 | the record joins the transaction, or the pending bytes outside one; refused after a failure |
| `AofWriter.Log.Rollback` | src/persistence/aof.c:891-894 | forgets the transaction and nothing else |
| `AofWriter.Log.QueueChunk` | src/persistence/aof.c:253-266 | the chunk joins the queue, with its bytes counted and backpressure raised at the high mark |
| `AofWriter.Log.CopyPiece` | src/persistence/aof.c:841-889 | one turn of the commit loop is one step of the step system, with the writer at any point |
| `AofWriter.Log.Commit` | src/persistence/aof.c:841-889 | a commit is a run of the step system: the whole transaction joins the log under the next sequence, an empty one takes none |
| `AofWriter.Log.Collect` | src/persistence/aof.c:404-528 | the bytes of at most sixteen chunks, from the head of the queue |
| `AofWriter.Log.ConsumeWritten` | src/persistence/aof.c:358-385 | takes exactly the written bytes off the queue, reports the last sequence they complete, and releases backpressure at the low mark |
| `AofWriter.Log.SyncAndPublish` | src/persistence/aof.c:309-355 | publishes after a sync that covers the sequence, or fails, as a run of the step system |
| `AofWriter.Log.WriterTurn` | src/persistence/aof.c:404-528 | a turn of the writer, with a whole, partial or failed write and a sync that works or fails, is a run of the step system |
| `AofWriter.Log.Flush` | src/persistence/aof.c:903-928 | queues the producer's chunk, then the pending bytes under a sequence of their own, as a run of the step system |
| `AofWriter.CutPending` | src/persistence/aof.c:268-307 | cuts bytes into full chunks, the last one ending the sequence |
| `Resp.PrefixStable` | src/protocol/resp.c:99-183 | before the end of the stream, a complete request or an error, frame-limit errors included, is the answer on every extension of the data |
| `Resp.RoundTrip` | src/protocol/resp.c:308-336 | an encoded request followed by any bytes parses to itself and its exact length if it fits the frame limit, and to an error if not |
| `Resp.ChunkIndependence` | src/net/reactor.c:311-346 | however the bytes of a connection are cut into pieces, the commands, the rest of the buffer and the closing are the same |
| `Resp.DrainThen` | src/net/reactor.c:311-346 | bytes received after the commands were taken are as good as bytes that were there before |
| `Resp.LineRoundTrip` | src/protocol/resp.c:40-83 | an encoded number line reads back as its number, or is an error where it passes the limit |
| `Resp.ParseDecimalLine` | src/protocol/resp.c:40-83 | the loop computes the line that the specification of prefix stability is about |
| `Resp.ParseArgument` | src/protocol/resp.c:99-183 | one argument of that specification |
| `Resp.ParseRequest` | src/protocol/resp.c:99-183 | the whole parse of that specification |
| `AofReplay.TornTail` | src/persistence/aof.c:581-629 | a log cut after any number of bytes replays exactly the records wholly inside, is never called corrupt, and is cut back to the log of those records |
| `AofReplay.AppendAfterRepair` | src/persistence/aof.c:596-629 | records appended after the repair make a log again, and all of it replays |
| `AofReplay.ReplayFromBoundary` | src/persistence/aof.c:581-629 | replay from a record boundary delivers exactly the records after it |
| `AofReplay.TornRecord` | src/protocol/resp.c:99-183 | every proper prefix of an encoded record is incomplete, never an error |
| `AofReplay.DecimalLength` | src/persistence/aof.c:117-122 | the number of decimal digits |
| `AofReplay.EncodedSize` | src/persistence/aof.c:131-152 | the exact size of the encoded record, or refusal exactly when it is not encodable |
| `AofReplay.EncodeUnsigned` | src/persistence/aof.c:154-169 | writes exactly the line, and nothing outside its place in the buffer |
| `AofReplay.EncodeRecord` | src/persistence/aof.c:171-191 | writes exactly the encoded record into the buffer, or reports that the size is wrong |
| `AofReplay.ReplayFrom` | src/persistence/aof.c:581-629 | delivers the records that the torn-tail theorem speaks of, repairs the file, and leaves it alone on an error |
| `HashTable.HashTable.Find` | src/kvstore_hash.c:269-285 | agrees with the map in every rehash state |
| `HashTable.HashTable.Insert` | src/kvstore_hash.c:287-332 | adds a new key to the map and refuses a present one, in every rehash state |
| `HashTable.HashTable.Remove` | src/kvstore_hash.c:334-346 | removes exactly the key, from whichever table holds it |
| `HashTable.HashTable.SetPayload` | src/kvstore_hash.c:353-358 | changes the value of exactly that key, where its node is, in every rehash state |
| `HashTable.HashTable.MaybeExpand` | src/kvstore_hash.c:153-185 | starts a rehash exactly when three quarters would be exceeded, and changes no mapping |
| `HashTable.HashTable.RehashStep` | src/kvstore_hash.c:411-452 | changes no mapping, passes at most eleven buckets for each unit of budget and at least one, and ends with twice the buckets |
| `HashTable.HashTable.RehashFully` | src/kvstore_hash.c:411-452 | as many calls as the table has buckets finish any rehash, without changing the map |
| `HashTable.HashTable.Next` | src/kvstore_hash.c:465-491 | yields one of the nodes still to come, and leaves exactly the others |
| `HashTable.HashTable.Sweep` | src/kvstore_hash.c:454-491 | yields every node exactly once, also when visited nodes are removed on the way, and removes exactly those |
| `HashTable.EachKeyOnce` | src/kvstore_hash.c:454-491 | so that no key is yielded twice |
| `HashTable.VisitedUnlinked` | src/kvstore_hash.c:209-240 | removing the node just visited leaves what is still to come as it was |
| `HashTable.RepresentsCovers` | src/kvstore_hash.c:269-285 | nodes with different keys, as many as the map has keys, include one for every key |
| `HashTable.HashTable.constructor` | src/kvstore_hash.c:242-257 | an empty valid table for any hash function |
| `ExpireHeap.RootIsLeast` | src/cache/cache.c:135-161 | the root of the heap has the earliest deadline |
| `ExpireHeap.Heap.SiftUp` | src/cache/cache.c:150-161 | repairs one entry that is too low, with back-indices right |
| `ExpireHeap.Heap.SiftDown` | src/cache/cache.c:163-184 | repairs one entry that is too high, with back-indices right |
| `ExpireHeap.Heap.Insert` | src/cache/cache.c:215-222 | exactly one deadline more, still a heap |
| `ExpireHeap.Heap.RemoveAt` | src/cache/cache.c:224-246 | the entry at any position is gone, still a heap |
| `ExpireHeap.Heap.Change` | src/cache/cache.c:248-258 | one deadline changes, still a heap |
| `LruList.List.Unlink` | src/cache/cache.c:260-275 | the pointer writes take exactly the entry out of the list |
| `LruList.List.LinkHead` | src/cache/cache.c:277-288 | the entry becomes the first |
| `LruList.List.Touch` | src/cache/cache.c:290-298 | the entry becomes the first and the others keep their order |
| `Cache.Store.StoreObject` | src/cache/cache.c:441-589 | a store that fits keeps the joint invariant, ends within both limits, removes precisely the shortest run of least recently used entries other than the key and reports those that had not expired; one that does not fit changes nothing |
| `Cache.Store.Recharge` | src/cache/cache.c:696-738 | the same for an object changed in place, with the reports counted at time 0 where the entry has no deadline |
| `Cache.FewestIs` | src/cache/cache.c:441-589 | there is only one shortest run of evictions |
| `Cache.EvictedAre` | src/cache/cache.c:364-373 | j evictions remove exactly the j least recently used entries other than the key |
| `Cache.PutThenEvict` | src/cache/cache.c:500-588 | evicting before the write, as for an existing key, or after it, as for a new one, gives the same cache |
| `Cache.PutReported` | src/cache/cache.c:500-588 | and the same reports |
| `Cache.RoomForOne` | src/cache/cache.c:560-588 | with all candidates gone the limits hold, so that the branch without a candidate is never taken |
| `Cache.SumWithout` | src/cache/cache.c:121-133 | the totals without an entry are the totals less its share, which never underflow |
| `Cache.Store.EntryRemove` | src/cache/cache.c:300-328 | removes the entry from hash table, list, heap and totals together |
| `Cache.Store.FindLive` | src/cache/cache.c:330-352 | finds exactly what has not expired, and removes what has |
| `Cache.Store.FindLiveHash` | src/cache/cache.c:932-953 | the shortcut to the entry used last answers and acts as the index lookup |
| `Cache.Store.Candidate` | src/cache/cache.c:364-373 | the least recently used entry other than the key |
| `Cache.Store.TrimNew` | src/cache/cache.c:560-588 | the loop evicts precisely the shortest run |
| `Cache.Store.TrimExisting` | src/cache/cache.c:500-538 | so does the loop over projected totals |
| `Cache.Store.Get` | src/cache/cache.c:651-670 | the live value, which becomes the most recently used |
| `Cache.Store.Delete` | src/cache/cache.c:745-758 | removes exactly the key; true only for a live one |
| `Cache.Store.ExpireAt` | src/cache/cache.c:760-790 | sets the deadline of a live key; none deletes it |
| `Cache.Store.Persist` | src/cache/cache.c:812-826 | takes the deadline of a live key away |
| `Cache.Store.Maintain` | src/cache/cache.c:856-878 | removes expired entries in deadline order, stops early only when no remaining deadline has passed, and a rehash step changes no entry |
| `Cache.Store.constructor` | src/cache/cache.c:375-402 | an empty valid cache on an empty table, for any hash function |
| `Service.ReplayEqualsLive` | src/service/kvstore_resp_service.c:2020-2123 | with a clock not before any event and before every recorded deadline, replaying the records of any run, evictions included, from states with the same contents, rebuilds the contents the run left, whatever the recency orders and charges are |
| `Service.ExactlyFaithful` | src/service/kvstore_resp_service.c:727-1236 | for one command, the records rebuild the contents if and only if the command drops no expired entry silently, or only one that gives way to a new key and is next in line in the replay too |
| `Service.ExactlyFaithfulRuns` | src/service/kvstore_resp_service.c:2020-2123 | for runs of accepted events, with a key limit or without, the log rebuilds the cache at every point of the run if and only if every event is of that kind; without a key limit, if and only if no event drops an entry silently |
| `Service.UnloggedRepeats` | src/cache/cache.c:560-588 | an expired entry that gives way without a record gives way in the replay as well exactly when both sides have the same key next in line |
| `Service.ExpiredKeyComesBack` | src/cache/cache.c:330-352 | two commands whose replay, with a clock that went back, brings an expired key back |
| `Service.TimelyIsFaithful` | src/cache/cache.c:330-352 | a run that the clock never overtakes drops nothing silently |
| `Service.FaithfulMirrors` | src/service/kvstore_resp_service.c:456-539 | wherever nothing is dropped silently, replay rebuilds the contents, for clocks in any relation to the events |
| `Service.CommandMirrors` | src/service/kvstore_resp_service.c:1528-1779 | a command that the replay repeats is mirrored by its records, case by case, and both sides stay within the limits |
| `Service.ReplayEvictions` | src/service/kvstore_resp_service.c:580-590 | replaying the deletions logged by a store makes the room that the store itself then finds |
| `Service.OwnRecordIsLast` | src/service/kvstore_resp_service.c:456-539 | a command leaves no record, or deletions of what gave way followed by its own record, all of them mutations |
| `Service.RunDoubles` | src/service/kvstore_resp_service.c:1079-1181 | in every run all scores in the cache are doubles |
| `Records.ParseDecimal` | src/service/kvstore_resp_service.c:470-493 | a number written into a record is read back |
| `Records.ReadNumber` | src/service/kvstore_resp_service.c:370-394 | the reading loop, overflow included |
| `Commands.Server.ExecuteSet` | src/service/kvstore_resp_service.c:727-793 | the calls on the cache and the log do what the replay theorem's command does, for the charge then on record: the new one, or that of a string whose room is used again |
| `Commands.Server.ExecuteDel` | src/service/kvstore_resp_service.c:1528-1779 | the same for DEL |
| `Commands.Server.ExecuteExpire` | src/service/kvstore_resp_service.c:795-848 | the same for EXPIRE and PEXPIRE |
| `Commands.Server.ExecutePersist` | src/service/kvstore_resp_service.c:1528-1779 | the same for PERSIST |
| `Commands.Server.ExecuteRead` | src/service/kvstore_resp_service.c:1528-1779 | the same for lookups, which record nothing |
| `Commands.Server.ExecuteChange` | src/service/kvstore_resp_service.c:864-1236 | the same for HSET, HDEL, ZADD and ZREM, in place or in a copy, with type errors, refusals and deletion of an emptied object |
| `Commands.Server.RecordEvictions` | src/service/kvstore_resp_service.c:580-590 | a deletion record for each key that gave way, in order |
| `Commands.Server.Append` | src/service/kvstore_resp_service.c:405-454 | the record joins the transaction and takes the captured one's place |
| `Commands.Server.ExecuteWithBarrier` | src/service/kvstore_resp_service.c:1781-1865 | a command is refused, or executed, rolled back or committed with its marker and submitted, as the step of the pairing theorem |
| `Commands.Server.Maintain` | src/service/kvstore_resp_service.c:657-665 | active expiry removes expired keys only and leaves no record |
| `Commands.StoredIs` | src/cache/cache.c:441-589 | what the cache promises of a store is the store of the replay theorem, evictions and reports included |
| `Commands.RechargedIs` | src/cache/cache.c:696-738 | and so is what it promises of an object changed in place |
| `Outbox.MarkerPairing` | src/service/kvstore_resp_service.c:1781-1865 | from any paired log, after any run of commands refused, rolled back or committed, with evictions under both limits and loaded values installed, a scan finds what it found before, then exactly the client's own record of every committed write that changed something |
| `Outbox.EvictionsStayHome` | src/service/kvstore_resp_service.c:541-590 | everything that any run submits is the own record of a committed command, and a DEL among it is one that a client asked for: no eviction becomes a mutation of the database |
| `Outbox.RestartKeepsPaired` | src/app/main.c:754-795 | a restart on what is left of the log after any cut at a record continues a paired log |
| `Outbox.StepSubmits` | src/service/kvstore_resp_service.c:405-454 | a committed write submits its own record, and nothing else submits anything |
| `Outbox.RunSubmits` | src/service/kvstore_resp_service.c:1781-1865 | a run submits exactly the own records of the writes that count, in order |
| `Outbox.NextKeepsPaired` | src/service/kvstore_resp_service.c:1781-1865 | every step keeps the log paired with what was submitted |
| `MarkerLog.MarkerRoundTrip` | src/app/main.c:719-752 | a marker is read back with its writer and number |
| `MarkerLog.HexRoundTrip` | src/app/main.c:711-717 | bytes in hexadecimal are read back |
| `MarkerLog.ScanMarked` | src/app/main.c:754-795 | a marker after a mutation, with a number not seen yet, is paired with that mutation |
| `MarkerLog.ScanIncreases` | src/app/main.c:754-795 | the numbers a scan finds strictly increase |
| `MarkerLog.ScanPrefix` | src/app/main.c:754-795 | a log that was cut at a record can be scanned, and finds the first part of the same list |
| `MarkerLog.Scanner.Visit` | src/app/main.c:754-795 | one record moves the scan as specified, or is reported |
| `MarkerLog.Scanner.VisitAll` | src/app/main.c:754-795 | a whole log, with its verdict |
| `Crc64.Incremental` | src/persistence/rdb.c:103-113 | the checksum kept piece by piece by the writer is the one that the loader takes of the whole |
| `Crc64.BurstDetected` | src/persistence/rdb.c:43-60 | payloads of equal length that differ only within eight consecutive bytes have different checksums |
| `Crc64.ShiftLinear` | src/persistence/rdb.c:43-60 | a step of the register is linear |
| `Crc64.ShiftInjective` | src/persistence/rdb.c:43-60 | and loses nothing |
| `Crc64.FoldInjective` | src/persistence/rdb.c:43-60 | equal input never brings two different registers together |
| `Crc64.Crc64Update` | src/persistence/rdb.c:43-60 | the loops over bytes and bits compute that checksum |
| `Rdb.LoadSave` | src/persistence/rdb.c:497-597 | a saved snapshot loads: exactly the rows that had not expired, each with its object and deadline, and the checkpoint |
| `Rdb.DamageIsNoticed` | src/persistence/rdb.c:531-536 | damage within eight consecutive bytes of the payload is refused when the footer is intact |
| `Rdb.CodecExists` | src/persistence/rdb.c:145-158 | the codec of doubles that the round trip asks for exists, with the layout of section 3.4 of IEEE 754 |
| `Rdb.BigEndianRoundTrip` | src/persistence/rdb.c:62-81 | a number of any width is read back |
| `Rdb.ReadsHash` | src/persistence/rdb.c:392-495 | an encoded hash is read back, with each field once |
| `Rdb.ReadsZset` | src/persistence/rdb.c:392-495 | so is an ordered set, with its scores |
| `Double.SignFlips` | src/persistence/rdb.c:145-158 | the sign bit of a double's bits negates its value and changes nothing else |
| `RdbFile.EncodeNumber` | src/persistence/rdb.c:62-70 | the loop writes the big-endian form |
| `RdbFile.DecodeNumber` | src/persistence/rdb.c:72-81 | the loop reads it |
| `RdbFile.Writer.Put` | src/persistence/rdb.c:103-113 | the bytes join the file, and the running checksum stays that of the file |
| `RdbFile.Writer.PutRow` | src/persistence/rdb.c:160-212 | one row of the format that the round trip is about |
| `RdbFile.Writer.PutRows` | src/persistence/rdb.c:160-212 | exactly the rows that have not expired |
| `RdbFile.Writer.WriteAll` | src/persistence/rdb.c:260-349 | header, living rows, end mark and footer of that format |
| `RdbFile.CountLiving` | src/persistence/rdb.c:214-233 | the number of rows that the second visit will write |
| `RdbFile.Reader.TakeRows` | src/persistence/rdb.c:556-578 | the loop over the rows, its errors included |
| `RdbFile.LoadFile` | src/persistence/rdb.c:497-597 | the whole loader, checksum, header, rows, their number and the end, gives the verdict and the rows of the round trip |
| `RdbFile.Reader.Take` | src/persistence/rdb.c:351-362 | the next bytes, or failure when there are not as many, and the reader moved past them |
| `RdbFile.Reader.TakeNumber` | src/persistence/rdb.c:373-380 | the next number, big-endian |
| `RdbFile.Reader.TakePairs` | src/persistence/rdb.c:392-495 | the fields of a hash; one that occurs twice is refused |
| `RdbFile.Reader.TakeItems` | src/persistence/rdb.c:392-495 | the members of an ordered set with their scores; one that occurs twice or has no score is refused |
| `RdbFile.Reader.TakeObject` | src/persistence/rdb.c:392-495 | an object of any type, as the format specifies it |
| `RdbFile.Reader.TakeHeader` | src/persistence/rdb.c:540-554 | the header, its magic and flag checked |
| `Recovery.SnapshotRoundTrip` | src/persistence/rdb.c:260-349 | loading a saved snapshot into an empty cache rebuilds every key that had not expired, with its object and deadline |
| `Recovery.SnapshotPlusTail` | src/app/main.c:1635-1678 | loading the snapshot of a checkpoint and replaying the log from its offset gives the same contents as replaying the whole log: those of the live cache |
| `Recovery.LogWithCheckpoint` | src/persistence/aof.c:682-765 | the offset taken at a checkpoint is valid for the later log, and replay from it delivers exactly the records after it |
| `Recovery.InstallAllIs` | src/persistence/rdb.c:537-585 | installing loaded rows one by one, as any object is stored, keeps the joint invariant and leaves exactly the rows' contents when the limits have room for them |
| `Recovery.InstallIs` | src/cache/cache.c:441-589 | where the limits have room for a loaded row, nothing gives way to it |

## Findings

Two properties fail as they stand. Each has a witness, and the exact condition
under which it holds.

- **Exactly-once write-back across a crash that loses the end of the log.** A mutation is handed to the database writer as soon as its log transaction is committed, before its bytes need be in the file (src/service/kvstore_resp_service.c:1781-1865), and start-up only reads the applied sequence (src/storage/mysql_store.c:1581-1613). If the process dies with a commit in doubt and the marker is not in the log, the next process gives the same number to another mutation. When the old commit then lands first, the writer takes the number for applied and the new mutation is lost. `WriteBack.OrphanWitness` is such a run, `WriteBack.OrphanDisplaces` builds one from any crash of that kind, and `WriteBack.ExactIffCovered` shows that covered crashes are exactly those after which the database stays exact in every later run. Crashes that leave the log intact are always covered (`WriteBack.IntactRunsAreSafe`). `CacheAside.NoStaleFill` and `CacheAside.NegativeCacheIsTrue` hold for the same runs.
- **Replay equals live when the clock goes back.** A lookup removes an expired entry without a record, and so does an eviction (src/cache/cache.c:330-352, src/cache/cache.c:560-588). A replay whose clock shows an earlier time than the lookup keeps that entry: `Service.ExpiredKeyComesBack`. The exact condition is on what each event drops: the log rebuilds the cache at every point of a run if and only if every event drops nothing silently, or drops one expired entry to make room for a new key that is next in line in the replay too (`Service.ExactlyFaithfulRuns`, from `Service.ExactlyFaithful` for one command). Without a key limit that is, if and only if nothing is dropped silently. With a clock that is not before any event and is before every recorded deadline nothing is ever dropped silently (`Service.TimelyIsFaithful`), so that replay equals live for every such run (`Service.ReplayEqualsLive`).

## Left out

- `Service.ReplayEqualsLive`: with no memory limit only, because the charge of an object rebuilt by replay depends on allocation history, so that a memory limit may evict differently on replay.
- `Service.ExactlyFaithfulRuns`: with no memory limit, for the same reason, and for events that the cache accepts and whose recorded deadlines are after the replay's clock.
- `Recovery.SnapshotPlusTail`: under the conditions of `Service.ReplayEqualsLive`, hence also with no memory limit.
- `Outbox.MarkerPairing`: for appends that succeed.
- `HashTable.HashTable.constructor`: the hash function is an arbitrary function, and chains are sequences and not linked nodes, so that aliasing of chain links is not modelled; the table holds entries by value, where the code holds pointers to them.
- `RbTree.Engine.constructor`: tree nodes are cells in a map from addresses, and allocation and freeing are not modelled; the same holds for the nodes of the skip list and the recency list.
- `AofWriter.Log.constructor`: the field for the file holds what this process appends; `AofLog.RunOnTop` carries it over to a file that held something before.
- `AofWriter.Log.WriterTurn`: a turn runs to its end; the interleaving of a turn with the reactor is covered by `AofLog`, whose steps are the parts of a turn.
- `Rdb.LoadSave`: a score is a double, the two zeros are one score, and NaN is refused as the loader does.
- A replay after a recorded deadline has passed: the record then deletes the key on the spot, and a later change of that key replays differently.
- That no reply is sent before its log bytes are written: readiness is proved for the log, not through the reactor's flush of a connection (src/net/reactor.c:596-605).
- That no deferred request is ever lost: the reader copies the waiter list before it takes the lock (src/storage/mysql_store.c:1091), which the model keeps as two steps.
- That every cached key equals the database: the database keeps expired rows, and loaded values are not logged.
- SQL text, statements, connections, schema and permissions: the database is a map with atomic transactions, a watermark and a unique key on the number; what a mutation does to a row is a parameter.
- The bootstrap of an empty database from the cache and the dropping of snapshot keys that the database changed later: the rows and the watermark at start are parameters.
- Sockets, epoll, timers, signals, fork, renames and option parsing.
- The text of scores: what a text reads as is a parameter.
- The parsing of arguments into commands, durations and error replies; the model starts from typed commands, except for HSET, HDEL, ZADD and ZREM, which keep their arguments.
- Reads that change nothing (HGETALL, ZRANGE replies, INFO, TTL), statistics, benchmarks, the network buffer and the older engines.
- The memory charge of an object: an arbitrary number.
- Failure of allocation, and wrap-around of 64-bit sequence counters.
- The blocking wait of a flush, and the pause of the log around a fork.
- Entries installed from a damaged snapshot before the damage is found: the model's load gives a verdict on the whole file.
