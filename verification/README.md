# Vector database: verified model

This project models the logic of an in-memory vector database with a primary and replicas, and proves what it
promises: the graph index and the exact index, the store of a table, the write-ahead log and its replay,
replication, the result cache, the counters, and the thread pool.

Check it with `dafny verify dfyconfig.toml`.

## What is modelled

- **Indexes** (`Ranking`, `FlatIndex`, `HnswGraph`, `BeamSearch`, `HnswState`, `HnswRuns`, `HnswMeaning`, `HnswExact`,
  `HnswComplete`, `HnswIndex`). Distances are reals given by a function, because only their order matters. The level of a node is
  a function of its id, as in the source, and not negative (the `ml` of the configuration is positive). Hash maps
  and hash sets are iterated in an arbitrary order. A `priority_queue` holds distinct pairs, so it is its pairs in
  ascending order. The pure modules define what each operation does to nodes, level registry, entry point and
  maximum level; the class carries the loops and is proved to do exactly that.
- **Store** (`StoredRecords`, `Checksum`, `VectorStore`): records plus the index it owns, and the 64-bit rolling
  checksum.
- **Log** (`LogEntries`, `WalText`, `WalRoundTrip`, `Persistence`): the log as a string of characters, with the
  stream extractions that read it. How a float is printed and read is a parameter; which characters a float
  extraction accumulates is modelled.
- **What the log says when it is read back** (`LogReading`): startup replays, and a replica is sent, the lines of
  the text parsed again, not the operations that were logged.
- **Replay and recovery** (`Replay`, `Recovery`, `Restarts`, `LostTables`): snapshot, metadata, log text, and crashes
  anywhere; when a table comes back, what it then holds, and tables created anew in place of lost ones.
- **Replication**: the replica (`Replication`), one sync as a function of which messages arrive (`ReplicaSync`), the
  primary with its log text, one operation at a time (`ReplicaManager`), interleavings (`ReplicaProtocol`), and what a
  restart does to them (`RestartSync`).
- **Concurrent writers and counters** (`StatsManager`, `Writers`), **one table of the engine** (`BatchKeys`,
  `Engine`), **cache** (`LruCache`), **thread pool** (`ThreadPool`). Concurrent parts are transition systems;
  theorems quantify over all runs.

An operation is *printable* if its content has no line end and its floats read back as something, as finite ones do.
It is *kept* if it is printable and the components of its vector read back as themselves.

## Findings

Where a property one might expect is not what the code does, the exact condition is proved, with an input that
fails.

- The log is text with floats in six digits. An effective write survives a crash right after it if and only if it is
  kept (`SurvivesCrashIffKept`), and a replica that has got it holds the primary's table if and only if it is kept
  (`LastWriteDecides`). For printable operations exactly the vectors may differ, by what they read back as
  (`RecoveredClose`, `UnmodifiedMeansPrinted`): a lowered modified flag means equal tables if and only if every stored
  vector reads back as itself, and the loss goes unnoticed, because checksums ignore vectors (`LossUnnoticed`). Inputs:
  a content with a line end takes another record away (`LineEndLosesRecord`, `LineEndOnReplica`); the component
  0.1234567 comes back as 0.123457 (`RoundedAtRestart`, `RoundedOnReplica`); a content that goes on after a line end with
  text that is no command comes back cut short (`LineEndCutsContent`), and no replica ever gets past that text
  (`LineEndSticksReplica`).
- After a crash a table comes back if and only if a shutdown had saved its metadata before and no content logged since
  the log was last cleared hides a drop, that is, has a line after its first whose first word is `drop`
  (`ComesBackIff`). Without metadata the table is missing; with a hidden drop the replay waits for the lock that it
  holds itself, at this and every later restart (`HungForever`). For printable operations the metadata alone decides,
  and what comes back is what was there (`PrintableComesBack`). Inputs: a crash before the first shutdown
  (`LostTableReturns` starts with one); a content with `drop` after a line end (`LineEndHangs`).
- A table lost for want of metadata and created anew is what is done to it from then on, in every continuation, if and
  only if the lost one held nothing (`RecreationSafeIffEmpty`): otherwise exactly its records can return
  (`OldRecordsReturn`). The recovery theorems hold for all runs that create anew only in that case. Input:
  `LostTableReturns`.
- A replica reaches the end of the log if and only if every entry after its offset took effect on the primary
  (`AnsweredReachesEnd`). If all messages arrive, a sync lowers the modified flag if and only if no entry without
  effect follows the offset of a replica (`ReliableSyncLowersFlag`); once one does, no sync ever lowers it again,
  whatever the network does and whatever is logged
  later (`ReplicaSyncs.StuckForever`, `StuckLater`). Input: one id inserted twice, then another
  (`RepeatedInsertionSticks`).
- After a restart the primary counts from the start of its log again, which is a creation. So a replica is stuck for good
  if and only if it still has the table (`RestartSticksIffPresent`), and no sync gets anywhere, whatever the network does
  (`RestartedSyncFails`). A replica that restarts without its table is stuck unless the next entry is a creation
  (`LostReplicaSticksIff`).
- If the answer to a replica request is lost, the offset still says what the replica holds if and only if processing
  the request left its table as it was (`LossKeepsIffUnchanged`): never if one entry was counted. Otherwise the replica moves on only if it accepts the
  first entry sent again, and else never (`MovesIffAccepted`, `ReplicaProtocol.StuckForever`). Input: the creation
  (`LostAnswerBreaksSafety`).
- Two overlapping writers can leave the store different from the replay of the log if and only if their operations
  clash: same id, and either two different insertions of the right size, or such an insertion and a removal
  (`OverlapDisagreesIffClash`).
- `VectorStore::Insert` succeeds for an id whose soft-removed node is still in the graph, but the graph index
  ignores it: the id is active in the graph if and only if no such node was there (`InsertAgrees`), and no cleanup or
  rebuild repairs that (`UnsearchableStays`). Input: `ReinsertedUnsearchable`.
- A graph search at equal distances moves on: which of two equally close nodes it answers with depends on where it starts
  (`EqualMovesOn`). While a table has at most `m0 + 1` and `efConstruction + 1` nodes, every search with room is exact after
  any run, ties included (`SmallRunExact`).
- `Reindex` without a cleanup first keeps the active ids if and only if nothing is soft-removed (`ReindexAlone`).
  Input: `ReindexRevives`.
- After a restart the counters describe the store if and only if the replayed log removed nothing; the next cleanup
  makes the vector count wrap if and only if more was removed than is left (`RestartCounters`). Input: `RestartWraps`.
- The batch key, described in the source as unique, is shared by requests that exchange `k` and the search
  parameter, by queries that differ at odd positions, and by every reordering of a batch (`SwapSharesKey`,
  `OddComponentsShareKey`, `ReorderingSharesKey`); such batches can have different answers
  (`SharedKeyDifferentAnswers`, `ReorderedDifferentAnswers`). One change to `k`, the parameter or an even component does
  change the key (`OneChangeOtherKey`).

## Model

| member | source | states |
|---|---|---|
| Ranking.Push | engine/src/index/flat_index.cc:46-54 | pushing a pair keeps the heap ordered and adds exactly that pair |
| Ranking.LeastUnique | engine/src/index/flat_index.cc:46-63 | the ascending list of the min(k, n) least pairs of a set is unique, whatever order produced it |
| Ranking.BoundedPush | engine/src/index/flat_index.cc:49-53 | one push-then-pop round of the bounded heap keeps it equal to the k least pairs seen so far |
| Ranking.Drain | engine/src/index/flat_index.cc:56-63 | emptying the max-heap and reversing gives the ids in ascending order of their pairs |
| FlatIndexes.NearestMeaning | engine/src/index/flat_index.cc:39-64 | the exact answer has min(k, n) distinct stored ids in (distance, id) order, and every id left out comes after every id returned |
| FlatIndexes.BestPush | engine/src/index/flat_index.cc:47-54 | considering one more id turns the k best of a set into the k best of the larger set |
| FlatIndexes.FlatIndex.Insert | engine/src/index/flat_index.cc:24-31 | an insertion of the wrong size or of a present id changes nothing; otherwise the vector is added |
| FlatIndexes.FlatIndex.Remove | engine/src/index/flat_index.cc:33-37 | exactly the given id is gone |
| FlatIndexes.FlatIndex.Search | engine/src/index/flat_index.cc:39-64 | the heap loop returns the exact answer for every iteration order of the map |
| HnswGraph.SelectedMeaning | engine/src/index/hnsw_index.cc:213-235 | selection returns active candidates only, as many as fit under m or m0, and none left out is before any selected |
| HnswGraph.AddEdgeOk | engine/src/index/hnsw_index.cc:370-371 | the two inserts add one symmetric edge, change no other neighbour set and keep the edge invariant |
| HnswGraph.PruneOk | engine/src/index/hnsw_index.cc:385-394 | pruning leaves exactly the kept neighbours, edges stay symmetric, no other set grows, other levels are untouched |
| HnswGraph.ConnectOneOk | engine/src/index/hnsw_index.cc:365-396 | one connection keeps symmetric edges and every node's degree bound, even when the neighbour is cut back |
| HnswGraph.ConnectOneMeaning | engine/src/index/hnsw_index.cc:370-395 | a neighbour keeps all its old neighbours and the new node if they fit, and otherwise the closest active ones of them |
| HnswGraph.ConnectOneElsewhere | engine/src/index/hnsw_index.cc:370-395 | elsewhere a connection gives the new node the neighbour, makes those that the neighbour drops forget it, and changes nothing else |
| HnswGraph.ConnectAllSnoc | engine/src/index/hnsw_index.cc:364-397 | the neighbours are connected in their order, closest first |
| HnswGraph.ConnectAllOk | engine/src/index/hnsw_index.cc:364-397 | connecting a new node to its whole selection keeps edge, level and degree invariants through all interleaved prunes |
| BeamSearch.RoundOk | engine/src/index/hnsw_index.cc:174-199 | each loop round keeps: heaps hold visited nodes only, popped nodes had all active neighbours visited, pushed-out nodes are no closer than any kept |
| BeamSearch.RoundShrinks | engine/src/index/hnsw_index.cc:174-199 | each round lowers (nodes not visited, candidates queued), so the search ends |
| BeamSearch.SearchLevelMeaning | engine/src/index/hnsw_index.cc:158-211 | the result has min(ef, visited) distinct active ids in ascending order, no visited id left out is strictly closer, and all active neighbours of every visited id no farther than some result were visited, at equal distances too |
| BeamSearch.VisitedReachable | engine/src/index/hnsw_index.cc:191-198 | everything visited lies in every set around the entry that active edges do not leave |
| BeamSearch.BestHit | engine/src/index/hnsw_index.cc:178-185 | the first result is no farther than the entry nor than any of its own active neighbours |
| BeamSearch.RoomForAll | engine/src/index/hnsw_index.cc:178-199 | if ef is at least the number of nodes visited, the result is the whole active component of the entry |
| BeamSearch.EntryExpanded | engine/src/index/hnsw_index.cc:170-198 | all active neighbours of the entry are visited |
| BeamSearch.GreedyDownhill | engine/src/index/hnsw_index.cc:69-76 | a search for one node walks over active edges and never away from the query |
| BeamSearch.EqualMovesOn | engine/src/index/hnsw_index.cc:178-185 | of two linked nodes at equal distance a search for one node finds the one it did not start from |
| HnswState.DescendOk | engine/src/index/hnsw_index.cc:69-76 | the greedy descent always ends at an active node high enough for the levels still to come |
| HnswState.ChosenOk | engine/src/index/hnsw_index.cc:79-83 | the neighbours chosen for a new node are other active nodes of sufficient level, within the bound, and there is one if there can be |
| HnswState.ConnectLevelsOk | engine/src/index/hnsw_index.cc:78-84 | connecting the upper levels leaves level 0 as it was and the invariant holding when level 0 is reached |
| HnswState.RegisterOk | engine/src/index/hnsw_index.cc:58 | the registry lists exactly the active nodes of each level after an insertion |
| HnswState.InsertOk | engine/src/index/hnsw_index.cc:43-90 | an insertion keeps the whole index invariant |
| HnswRuns.ScanOk | engine/src/index/hnsw_index.cc:111-127 | the downward scan finds a highest active node, or none with maximum level -1 exactly when none is active |
| HnswRuns.UnregisterOk | engine/src/index/hnsw_index.cc:99-105 | soft removal leaves the registry exact, dropping levels that become empty |
| HnswRuns.RemoveOk | engine/src/index/hnsw_index.cc:92-128 | a removal keeps the index invariant whichever entry point is picked |
| HnswRuns.CleanupOk | engine/src/index/hnsw_index.cc:237-261 | after a cleanup only the active nodes are left, and the invariant holds |
| HnswRuns.InsertAdds | engine/src/index/hnsw_index.cc:283-325 | an effective insertion adds one active node and changes nothing but edges elsewhere |
| HnswRuns.ReindexKeeps | engine/src/index/hnsw_index.cc:263-281 | a reindex in any order keeps every present id with its vector and level and makes all of them active |
| HnswRuns.RebuildKeeps | engine/src/store/vector_store.cc:74-81 | cleanup then reindex, in any order, keeps active ids, vectors, levels, registry and maximum level |
| HnswRuns.ReindexAlone | engine/src/index/hnsw_index.cc:263-281 | reindex alone keeps the active ids if and only if nothing is soft-removed |
| HnswRuns.ReindexRevives | engine/src/index/hnsw_index.cc:263-281 | an id inserted, removed and reindexed is active again |
| HnswRuns.RunOk | engine/src/index/hnsw_index.cc:43-128 | every state of every run from the empty index has symmetric, loop-free, bounded edges between present nodes of sufficient level, an exact registry and a highest active entry point |
| HnswMeaning.SearchRoute | engine/src/index/hnsw_index.cc:130-156 | a search goes down every level to the best of what it visits there, and answers with the k best that a search of level 0 finds from where it ends |
| HnswMeaning.HitNearTop | engine/src/index/hnsw_index.cc:139-147 | the first hit is no farther than any active neighbour of the entry point at the highest level |
| HnswMeaning.HitInComponent | engine/src/index/hnsw_index.cc:139-147 | with room for every node, the first hit is no farther than any node that the entry point reaches at the highest level |
| HnswMeaning.ChosenOffer | engine/src/index/hnsw_index.cc:80-81 | a new node is offered min(bound, efConstruction, visited) active nodes in ascending order, and no visited one left out is strictly closer |
| HnswMeaning.InsertMeaning | engine/src/index/hnsw_index.cc:66-90 | an insertion walks downhill through the levels above the node's and connects it at every level that both have, from the top down, with what it is offered there |
| HnswMeaning.RemoveKeeps | engine/src/index/hnsw_index.cc:99-105 | a removal makes one node inactive and changes no vector, level or edge |
| HnswMeaning.EntryStays | engine/src/index/hnsw_index.cc:86-127 | the entry point changes only when it is removed or a node of a higher level comes |
| HnswExact.ConnectedMeaning | engine/src/index/hnsw_index.cc:191-198 | the cut form of connectedness used below means that any two nodes are joined by a path |
| HnswExact.ConnectOneGrows | engine/src/index/hnsw_index.cc:375-395 | with at most m0 + 1 nodes a level-0 connection never prunes |
| HnswExact.InsertLinks | engine/src/index/hnsw_index.cc:78-84 | an effective insertion into a small table links the new node at level 0 and loses no level-0 edge |
| HnswExact.InsertAllSmall | engine/src/index/hnsw_index.cc:43-90 | insertions alone keep a table small, all active and connected until it outgrows m0 + 1 nodes |
| HnswExact.VisitsAll | engine/src/index/hnsw_index.cc:158-199 | in a connected graph with room for all, a search visits every node |
| HnswExact.SearchExact | engine/src/index/hnsw_index.cc:130-156 | a search of a small table with room for every node returns the exact index's list, ties included |
| HnswExact.SmallTableExact | engine/src/index/hnsw_index.cc:43-211 | for every sequence of insertions leaving at most m0 + 1 nodes, graph search equals exact search |
| HnswExact.RebuiltTableExact | engine/src/store/vector_store.cc:74-81 | after any history, cleanup with reindex makes searches of a small table exact over the active nodes |
| HnswComplete.VisitsOthers | engine/src/index/hnsw_index.cc:79-80 | where any two active nodes are neighbours, an insertion looks at all of them |
| HnswComplete.NextComplete | engine/src/index/hnsw_index.cc:43-128 | in a table of at most m0 + 1 and efConstruction + 1 nodes every operation keeps any two active nodes neighbours at level 0 |
| HnswComplete.RunComplete | engine/src/index/hnsw_index.cc:43-281 | so they are after every run of insertions, removals, cleanups and rebuilds that stays so small |
| HnswComplete.SmallRunExact | engine/src/index/hnsw_index.cc:130-211 | after every such run a search with room for the active nodes equals exact search over them, tie-breaks included |
| HnswIndexes.HNSWIndex.constructor | engine/src/index/hnsw_index.cc:16-21 | a new index is empty and satisfies the invariant |
| HnswIndexes.HNSWIndex.Expand | engine/src/index/hnsw_index.cc:187-198 | in any iteration order, exactly the unvisited active neighbours become visited and candidates |
| HnswIndexes.HNSWIndex.Round | engine/src/index/hnsw_index.cc:175-198 | popping, admitting and expanding on the two heaps is one round of the specification |
| HnswIndexes.HNSWIndex.SearchLevel | engine/src/index/hnsw_index.cc:158-211 | the heap loop computes the level search, empty without entry or for ef 0, and never looks up a missing node |
| HnswIndexes.HNSWIndex.SelectNeighbors | engine/src/index/hnsw_index.cc:213-235 | the filter, sort and cut compute the selection |
| HnswIndexes.HNSWIndex.PruneNeighbors | engine/src/index/hnsw_index.cc:380-395 | the two loops over the old and new neighbours compute the prune, although they change other nodes on the way |
| HnswIndexes.HNSWIndex.ConnectNeighbors | engine/src/index/hnsw_index.cc:364-397 | the loop computes the connection of the whole selection |
| HnswIndexes.HNSWIndex.DescendTo | engine/src/index/hnsw_index.cc:69-76 | the loop computes the greedy descent |
| HnswIndexes.HNSWIndex.ConnectDown | engine/src/index/hnsw_index.cc:78-84 | the loop connects every level from the start level down to 0 |
| HnswIndexes.HNSWIndex.Insert | engine/src/index/hnsw_index.cc:283-325 | the new state is the specified insertion and the invariant is kept |
| HnswIndexes.HNSWIndex.Remove | engine/src/index/hnsw_index.cc:92-128 | the new state is a specified removal and the invariant is kept |
| HnswIndexes.HNSWIndex.FirstActive | engine/src/index/hnsw_index.cc:117-122 | a listed active candidate is found if there is one |
| HnswIndexes.HNSWIndex.Search | engine/src/index/hnsw_index.cc:130-156 | the result is the specified search, cut to k |
| HnswIndexes.HNSWIndex.CleanSet | engine/src/index/hnsw_index.cc:249-256 | exactly the present active neighbours stay |
| HnswIndexes.HNSWIndex.Cleanup | engine/src/index/hnsw_index.cc:237-261 | the result is the same for every iteration order although nodes disappear during it |
| HnswIndexes.HNSWIndex.Reindex | engine/src/index/hnsw_index.cc:263-281 | the new state inserts all present nodes into an empty index in some order |
| VectorStores.InsertAgrees | engine/src/store/vector_store.cc:26-40 | store and graph agree after an insertion, and the id is active in the graph if and only if no node held it before |
| VectorStores.ReinsertedUnsearchable | engine/src/store/vector_store.cc:26-40 | an id inserted, removed and inserted again is stored and not active |
| VectorStores.RemoveAgrees | engine/src/store/vector_store.cc:42-52 | store and graph agree after a removal, and the id is not active |
| VectorStores.CleanupAgrees | engine/src/store/vector_store.cc:74-76 | a cleanup keeps store and graph in agreement |
| VectorStores.RebuildAgrees | engine/src/store/vector_store.cc:74-81 | cleanup then reindex keeps store and graph in agreement |
| VectorStores.UnsearchableStays | engine/src/store/vector_store.cc:74-81 | an id that is not active is not made active by cleanup or rebuild |
| VectorStores.SearchMeaning | engine/src/index/hnsw_index.cc:130-156 | at most k distinct active ids in ascending order, the first no farther than the entry point |
| Checksums.ChecksumOfContents | engine/src/store/vector_store.cc:83-105 | equal ids and contents give equal checksums, whatever the vectors |
| Checksums.ChecksumEquations | engine/src/store/vector_store.cc:83-105 | three equations that fix the sum of every store: none for an empty one, a new largest id without content, and one more character of the content of the largest id |
| VectorStores.VectorStore.Insert | engine/src/store/vector_store.cc:26-40 | succeeds exactly for a new id of the right size, adds that record only, and keeps store and index in agreement |
| VectorStores.VectorStore.Remove | engine/src/store/vector_store.cc:42-52 | succeeds exactly for a stored id, removes it, and keeps the agreement |
| VectorStores.VectorStore.Search | engine/src/store/vector_store.cc:54-72 | the results are the records of the index's hits, in order, none dropped, at most k; none for a wrong size |
| VectorStores.VectorStore.Cleanup | engine/src/store/vector_store.cc:74-81 | records and active ids are unchanged and only active nodes are left; without reindex the edges are exactly the old ones among them, with it every search of a small table with room is exact |
| VectorStores.VectorStore.ComputeChecksum | engine/src/store/vector_store.cc:83-105 | for every iteration order the result is the rolling hash over ids in ascending order with their contents, modulo 2^64 |
| WalRoundTrip.ReadNatOk | engine/src/storage/persistence_manager.cc:361-363 | an unsigned number reads back as printed, with the rest untouched, although the extraction would also take a sign |
| WalRoundTrip.ReadNatTooLarge | engine/src/storage/persistence_manager.cc:361-363 | a number that does not fit is read as the largest value, and the extraction fails |
| WalRoundTrip.ReadNatSigned | engine/src/storage/persistence_manager.cc:361-363 | a sign is read, and a negative number wraps around |
| WalRoundTrip.ReadFloatOk | engine/src/storage/persistence_manager.cc:365-368 | a printed float followed by a blank reads as what it reads as alone, with the rest untouched if it does |
| WalRoundTrip.ReadVectorOk | engine/src/storage/persistence_manager.cc:365-371 | the component loop stops at the separator or at the first component that does not read, with the components as they read back |
| WalRoundTrip.ReadVectorUntil | engine/src/storage/persistence_manager.cc:365-371 | the component loop stops at any word that does not start like a float |
| WalRoundTrip.VectorBackOk | engine/src/storage/persistence_manager.cc:365-371 | a vector reads back as itself exactly when all components survive printing |
| WalRoundTrip.ParseInsertOk | engine/src/storage/persistence_manager.cc:358-382 | an insertion's line reads back for any content, separators and leading blanks included, with its components as they read back |
| WalRoundTrip.BareInsertion | engine/src/storage/persistence_manager.cc:373-382 | without the separator the content starts at the first word that is no float |
| WalRoundTrip.InsertionWithoutId | engine/src/storage/persistence_manager.cc:361-382 | an insertion's line without an id says id 0, no components, and the rest as the content |
| WalRoundTrip.ParseFlatOk | engine/src/storage/persistence_manager.cc:421-432 | a creation with the exact index reads back |
| WalRoundTrip.ParseHnswOk | engine/src/storage/persistence_manager.cc:397-420 | a creation with the graph index reads back with its ml as that reads back, or garbled if that does not read |
| WalRoundTrip.ParseEntryOk | engine/src/storage/persistence_manager.cc:348-438 | every kind of line reads back as its entry exactly when its floats survive |
| WalRoundTrip.EntriesPerLine | engine/src/storage/persistence_manager.cc:349 | a text of finished lines has exactly one entry per line end |
| WalRoundTrip.LogRoundTrip | engine/src/storage/persistence_manager.cc:305-445 | a printed log reads back as logged if and only if no content has a line end and all floats survive |
| LogReadings.RereadConcat | engine/src/storage/persistence_manager.cc:338-438 | what a printed log says when read back is what its parts say, one after the other |
| LogReadings.PrintableLog | engine/src/storage/persistence_manager.cc:305-438 | a log of printable operations says them again, one entry each, with their floats as they read back |
| LogReadings.LineEndRemoves | engine/src/storage/persistence_manager.cc:312-313 | a content with a line end and a removal after it says an insertion and that removal |
| LogReadings.BareRemoval | engine/src/storage/persistence_manager.cc:383-388 | a removal's line without a number says the removal of id 0 |
| LogReadings.NoCommandFails | engine/src/storage/persistence_manager.cc:350-357 | a line whose first word is no command has no effect on the records of a table of positive dimension |
| LogReadings.ChatterFails | engine/src/storage/persistence_manager.cc:349-438 | a text of such lines changes no records when it is replayed |
| LogReadings.CutContent | engine/src/storage/persistence_manager.cc:312-313 | a content with a line end says the insertion with the content cut short, and then the rest as lines of its own |
| LogReadings.LinesPlain | engine/src/storage/persistence_manager.cc:349-380 | no content that is read back has a line end, whatever the text |
| LogReadings.DropsOf | engine/src/storage/persistence_manager.cc:349-438 | the lines of an operation that is no drop say a drop if and only if a line of its content after the first starts with that word |
| LogReadings.DropsOfLog | engine/src/storage/persistence_manager.cc:349-438 | a log of such operations says a drop if and only if some content in it hides one |
| LogReadings.SixDigitsOk | engine/src/storage/persistence_manager.cc:308-310 | what the theorems assume of printing and reading floats, and the rounded component of their inputs, can be met together |
| LogReadings.LostInsertion | engine/src/storage/persistence_manager.cc:305-314 | an insertion that is not kept is never among what its own lines say |
| Persistence.SuffixReads | engine/src/storage/persistence_manager.cc:468-578 | reading from an offset gives exactly the loggable operations logged from there on |
| Persistence.VectorPersistenceManager.AppendInsert | engine/src/storage/persistence_manager.cc:305-314 | the file grows by exactly the line of this insertion |
| Persistence.VectorPersistenceManager.AppendRemove | engine/src/storage/persistence_manager.cc:316-320 | the file grows by exactly the line of this removal |
| Persistence.VectorPersistenceManager.AppendCreate | engine/src/storage/persistence_manager.cc:322-330 | the file grows by exactly the line of this creation |
| Persistence.VectorPersistenceManager.AppendDrop | engine/src/storage/persistence_manager.cc:332-336 | the file grows by exactly the line of a drop |
| Persistence.VectorPersistenceManager.ReplayWAL | engine/src/storage/persistence_manager.cc:338-445 | the line loop delivers the parsed file, entry by entry |
| Persistence.VectorPersistenceManager.SerializeWALEntries | engine/src/storage/persistence_manager.cc:468-578 | the line loop that skips lines gives the parsed file without its first entries up to the offset |
| Persistence.VectorPersistenceManager.ParseLine | engine/src/storage/persistence_manager.cc:351-438 | the branches for the commands fill in the parsed entry, an empty insertion for an unknown one |
| Persistence.VectorPersistenceManager.ParseCreateLine | engine/src/storage/persistence_manager.cc:391-434 | the fields in order give the parsed creation, or an indeterminate one after a failed extraction |
| Persistence.VectorPersistenceManager.ReadComponents | engine/src/storage/persistence_manager.cc:365-368 | the extraction loop reads the floats up to the first that does not read |
| Persistence.VectorPersistenceManager.ParseInsertLine | engine/src/storage/persistence_manager.cc:494-518 | id, components and delimiter handling compute the parsed insertion |
| Replay.RemovalForgets | engine/src/engine.cc:702-711 | once an id is removed in a log, what it was before does not matter |
| Replay.ReplayIdempotent | engine/src/engine.cc:138-145 | replaying a log over the records reached by any part of it equals replaying it once |
| Replay.LeftoverHarmlessIffEmpty | engine/src/engine.cc:132-145 | replaying the log of an earlier table before a new table's own, over the new table's records, changes nothing for every new log if and only if the earlier table held nothing |
| Recovery.NextInv | engine/src/engine.cc:132-168 | append, apply, snapshot, metadata, log clearing, crash, startup and creation in place of a lost table that held nothing all keep: snapshot plus what the log text says describe the whole history, and no replay hangs |
| Recovery.RecoveredClose | engine/src/engine.cc:132-145 | for every run of printable operations with crashes anywhere, in which only a lost table that held nothing is created anew, no restart hangs and a table that is up holds exactly the ids and contents of its history, each vector exact or as it reads back |
| Recovery.NothingLostOrDuplicated | engine/src/engine.cc:132-145 | if the operations are kept, it holds exactly its history |
| Restarts.ComesBackIff | engine/src/engine.cc:108-145 | in every run, a restart brings the table back if and only if its metadata was saved by an earlier step and no earlier step logged a content that hides a drop without a clearing of the log after it; it is missing exactly without metadata, and otherwise hangs |
| Restarts.PrintableComesBack | engine/src/engine.cc:108-145 | for printable operations a restart brings the table back if and only if its metadata was saved, with exactly the ids and contents of its history |
| Restarts.HungForever | engine/src/storage/persistence_manager.cc:332-339 | once a replay hangs, every later restart of every run hangs again |
| Restarts.LinesOfWrite | engine/src/engine.cc:692-711 | replaying the lines of an effective write does what the write did if and only if the write is kept |
| Restarts.SurvivesCrashIffKept | engine/src/engine.cc:132-145 | in every run of kept operations, an effective write survives a crash right after it if and only if it is kept |
| Restarts.LineEndLosesRecord | engine/src/engine.cc:138-145 | inserting a content with a line end takes another record away at the next restart |
| Restarts.LineEndHangs | engine/src/engine.cc:138-145 | inserting a content with a drop after a line end makes the next restart hang |
| Restarts.LineEndCutsContent | engine/src/engine.cc:138-145 | a content that goes on after a line end without a command comes back cut short, and every other record is as it was |
| Restarts.RoundedAtRestart | engine/src/engine.cc:138-145 | the component 0.1234567 is 0.123457 after a restart |
| LostTables.RecreationSafeIffEmpty | engine/src/engine.cc:86-145 | at every point where a table is lost, a table created anew holds what its own operations describe in every continuation if and only if the lost one held nothing |
| LostTables.OldRecordsReturn | engine/src/engine.cc:132-168 | whenever a table is lost there is a continuation in which a new table, to which nothing was done, comes up with exactly the ids and contents of the lost one |
| LostTables.LostTableReturns | engine/src/engine.cc:86-145 | a run in which a table that was never written to comes back with a record of a lost one |
| StatsManagers.StatsManager.Increment | engine/src/stats/stats_manager.cc:26-39 | exactly the named counter grows by one |
| StatsManagers.StatsManager.Set | engine/src/stats/stats_manager.cc:45-58 | exactly the named counter is set, a negative int as the 64-bit word it wraps to |
| StatsManagers.StatsManager.AdjustForDeletions | engine/src/stats/stats_manager.cc:60-63 | the vector count drops by the deleted count, as 64-bit subtraction |
| StatsManagers.CleanedMeaning | engine/src/engine.cc:620-647 | a cleanup leaves the live vectors counted, none deleted, and the stale ones exactly if they are at most the threshold's share |
| Writers.NextCounters | engine/src/engine.cc:185-223 | every step of every interleaving keeps the counters, with the writers under way, in balance with the store |
| Writers.QuietCounters | engine/src/engine.cc:613-626 | whenever the unique lock is held, the counters give the store size and neither subtraction wraps |
| Writers.CleanupBoundsStale | engine/src/engine.cc:620-647 | after each cleanup stale vectors are at most the threshold's share of live and stale ones, and still counted exactly if they were so before |
| Writers.RestartCounters | engine/src/engine.cc:143-145 | after a restart the counters are right if and only if the replay removed nothing; exact condition for the wrap |
| Writers.RestartWraps | engine/src/engine.cc:143-145 | after one insertion and its removal in the replayed log, the next cleanup leaves the largest vector count there is |
| Writers.WritesCommute | engine/src/engine.cc:183-214 | two writes commute on every store if and only if they do not clash |
| Writers.ApplyLate | engine/src/engine.cc:183-185 | applying a pending operation late equals having applied it at its place in the log |
| Writers.LogAndMemoryAgree | engine/src/engine.cc:183-281 | for every interleaving in which overlapping operations do not clash, a quiet store is the replay of the log |
| Writers.OverlapDisagreesIffClash | engine/src/engine.cc:183-185 | two writers can leave a quiet store different from the replay of the log if and only if their operations clash |
| Replication.AcceptedPrefix | engine/src/replica/replica_manager_service_impl.cc:14-24 | a replica sent the rest of the log accepts entries up to the first that failed on the primary, and no further |
| Replication.Answered | engine/src/replica/replica_manager.cc:143-144 | one answered request moves the replica to the prefix that its new offset says |
| Replication.AnsweredReachesEnd | engine/src/replica/replica_manager_service_impl.cc:14-24 | an answered request reaches the end of the log if and only if every entry from the offset on took effect on the primary |
| Replication.NoCommandRefused | engine/src/replica/replica_manager_service_impl.cc:17-19 | no replica accepts a line without a command |
| Replication.NothingNewSame | engine/src/replica/replica_manager.cc:165-171 | if only failed entries follow an offset, that prefix already is the primary's table |
| Replication.ApplyPrinted | engine/src/engine.cc:692-711 | an entry with its floats as they read back does to a table of such vectors what the entry does to the exact table |
| Replication.Replica.Sync | engine/src/replica/replica_manager_service_impl.cc:14-24 | the loop applies entries up to the first failure and returns their number |
| ReplicaSyncs.AskedOk | engine/src/replica/replica_manager.cc:143-144 | an answered request keeps the replica in step with its offset and reaches the end exactly if all entries took effect |
| ReplicaSyncs.UnfailedHasAll | engine/src/replica/replica_manager.cc:128-163 | whatever the network does in the four attempts, if no failure is noted the replica has the whole log |
| ReplicaSyncs.ReliableAttempts | engine/src/replica/replica_manager.cc:128-163 | if everything arrives, a failure is noted exactly when an entry from the offset on had no effect on the primary |
| ReplicaSyncs.AttemptsPeer | engine/src/replica/replica_manager.cc:128-144 | the first of the four requests to arrive does all there is to do for a replica, and without one nothing changes |
| ReplicaSyncs.AttemptsFail | engine/src/replica/replica_manager.cc:145-162 | for every network, no failure is noted exactly if every entry from the offset on took effect, one of the first three requests arrives, and the checksum asked for after the first that does arrives and agrees |
| ReplicaSyncs.AskedMoves | engine/src/replica/replica_manager.cc:143-144 | an answered request moves the offset exactly if the entry at the offset took effect on the primary |
| ReplicaSyncs.UnfailedSync | engine/src/replica/replica_manager.cc:120-172 | whatever the network does, if a sync notes no failure every replica has the whole log |
| ReplicaSyncs.ReliableSync | engine/src/replica/replica_manager.cc:120-172 | if everything arrives, a sync notes a failure exactly when such an entry follows the offset of some replica |
| ReplicaSyncs.FailedOperationStops | engine/src/replica/replica_manager_service_impl.cc:17-19 | no offset ever passes an entry that had no effect on the primary |
| ReplicaSyncs.StuckForever | engine/src/replica/replica_manager.cc:128-172 | once such an entry follows the offset of a replica, every sync notes a failure and leaves it so, whatever the network does |
| ReplicaSyncs.StuckLater | engine/src/replica/replica_manager.cc:128-172 | whatever is logged later, the replica stays behind that entry |
| ReplicaSyncs.RepeatedInsertionSticks | engine/src/engine.cc:183-185 | a log in which an entry without effect is followed by an effective one |
| ReplicaManagers.TakenAgreed | engine/src/engine.cc:183-199 | logging and applying an operation keeps table, log text, replicas and modified flag in agreement |
| ReplicaManagers.SyncedAgreed | engine/src/replica/replica_manager.cc:165-171 | so does a sync under every network behaviour |
| ReplicaManagers.LinesOnTable | engine/src/replica/replica_manager_service_impl.cc:14-24 | the lines of an effective write do to a replica's table what the write did if and only if it is kept |
| ReplicaManagers.UnmodifiedMeansPrinted | engine/src/replica/replica_manager.cc:165-171 | for printable operations a false modified flag means that every replica holds the table with its vectors as they read back, hence the same table exactly when every stored vector reads back as itself |
| ReplicaManagers.UnmodifiedMeansEqual | engine/src/replica/replica_manager.cc:165-171 | for kept operations a false modified flag means equal tables, with failed operations in the log or not |
| ReplicaManagers.LastWriteDecides | engine/src/replica/replica_manager.cc:130-144 | after kept operations, a replica that has got an effective write holds the primary's table if and only if the write is kept |
| ReplicaManagers.ReliableSyncLowersFlag | engine/src/replica/replica_manager.cc:165-171 | if everything arrives, the flag is lowered exactly when no operation without effect follows the offset of a replica |
| ReplicaManagers.LossUnnoticed | engine/src/replica/replica_manager.cc:145-155 | with a lossy stored vector and everything arriving, the flag is lowered although every replica differs |
| ReplicaManagers.RoundedOnReplica | engine/src/storage/persistence_manager.cc:308-310 | the component 0.1234567 is 0.123457 on a replica |
| ReplicaManagers.LineEndOnReplica | engine/src/storage/persistence_manager.cc:312-313 | inserting a content with a line end takes another record away from a replica |
| ReplicaManagers.LineEndSticksReplica | engine/src/storage/persistence_manager.cc:312-313 | no replica ever gets past the text after a line end in a content, if that is no command |
| ReplicaManagers.ReplicaManager.CreateTable | engine/src/engine.cc:448-504 | a creation is logged and flagged exactly when it is allowed, valid and new |
| ReplicaManagers.ReplicaManager.Write | engine/src/engine.cc:172-199 | an allowed and valid write is logged first and flagged only if it took effect; others change nothing |
| ReplicaManagers.ReplicaManager.EntriesFrom | engine/src/replica/replica_manager.cc:130 | the entries to send are the parsed lines of the log text from the offset on |
| ReplicaManagers.ReplicaManager.Request | engine/src/replica/replica_manager.cc:142-144 | lost, nothing changes; answered, the replica has applied the accepted entries and the offset moved by their number |
| ReplicaManagers.ReplicaManager.SyncReplica | engine/src/replica/replica_manager.cc:128-163 | the retry loop does exactly the specified attempts |
| ReplicaManagers.ReplicaManager.Sync | engine/src/replica/replica_manager.cc:113-173 | offsets, replicas and modified flag become exactly what the specified sync gives, and stay in agreement |
| ReplicaProtocol.NextOk | engine/src/replica/replica_manager.cc:128-163 | writes, lost requests, processing, answers and harmless losses of answers in any order keep each replica on the prefix of its offset or announced answer |
| ReplicaProtocol.LossKeepsIffUnchanged | engine/src/replica/replica_manager.cc:142-144 | losing the answer to a processed request, whatever is logged meanwhile, keeps that if and only if the processing left the replica's table as it was: always if nothing was counted, never if one entry was |
| ReplicaProtocol.ReplicaSafety | engine/src/replica/replica_manager.cc:113-163 | for all interleavings without harmful losses, each replica with nothing in flight holds the replay of exactly its first offset entries |
| ReplicaProtocol.StuckForever | engine/src/replica/replica_manager.cc:131-144 | a replica that refuses the entry at its offset never changes again, nor does its offset, in any continuation |
| ReplicaProtocol.MovesIffAccepted | engine/src/replica/replica_manager.cc:131-144 | the next answered request moves the offset if and only if the replica accepts the first entry sent |
| ReplicaProtocol.LostAnswerBreaksSafety | engine/src/replica/replica_manager.cc:142-144 | a run with one lost answer after which the replica holds more than its offset says and is stuck |
| RestartSyncs.LogStartsWithCreation | engine/src/engine.cc:132-145 | in every run the log of a running table says a creation first, because a restart logs one before anything else |
| RestartSyncs.RestartSticksIffPresent | engine/src/replica/replica_manager.cc:128-144 | after a restart of the primary a replica is stuck for good if and only if it still has the table |
| RestartSyncs.RestartedSyncFails | engine/src/replica/replica_manager.cc:128-163 | then every sync notes a failure and changes nothing, whatever the network does |
| RestartSyncs.LostReplicaSticksIff | engine/src/engine.cc:448-452 | a replica that lost its table is stuck if and only if the next entry is not a creation |
| LruCaches.StepFits | engine/src/cache/lru_cache.cc:12-61 | every operation keeps keys distinct and the capacity respected |
| LruCaches.HitInBoth | engine/src/cache/lru_cache.cc:12-24 | a hit of the smaller cache is a hit of the larger with the same value |
| LruCaches.StoreInBoth | engine/src/cache/lru_cache.cc:53-60 | storing a new key with evictions on either side keeps the smaller cache included in the larger |
| LruCaches.StepIncluded | engine/src/cache/lru_cache.cc:12-61 | every operation keeps the smaller recency list a subsequence of the larger with equal values |
| LruCaches.EnlargingKeepsHits | engine/src/cache/lru_cache.cc:12-61 | on every trace, enlarging the capacity never turns a hit into a miss nor changes its value |
| LruCaches.UsedSurvives | engine/src/cache/lru_cache.cc:12-61 | an item just stored or read survives any fewer than capacity operations that do not touch it |
| LruCaches.Unlink | engine/src/cache/lru_cache.cc:33-34 | erasing a cell through the iterator that the map stores leaves its item out and all other iterators right |
| LruCaches.Link | engine/src/cache/lru_cache.cc:59-60 | a cell at the end with its iterator in the map adds its item last |
| LruCaches.LRUCache.Get | engine/src/cache/lru_cache.cc:12-24 | returns the stored value and moves the key to the recent end; map and list agree |
| LruCaches.LRUCache.Store | engine/src/cache/lru_cache.cc:44-61 | replaces or appends, evicting exactly the oldest key when full; map and list agree |
| LruCaches.LRUCache.Invalidate | engine/src/cache/lru_cache.cc:26-35 | removes exactly the key; map and list agree |
| LruCaches.LRUCache.InvalidateAll | engine/src/cache/lru_cache.cc:37-42 | nothing is left |
| BatchKeys.ComputeKey | engine/src/engine.cc:355-365 | the nested loops compute the key of the batch |
| BatchKeys.SwapSharesKey | engine/src/engine.cc:357-359 | exchanging k and the search parameter does not change the key |
| BatchKeys.OddComponentsShareKey | engine/src/engine.cc:360-362 | changing components at odd positions does not change the key |
| BatchKeys.ReorderingSharesKey | engine/src/engine.cc:355-365 | every reordering of a batch has the same key |
| BatchKeys.OneChangeOtherKey | engine/src/engine.cc:343-354 | batches that differ in one number of hits, one search parameter or one even component with another hash have different keys |
| BatchKeys.TwiceLeavesCount | engine/src/engine.cc:344-354 | a request asked twice leaves only its count in the key, and the count does change it |
| Engines.TableEngine.Insert | engine/src/engine.cc:172-199 | logged and applied exactly when allowed and valid; log, store, counters and cache stay in agreement |
| Engines.TableEngine.Remove | engine/src/engine.cc:201-232 | logged and applied exactly when allowed; log, store, counters and cache stay in agreement |
| Engines.TableEngine.BatchInsert | engine/src/engine.cc:256-288 | one invalid item rejects the batch; otherwise each flag says whether its item took effect in order, and the store is the replay of all |
| Engines.TableEngine.BatchRemove | engine/src/engine.cc:290-329 | each flag says whether its removal took effect in order, and the store is the replay of all |
| Engines.TableEngine.BatchSearch | engine/src/engine.cc:331-421 | a cached result is what its own batch would answer on the current store, hence the recomputed answer when no other batch shares the key |
| Engines.TableEngine.OneChangeOwnKey | engine/src/engine.cc:343-365 | a batch that differs in this way from every batch asked before is computed afresh |
| Engines.TableEngine.Cleanup | engine/src/engine.cc:613-648 | the vector count becomes the store size, deleted is reset, stale is reset exactly above the threshold |
| Engines.SharedKeyDifferentAnswers | engine/src/engine.cc:343-365 | batches that share a key can have different answers, so the condition is needed |
| Engines.ReorderedDifferentAnswers | engine/src/engine.cc:343-365 | a batch and a reordering of it can have different answers |
| ThreadPools.NextOk | engine/src/util/thread_pool.cc:9-36 | every step of workers, callers and destructor keeps the pool invariant |
| ThreadPools.FifoOnceNoLostWakeup | engine/src/util/thread_pool.cc:13-31 | for every interleaving: FIFO, each task taken once, no worker gone while a task is queued, a queued task has an awake worker or a notification on its way |
| ThreadPools.AllRun | engine/src/util/thread_pool.cc:38-52 | once all workers have exited, every pushed task has run exactly as often as pushed |
| ThreadPools.NeverStuck | engine/include/util/thread_pool.h:56-66 | while a task is queued, or after the stop flag while a worker is left, a worker or notifier has a step to take |
| ThreadPools.ShutdownShrinks | engine/src/util/thread_pool.cc:38-52 | after the wake-up at shutdown every step leaves strictly less to do, so shutdown ends under every schedule |
| ThreadPools.NothingTakenAgain | engine/include/util/thread_pool.h:47-66 | once all workers have exited, in every continuation nothing is taken and what is queued stays queued, so no caller may push then |

## Left out

- Float arithmetic: `ComputeDistance`, NaN and the level distribution; a distance function and a level function are
  parameters.
- Recall of the graph index beyond small tables: pruning and soft removal can disconnect the graph.
- Locks inside the index, store and cache classes: their methods are modelled as atomic.
- Snapshot and metadata files: a snapshot is the records and metadata is there or not; their encoding, a partly
  written one and the graph in a snapshot are not modelled.
- Dropping and re-creating a table under replication, and a run of the protocol across restarts of the primary; where it
  leaves the replicas is in `RestartSyncs`.
- Clearing the log at shutdown even when the last sync failed: the comment there says that replicas are in sync first,
  which the code does not check.
- A table whose dimension differs from that of its index configuration: the services always pass the same one.
- Cache results on replicas, with the graph index, and under racing writers, where the code does not invalidate.
- Services, protobuf encoding, loggers, metrics, the cleaner's timing, clocks and `main`.
- Engines.TableEngine.BatchSearch: requests of a batch are answered one after another; their order in the pool does not
  matter because they only read.
- BatchKeys.ComputeKey: `mix` and `float` are parameters for exclusive or and the float hash; the laws of exclusive or
  (order does not matter, it cancels, twice is nothing) are assumed where they are used.
- LruCaches.LRUCache.Store: requires a positive capacity; with capacity zero the source pops an empty list.
- Persistence.VectorPersistenceManager.ParseCreateLine: a garbled creation has no value here; where one is replayed or
  sent, it is a creation with some fixed configuration.
- ReplicaManagers.ReplicaManager.Request: a request that arrives is answered; lost answers are in `ReplicaProtocol`.
- WalRoundTrip.LogRoundTrip: takes printing and reading of single floats as given.
- Writers.RestartCounters: for stores of fewer than 2^31 records, since the size is passed as an `int`.
