# nvecd in Dafny

nvecd is an in-memory recommendation engine: clients send events and vectors, the server keeps a co-occurrence
matrix and a vector store, answers similarity queries, caches the answers, and logs its writes.  This project models
the parts of it whose correctness depends on state, order or interleaving, and proves what they are for.

`dafny verify dfyconfig.toml` checks everything.  One module stands for each component:

| module | what it is about |
|---|---|
| `CacheProtocol`, `CacheKeys`, `CommitHistory`, `FilteredSearch` | readers, writers and snapshot loads around the generation-keyed result cache, as small interleaved steps; the texts behind its keys; what a run commits; the filtered search as one of the readers |
| `SimilarityCacheModel`, `CacheLifetime`, `LruList` | the cache itself: recency list, map, reverse index, memory bound, lifetimes |
| `Events`, `CoOccurrence`, `PairScores`, `IndexRun` | event weights as closed-form pair sums, and the matrix that is updated, decayed and pruned in place |
| `RingBuffers`, `EventCaches`, `EventStores` | ingestion: rings, the two deduplication caches, the bound on contexts |
| `StoreStream` | from the buffers of the store to the scores of the index |
| `Recovery`, `CrashSafety`, `LogMeaning`, `LogCaches`, `RecoveryLimits` | write-ahead logging as a run of steps, what a log means, replay, and exactly when replay rebuilds the live state |
| `WalCodec`, `ResultCodec`, `Bytes` | the binary forms of logged commands and of cached results |
| `Framing`, `Responses`, `ReactorBuffers`, `Reactor`, `Turns`, `EndOfInput` | the server's connections: framing, line endings, lock sections, and all connections as one machine |
| `ClientFraming`, `Replies` | the client's response framing and receive loop, and the replies it understands |
| `Search`, `StringOrder` | the bounded-heap scan and the doubling fetch |
| `Md5`, `Md5Abc`, `RateLimiting` | cache-key hashing and the token bucket |
| `Sequences`, `Sets`, `Numbers`, `Wrappers` | what the others share |

Code that updates state is a class whose methods are proved against functions on values; the lemmas are about those
functions and about runs made of them.  Concurrent code is a state machine whose steps are sections under one lock or
single accesses to an atomic.  Scores, weights and tokens are reals; other floating-point numbers are bit patterns.

## What turned out to be conditional

Several promises hold only under a condition.  Each has the exact condition, or a run that breaks it and a condition
that saves it.

- A query that misses the cache reads the stores piecemeal while writers run, so its answer may fit no single state
  (`FilteredSearch.MissesMayBeTorn`).  Cached answers, and answers whose counters still hold at the end, always fit one
  (`CurrentResultsAreLinearizable`).
- The text a cache key is the digest of separates its fields by colons.  It is the query's own as long as no id holds a
  colon (`PlainIdsNeverClash`); with one, a filtered query and an unfiltered one can share it (`ColonsClash`).  The cache
  protocol takes keys as the tuples of their fields, so what it says is about ids without colons.
- Replay rebuilds what was logged exactly when it drops no event (`RecoveryIsExact`).  On the log: where the caches have
  room for its keys and the replay lasts no longer than the deduplication window, exactly when every logged event is
  new with respect to the ones before it and nothing of the next item occurs (`RecoveryIffSpaced`).  A log can fail it:
  a duplicate moves a key in a cache but is not logged, so a full cache evicts differently on replay (`LiveEviction`,
  `ReplayedEviction`), and a backdated event accepted after the window is a duplicate for a replay within it
  (`BackdatedEventIsLost`).  `RestartRestores` gives conditions a deployment can check beforehand.
- `events.decay_alpha: 0.0` is allowed by configuration and documentation, but a logged decay of 0 is rejected on
  replay, so the server does not start again (`ZeroDecayStopsRecovery`).  With `wal.include_vectors: false`, METASET
  and VECDEL are still logged and refer to vectors the replay never sees (`UnloggedVectorStopsRecovery`).
- Incremental scores pair an event with the last events of its context exactly when the context is still in the store
  whenever it comes back (`PriorsAreWindows`); an evicted context starts anew (`BuffersAreStays`).
- Request framing looks for CRLF before LF, so a stream that mixes them is cut differently depending on how it
  arrives; the exact condition is in `FramingIsChunkIndependent`.
- Connections answer in order, but at end of input the last answer can be lost: a drainer that left its loop takes two
  empty queues for the end while another drainer still processes a request (`LateDrainerLosesAnswer`).  Two empty
  queues mean that all is answered exactly when no request is in flight and no drainer gave up; the flag
  `drain_scheduled_`, which the reader tests and the drainer does not, is enough to know it
  (`AllAnsweredIffNoneInFlight`, `ClosingAtEndOfInput`).
- A comment in `CoOccurrenceIndex::UpdateFromEvents` has batch updates apply the support threshold at once; the code
  prunes only rows over the neighbour limit, so it does exactly when there is no such limit (`ThresholdNeedsNoLimit`).
- Event search with a filter doubles its fetch up to 2^31 - 1 and would go on for ever on a longer row with too few
  matches among those (`FetchingEnds`).
- `MD5::Update` counts positions in 32 bits: buffered and new bytes together must stay below 2^32 (`GuardIsRight`).

## Model

| member | source | states |
|---|---|---|
| CacheProtocol.CachedEntriesAreAnswers | src/server/request_dispatcher.cpp:495-600 | in every interleaving of readers, writers and loads, each cached entry is the answer an undisturbed search gives on a committed state with exactly the counters of its key |
| CacheProtocol.CurrentResultsAreLinearizable | src/server/request_dispatcher.cpp:523-588 | a cache hit, or a result whose counters still held at the final check, is the answer to the query on a state committed no earlier than the last commit before the request was made |
| CacheProtocol.GenerationsNameOneState | src/server/nvecd_server.cpp:518-524 | two commits with the same key counters hold the same stores, even across a swap that moves the co-occurrence counter backwards |
| CacheProtocol.AnswerIsUnique | src/server/request_dispatcher.cpp:545-555 | an undisturbed search has one answer, so the key determines the cached value |
| CacheProtocol.PlanIsDisciplined | src/server/request_dispatcher.cpp:270-493 | every write command bumps the counter of each store it mutates after the mutation, or under the index lock |
| CacheProtocol.RunKeepsInv | src/server/request_dispatcher.cpp:495-600 | the invariant tying readers, the writer, the cache and the commit history holds in every reachable state |
| CacheProtocol.KeysAgree | src/cache/cache_key_generator.cpp:28-50 | two keys agree exactly when the queries do and the counters of the stores they read, which for a SIMV leaves the co-occurrence counter out |
| CacheKeys.TextsNameKeys | src/cache/cache_key_generator.cpp:28-50 | two keys share a text only if they are the same, vectors of one digest aside, or belong to SIMs of two ids of which one goes on after the other with a colon |
| CacheKeys.PlainIdsNeverClash | src/cache/cache_key_generator.cpp:28-50 | as long as no id holds a colon, every SIM has a text of its own |
| CacheKeys.ColonsClash | src/cache/cache_key_generator.cpp:28-50 | whatever the id and the counters, two queries, one with a filter and one with a colon in its id, that share a text |
| CommitHistory.HistoryIsCommands | src/server/request_dispatcher.cpp:270-493 | whatever readers do in between, a run commits exactly its commands, one after the other: each commit is the one before with the stores its command names set to what it leads to, the others as they were, and the counters of what changed moved on; likewise for snapshot loads |
| CommitHistory.WritersFinish | src/server/request_dispatcher.cpp:270-493 | nothing holds a writer up: its next steps commit it |
| CommitHistory.RepeatIsHit | src/server/request_dispatcher.cpp:523-588 | a result that is still current is cached as such, and the next reader of the same query is answered from the cache with it |
| FilteredSearch.MissesMayBeTorn | src/server/request_dispatcher.cpp:629-668 | for every filter, similarity and choice of the best: a run in which two METASETs fall between the metadata reads of a filtered search, so that it returns nothing although each of the three committed states holds a match; the result is neither current nor cached |
| FilteredSearch.AnswersAreBest | src/similarity/similarity_engine.cpp:677-728 | a filtered search that has the stores to itself answers exactly with the best matching items, although it tests each of them twice |
| FilteredSearch.ResultsPassAgain | src/server/similarity_result_utils.h:31-45 | whatever writers did meanwhile, every result passed the filter once more after it was selected |
| SimilarityCacheModel.SimilarityCache.InsertWithTtl | src/cache/similarity_cache.cpp:206-291 | true exactly when the key was absent and is now resident; only a suffix of the recency list is evicted, and the fresh entry only if the cache ends empty; the estimate stays within the limit |
| SimilarityCacheModel.SimilarityCache.EvictForSpace | src/cache/similarity_cache.cpp:479-504 | leaves a prefix of the list; beyond the minimal batch nothing is evicted that could have stayed; succeeds exactly when the space is there |
| SimilarityCacheModel.SimilarityCache.EstimateMemory | src/cache/similarity_cache.cpp:392-419 | the running estimate is the sum over entries and index rows |
| SimilarityCacheModel.SimilarityCache.RegisterResultItemsLocked | src/cache/similarity_cache.cpp:306-320 | the entry lists each new item once, up to fifty, and the reverse index follows |
| SimilarityCacheModel.SimilarityCache.InvalidateByItemId | src/cache/similarity_cache.cpp:322-342 | removes exactly the entries that list the item, keeps the order of the others, and returns their number |
| SimilarityCacheModel.SimilarityCache.EraseLocked | src/cache/similarity_cache.cpp:363-390 | removes one entry from list, map and every index row, leaving no empty row |
| SimilarityCacheModel.SimilarityCache.Touch | src/cache/similarity_cache.cpp:581-591 | moves a resident key to the front and changes nothing else |
| SimilarityCacheModel.SimilarityCache.Probe | src/cache/similarity_cache.cpp:49-171 | a hit exactly for a resident, valid entry whose stored results can be read and whose stored expiry and age under the TTL of the lookup both leave it time; otherwise stale |
| SimilarityCacheModel.SimilarityCache.Settle | src/cache/similarity_cache.cpp:117-199 | after other operations may have run, touches or erases only the very entry that was probed |
| SimilarityCacheModel.SimilarityCache.PurgeExpired | src/cache/similarity_cache.cpp:449-477 | keeps exactly the valid entries that stored expiry and age leave time, and counts the others |
| SimilarityCacheModel.SimilarityCache.ClearIf | src/cache/similarity_cache.cpp:432-447 | keeps exactly the entries the predicate does not select |
| SimilarityCacheModel.SimilarityCache.Erase | src/cache/similarity_cache.cpp:358-361 | removes the key if it is there |
| SimilarityCacheModel.SimilarityCache.MarkInvalidated | src/cache/similarity_cache.cpp:344-356 | marks exactly one entry, structure untouched |
| SimilarityCacheModel.SimilarityCache.Clear | src/cache/similarity_cache.cpp:421-430 | empties the cache |
| SimilarityCacheModel.TrackIsComplete | src/cache/similarity_cache.cpp:306-320 | the tracked items are distinct, at most fifty, and complete when fewer than fifty items occur |
| SimilarityCacheModel.TrackedItems | src/cache/similarity_cache.cpp:306-320 | a fresh entry lists the first fifty distinct ids of its results, in order of first use |
| SimilarityCacheModel.ReverseIsUnique | src/cache/similarity_cache.cpp:306-342 | the reverse index is determined by the entries: an index that lists exactly the right keys and has no empty row is the one the model computes |
| SimilarityCacheModel.DropFromRowsIsReverse | src/cache/similarity_cache.cpp:363-390 | dropping a key from the rows of its items gives the reverse index of the remaining entries |
| SimilarityCacheModel.UsageShrinks | src/cache/similarity_cache.cpp:392-419 | erasing entries never raises the memory estimate |
| CacheLifetime.LookupAfterInsert | src/cache/similarity_cache.cpp:49-171 | inserted at time now with lifetime ttl and left in the cache unmarked by any operations in between, results are found at a later time exactly while later < now + ttl seconds and later - now is below the TTL of the lookup, where those are set |
| CacheLifetime.PurgeAfterInsert | src/cache/similarity_cache.cpp:449-477 | and a purge keeps them under the same test |
| CacheLifetime.Perform | src/cache/similarity_cache.cpp:206-504 | no operation changes an entry that it leaves in the cache, except to mark it invalid |
| LruList.EraseNode | src/cache/similarity_cache.cpp:363-390 | erasing through an iterator keeps list and iterators in bijection and removes exactly the key |
| LruList.PushNode | src/cache/similarity_cache.cpp:269-275 | pushing a new key keeps list and iterators in bijection |
| LruList.PopNode | src/cache/similarity_cache.cpp:479-504 | the last node is the one its key points to |
| LruList.UseAllIsRecency | src/events/dedup_cache.cpp:66-120 | after any history of uses, a list of capacity n holds exactly the n most recently used distinct keys, most recent first |
| LruList.RecencyIsByLastUse | src/events/state_cache.cpp:161-177 | the recency order lists every used key once, by the time of its last use |
| LruList.LargerListContainsSmaller | src/events/dedup_cache.cpp:145-154 | fed the same history, a larger list contains the smaller one |
| EventCaches.DedupCache.WouldDeduplicate | src/events/dedup_cache.cpp:54-64 | the preview agrees with the check |
| EventCaches.DedupCache.CheckAndInsert | src/events/dedup_cache.cpp:66-120 | a duplicate exactly if its time lies within the window of the recorded one, or before it with an arrival within the window of the last; the key becomes the most recent and only the last one is evicted |
| EventCaches.DedupCache.EvictLRU | src/events/dedup_cache.cpp:145-154 | drops the least recently used key |
| EventCaches.StateCache.CheckAndUpdateSet | src/events/state_cache.cpp:39-58 | a duplicate exactly when the last state is the score; the state is recorded either way |
| EventCaches.StateCache.CheckAndMarkDeleted | src/events/state_cache.cpp:85-104 | a duplicate exactly when the item is already marked deleted |
| EventCaches.StateCache.UpdateScore | src/events/state_cache.cpp:106-136 | records a state at the front of the list, evicting only the last key of a full cache |
| EventCaches.UseMapCases | src/events/dedup_cache.cpp:66-120 | the code's three branches (hit, room, eviction) are one bounded use of the key |
| RingBuffers.RingBuffer.Push | src/events/ring_buffer.h:84-93 | the buffer holds the last `capacity` items pushed, oldest first |
| RingBuffers.RingBuffer.GetAll | src/events/ring_buffer.h:95-117 | returns the contents in order of arrival |
| EventStores.EventStore.PrepareEvent | src/events/event_store.cpp:55-87 | validates, resolves and previews an event without changing anything |
| EventStores.EventStore.AddEventAndGetPrior | src/events/event_store.cpp:89-194 | rejects, drops or stores an event exactly as the ingestion function says, caches and buffers included, and returns the buffer before |
| EventStores.EventStore.CheckDuplicate | src/events/event_store.cpp:126-167 | consults and updates the cache in charge of the event's kind |
| EventStores.EventStore.EvictLeastRecentlyUsedContext | src/events/event_store.cpp:353-365 | at the limit, removes exactly the context with the smallest access stamp |
| EventStores.EventStore.Append | src/events/event_store.cpp:174-191 | one more event in the context's ring, in place, a fresh stamp, and room made by eviction for a new context; returns what the ring held before |
| EventStores.ContextRings.Push | src/events/event_store.cpp:174-191 | pushing into one context's ring leaves every other ring as it was |
| EventStores.AppendedIsConsistent | src/events/event_store.cpp:174-191 | stamps stay distinct, one for each context, within the limit |
| EventStores.KeepsMostRecentContexts | src/events/event_store.cpp:353-369 | a bounded store holds exactly the `maxContexts` most recently written contexts |
| CoOccurrence.CoOccurrenceIndex.AddEventIncremental | src/events/co_occurrence_index.cpp:71-134 | adds the weight of every pair with the buffered events and prunes the touched items; the generation moves unless there was nothing to pair with |
| CoOccurrence.CoOccurrenceIndex.UpdateFromEvents | src/events/co_occurrence_index.cpp:136-189 | the matrix of all pairs of the batch, then each batch item whose row is over the neighbour limit at its turn is pruned, in order, and nothing else |
| CoOccurrence.BatchUpdateKeeps | src/events/co_occurrence_index.cpp:176-189 | after a batch every item of it is within the neighbour limit, or without one within the support threshold; if no row was over the limit, every edge stays |
| CoOccurrence.OverfullChainKeeps | src/events/co_occurrence_index.cpp:176-189 | a batch update loses only edges at a batch item that was over the limit |
| CoOccurrence.ThresholdNeedsNoLimit | src/events/co_occurrence_index.cpp:176-189 | batch updates enforce a support threshold if and only if there is no neighbour limit |
| CoOccurrence.WeakPair | src/events/co_occurrence_index.cpp:176-189 | whatever limit and threshold, a batch of two events whose edge is below the threshold and stays |
| CoOccurrence.CoOccurrenceIndex.ApplyIngestedEvent | src/events/co_occurrence_index.cpp:42-56 | the pairs of an ingested event, then, for a deletion with negative signals enabled, the dampening of its buffer |
| CoOccurrence.UnlimitedPrune | src/events/co_occurrence_index.cpp:370-422 | without limits, pruning any items in any order changes nothing |
| CoOccurrence.CoOccurrenceIndex.ApplyNegativeSignal | src/events/co_occurrence_index.cpp:191-211 | lowers the scores of the removed item with the items of its context, in both directions |
| CoOccurrence.CoOccurrenceIndex.ApplyDecay | src/events/co_occurrence_index.cpp:271-308 | scales every score, drops what falls below the threshold, and ignores factors outside 0 to 1 |
| CoOccurrence.CoOccurrenceIndex.Prune | src/events/co_occurrence_index.cpp:353-368 | afterwards every item is within its neighbour limit and every edge at least the support |
| CoOccurrence.CoOccurrenceIndex.PruneItem | src/events/co_occurrence_index.cpp:370-422 | drops unsupported edges, then the weakest beyond the limit, from both rows |
| CoOccurrence.CoOccurrenceIndex.SetScore | src/events/co_occurrence_index.cpp:346-351 | sets a score in both directions |
| CoOccurrence.CoOccurrenceIndex.SwapState | src/events/co_occurrence_index.cpp:430-439 | exchanges the matrices and adopts the other counter |
| CoOccurrence.IngestKeeps | src/events/co_occurrence_index.cpp:71-134 | one ingested event keeps symmetry, no self-edges and no empty rows; every surviving score has grown by exactly its share; degree and support bounds, once true of all items, stay true |
| CoOccurrence.StreamIsWindowSum | src/events/co_occurrence_index.cpp:71-134 | streamed through rings of capacity C, score(a, b) is the sum over stored events of one context at most C apart, each pair once |
| CoOccurrence.BatchIsPairSum | src/events/co_occurrence_index.cpp:136-175 | the batch update adds to score(a, b) the sum over all pairs of the batch |
| PairScores.ScoresOfTwo | src/events/co_occurrence_index.cpp:71-175 | two events of different items in a fresh index, one after the other or as a batch: their score is the product of theirs, times the decay of their distance in time if weighting is on |
| PairScores.WeightIsProduct | src/events/co_occurrence_index.cpp:71-100 | the weight of any pair, in numbers |
| PairScores.NoScoreNoPairs | src/events/co_occurrence_index.cpp:100-106 | an event without a score, or with only such ones before it, changes nothing in any matrix |
| PairScores.WeightNeedsScores | src/events/co_occurrence_index.cpp:100-106 | a pair makes an edge exactly if both events have a score |
| IndexRun.Driven | src/events/co_occurrence_index.cpp:42-368 | the index, given any updates one by one, ends up with the matrix that stands for them |
| CoOccurrence.BatchOrderIrrelevant | src/events/co_occurrence_index.cpp:136-175 | a batch gives the same scores in any order |
| CoOccurrence.StreamEqualsBatch | src/events/co_occurrence_index.cpp:71-175 | up to C + 1 events of a context, streaming and a batch of any permutation agree |
| StoreStream.BuffersAreStays | src/events/event_store.cpp:174-191 | for every history and every limit on contexts, a buffer of the store holds the last C events since its context last entered the store, and the store holds exactly the contexts the order of writes says |
| StoreStream.PriorsAreWindows | src/events/event_store.cpp:174-191 | the store hands out the last C events of the context for every arrival if and only if every context that comes back does so while it is still in the store |
| StoreStream.RoomForAll | src/events/event_store.cpp:353-365 | that holds whenever contexts are not limited or there are no more than the limit |
| StoreStream.StoredStreamIsWindowSum | src/events/co_occurrence_index.cpp:71-134 | under that condition, streaming with the buffers of the store gives score(a, b) as the sum over pairs of one context at most C apart |
| StoreStream.StoredStreamEqualsBatch | src/events/co_occurrence_index.cpp:71-175 | and for up to C + 1 events of one context the scores of a batch of any permutation |
| StoreStream.ServerScoresAreWindowSums | src/server/request_dispatcher.cpp:301-329 | in every state between commands of every run of the server, with only ingestion having changed the scores and contexts coming back in time, the scores of an index without limits are the window sums of the logged events |
| CoOccurrence.PruneChainKeeps | src/events/co_occurrence_index.cpp:353-422 | pruning a series of items bounds each of them and never unbounds another |
| CoOccurrence.PruneKeeps | src/events/co_occurrence_index.cpp:370-422 | pruning an item keeps the matrix symmetric and clean, bounds the item, and removes only its edges |
| CoOccurrence.CutKeeps | src/events/co_occurrence_index.cpp:370-422 | erasing edges from both rows keeps the matrix symmetric and clean |
| CoOccurrence.DecayKeeps | src/events/co_occurrence_index.cpp:271-308 | decay keeps symmetry and keeps exactly the edges whose scaled score reaches the threshold |
| CoOccurrence.DecayedScores | src/events/co_occurrence_index.cpp:271-308 | in numbers: a score times the factor, dropped below the support threshold or, without one, below 0.000001 on either side of zero |
| CoOccurrence.BoundedScores | src/events/co_occurrence_index.cpp:370-422 | in numbers: what being within the limits means for an item |
| CoOccurrence.DampenScore | src/events/co_occurrence_index.cpp:191-211 | a negative signal changes score(a, b) by exactly the reduction of the pair and nothing else |
| CoOccurrence.SetKeeps | src/events/co_occurrence_index.cpp:346-351 | setting a score keeps the matrix free of self-edges exactly when the two items differ |
| Events.PairSumPermutation | src/events/co_occurrence_index.cpp:136-175 | the sum over pairs does not depend on the order of events |
| Events.PairSumRemove | src/events/co_occurrence_index.cpp:136-175 | taking out one event takes out exactly its pairs |
| Events.BufferIsWindow | src/events/ring_buffer.h:84-117 | the buffered part of a context is exactly what lies within the window |
| Events.WindowSumOneContext | src/events/co_occurrence_index.cpp:71-175 | with a window that covers the history, the windowed sum is the sum over all pairs |
| CrashSafety.StoresAreAtLog | src/server/request_dispatcher.cpp:270-329 | whenever the server stops, each store is what the log records or what the log without its last record does; between commands it is what the log records |
| LogMeaning.StoresAreLastRecords | src/server/request_dispatcher.cpp:270-493 | in every run between commands: with vectors logged, an id has a vector exactly when the last VECSET or VECDEL of it is a VECSET, and then that one, and metadata as the last METASET, or VECSET with metadata, since the last VECDEL gave them; buffers hold the logged events, and the index got one update for each event and decay, in order |
| LogMeaning.EventOutcome | src/server/request_dispatcher.cpp:270-329 | a valid new event is logged, buffered, and paired with what was buffered; an invalid one changes nothing, a duplicate only the caches, and one the log refuses turns the server read-only |
| LogMeaning.VecSetOutcome | src/server/request_dispatcher.cpp:331-402 | a valid vector is logged, if vectors are, and set, with its metadata; everything else stays |
| LogMeaning.VecDelOutcome | src/server/request_dispatcher.cpp:404-441 | a known vector is logged as deleted and goes, with its metadata |
| LogMeaning.MetaSetOutcome | src/server/request_dispatcher.cpp:443-493 | metadata of a known vector are logged and set |
| LogMeaning.MaintainOutcome | src/server/nvecd_server.cpp:632-674 | decay, and pruning if asked for, is logged and done |
| LogMeaning.ReplayTakes | src/server/request_dispatcher.cpp:843-904 | a replay takes a record exactly if its vector is valid or known, its decay factor above 0 and at most 1, its event valid |
| LogMeaning.ReadOnlyIsFinal | src/server/request_dispatcher.cpp:295-309 | once a server has turned read-only, nothing it holds ever changes |
| CrashSafety.AcceptedRecordsApply | src/server/request_dispatcher.cpp:301-309 | the branch for an event that diverges after it was logged is unreachable |
| CrashSafety.RecoveryIsExact | src/server/request_dispatcher.cpp:843-904 | replay rebuilds what was logged if and only if the log holds no zero decay, no record about vectors that are not logged, and no event the caches rebuilt so far take for a duplicate |
| CrashSafety.ReplayIsNoBetter | src/server/request_dispatcher.cpp:843-904 | a replay that gets through stores as many events as were logged only if nothing stood in its way |
| CrashSafety.RunIsLive | src/server/nvecd_server.cpp:632-674 | every step of accepting, logging and applying a command keeps the stores aligned with the log |
| Recovery.SeenBecomesUnseen | src/server/request_dispatcher.cpp:281-291 | exactly when a preview and its commit can disagree: a backdated event whose arrival window closes in between |
| Recovery.GoodReplay | src/server/nvecd_server.cpp:577-589 | a log a replay can work with, none of whose events is dropped, rebuilds the stores |
| LogCaches.RestartRestores | src/server/nvecd_server.cpp:561-597 | if the caches there are have room for every key, event times run forwards where they are compared, decay is positive and vectors are logged, no command diverges and a restart restores buffers, index updates and the scores they give, vectors, metadata and last-value states |
| LogCaches.RecoveryIffSpaced | src/server/request_dispatcher.cpp:843-904 | where the caches have room and the replay lasts no longer than the window, recovery is exact if and only if the log holds no zero decay, no record about unlogged vectors, and only events new with respect to the ones before them |
| LogCaches.UndroppedIsSpaced | src/server/request_dispatcher.cpp:843-904 | a replay within the window that drops nothing has only seen new events |
| LogCaches.SpacedLogReplays | src/server/request_dispatcher.cpp:843-904 | a log of new events whose keys fit is replayed without losing one, and rebuilds the caches |
| LogCaches.RunKeepsCaches | src/server/request_dispatcher.cpp:270-309 | under those conditions preview and commit always agree and the log alone determines the caches |
| RecoveryLimits.ZeroDecayStopsRecovery | src/server/request_dispatcher.cpp:843-856 | a decay factor of 0, which the configuration allows, is logged and refused by every replay |
| RecoveryLimits.UnloggedVectorStopsRecovery | src/server/request_dispatcher.cpp:817-841 | metadata set on a vector that is kept out of the log stops every replay |
| RecoveryLimits.BackdatedEventIsLost | src/events/dedup_cache.cpp:20-120 | a backdated event accepted after the window is logged and stored, and dropped by a replay |
| RecoveryLimits.LiveEviction | src/events/state_cache.cpp:39-58 | a run in which a repeated state keeps its place in a full cache, so that another key is evicted and later logged again |
| RecoveryLimits.ReplayedEviction | src/server/request_dispatcher.cpp:843-904 | the replay of that run, which never sees the repeat, drops the second event |
| Framing.FramingIsChunkIndependent | src/server/reactor_connection.cpp:97-123 | the frames of a stream are the same however it is received if and only if no bare LF stands before a CRLF; then they are its lines |
| Framing.FedIsLines | src/server/reactor_connection.cpp:97-123 | on such a stream the framing loop, run after each chunk, yields exactly the lines |
| Framing.BytewiseIsLines | src/server/reactor_connection.cpp:97-123 | received byte by byte, any stream is cut into its lines |
| Responses.NormalizeResponse | src/server/reactor_connection.cpp:285-301 | computes the normalized form |
| Responses.NormalizedIsNormal | src/server/reactor_connection.cpp:285-301 | in the output CR and LF occur only as CRLF pairs, and it ends in exactly one |
| Responses.NormalizedKeepsText | src/server/reactor_connection.cpp:285-301 | the text stays as it was but for CRs and for line ends at the end, of which one is left |
| Responses.NormalFormsAreFixed | src/server/reactor_connection.cpp:285-301 | normalizing leaves exactly the normal responses alone, and is idempotent |
| Responses.FormatSimResults | src/server/request_dispatcher.cpp:767-776 | prints the header and one row for each result |
| Responses.PrinterMeetsFramer | src/client/protocol_transport.h:170-208 | the client finds the end of a normalized result list, whatever follows, if and only if no id holds an LF |
| Responses.DebugPrinterMeetsFramer | src/client/protocol_transport.h:170-208 | with debugging on at both ends it finds the end of list and debug block together |
| ReactorBuffers.Connection.QueueFrames | src/server/reactor_connection.cpp:96-123 | the framing loop with its limits; only delimiters leave the budget |
| ReactorBuffers.Connection.Receive | src/server/reactor_connection.cpp:85-128 | one received chunk: refused without effect, or framed and queued with exact byte accounting and watermark |
| ReactorBuffers.Connection.TakeRequest | src/server/reactor_connection.cpp:223-240 | takes the oldest request and resumes reading at the low watermark |
| ReactorBuffers.Connection.EnqueueResponse | src/server/reactor_connection.cpp:253-267 | queues the normalized response exactly when write queue and budget have room |
| ReactorBuffers.Connection.SendSome | src/server/reactor_connection.cpp:169-196 | sent bytes leave queue, counter and budget together |
| ReactorBuffers.Connection.Destroy | src/server/reactor_connection.cpp:58-66 | a destroyed connection returns what it still holds |
| ReactorBuffers.MemoryBudget.TryAcquire | src/server/io_reactor.h:31-39 | acquires exactly when the bytes fit, and never passes the limit |
| ReactorBuffers.MoveKeeps | src/server/reactor_connection.cpp:96-123 | no byte but delimiters is lost, queue limits hold, and without overflow the loop is the plain framing loop |
| ReactorBuffers.MoveStops | src/server/reactor_connection.cpp:96-123 | framing stops exactly where no complete line is left, or at a line that is too long or finds the queue or the connection full |
| Reactor.QueuedRequestsAreDrained | src/server/reactor_connection.cpp:206-251 | in every run: a registered connection that is not closing and has queued requests has a drainer at work, a reader about to submit one, or someone about to close it; never are two drainers at work |
| Reactor.AnswersAreInOrder | src/server/reactor_connection.cpp:219-267 | answers leave in request order, none twice; what was written is what was sent plus what waits; while no limit was hit, the requests of a uniform stream are its lines |
| Reactor.BudgetIsConserved | src/server/io_reactor.h:27-47 | in every run the budget counts exactly the bytes all live connections hold, stays between 0 and its limit, and is 0 when all are gone |
| Reactor.ActKeeps | src/server/reactor_connection.cpp:76-263 | every action keeps the connection's invariant and takes and returns exactly the bytes its holdings change by |
| Reactor.RunIsHealthy | src/server/reactor_connection.cpp:76-263 | every reachable state of all connections is healthy |
| Turns.ReceiveTurn | src/server/reactor_connection.cpp:85-151 | a chunk beyond the limits is an overflow that changes nothing; otherwise its frames are queued, and reading goes on below 768 requests |
| Turns.OverflowTurn | src/server/reactor_connection.cpp:129-135 | after an overflow the client is told, room permitting, and the connection is closing, not yet dropped |
| Turns.ReadTurn | src/server/reactor_connection.cpp:159-167 | the rest of a read: a drain is started if requests came and none is scheduled; if that fails the client is told and the connection dropped; at the end of input with nothing pending it is dropped, or closing while output waits |
| Turns.WriteTurn | src/server/reactor_connection.cpp:169-200 | with nothing left to send, a closing connection is dropped and another one left as it was; so is one whose socket is full |
| Turns.ErrorTurn | src/server/reactor_connection.cpp:153-196 | an error of the socket drops the connection |
| Turns.AnswerTurn | src/server/reactor_connection.cpp:219-245 | a round of a drainer answers the oldest request and goes on |
| Turns.NoRoomTurn | src/server/reactor_connection.cpp:240-245 | an answer without room is lost, and closes the connection |
| Turns.LeaveTurn | src/server/reactor_connection.cpp:246-251 | a leaving drainer closes the connection past the end of input, and drops it if nothing waits |
| Turns.EnqueueMeans | src/server/reactor_connection.cpp:253-267 | an entry is queued exactly when 16 MiB and the budget leave room, else nothing happens |
| Turns.ClosingFlushesAndDrops | src/server/reactor_connection.cpp:169-200 | in every reachable state, once the socket takes the bytes, a closing connection sends all it was to send and is dropped; one that is not closing sends it and stays |
| Turns.EmptiedIsDroppedInRuns | src/server/reactor_connection.cpp:197-200 | in every reachable state, a closing connection with its output gone is dropped by its reader, whatever its drainers do meanwhile |
| Turns.FlushKeepsOpen | src/server/reactor_connection.cpp:169-200 | a flush alone never drops a connection that is not closing |
| Turns.QueuesAreBounded | src/server/reactor_connection.h:50-53 | in every reachable state: at most 1024 requests and 16 MiB of responses, reading paused from 768 requests until 512 |
| Reactor.AllAnsweredIffNoneInFlight | src/server/reactor_connection.cpp:206-251 | in every run, with both queues empty, every request has its answer if and only if none is in flight and no drainer gave up; that no drain is scheduled is enough |
| Reactor.ClosingAtEndOfInput | src/server/reactor_connection.cpp:130-167 | in every run, a reader past the end of input drops a silent connection only when everything is answered and sent; a drainer past its loop is right to do so if and only if no request is in flight and no drainer gave up |
| EndOfInput.LateDrainerLosesAnswer | src/server/reactor_connection.cpp:246-251 | a run that breaks it: a drainer past its loop closes the connection while another processes the last request, whose answer is then queued, never sent, and destroyed |
| ClientFraming.CompleteValueLength | src/client/protocol_transport.h:81-146 | the recursive scan with its cursor loop computes the specified length |
| ClientFraming.CompleteResponseLength | src/client/protocol_transport.h:148-212 | the scan of a whole response computes the specified length |
| ClientFraming.ResponseLengthExtends | src/client/protocol_transport.h:148-212 | once a buffer holds a complete response of length n, so does every extension |
| ClientFraming.ResponseLength | src/client/protocol_transport.h:148-212 | the length found is positive and within the buffer |
| ClientFraming.DecimalRoundTrip | src/client/protocol_transport.h:56-66 | a printed number is read back, up to the 64-bit range |
| ClientFraming.NegativeRoundTrip | src/client/protocol_transport.h:56-66 | with a sign in front it is read as negative |
| ClientFraming.Client.Receive | src/client/nvecdclient.cpp:282-305 | the receive loop returns the first complete response and keeps the bytes after it; a lost connection clears the buffer |
| ClientFraming.ResponseIsChunkIndependent | src/client/nvecdclient.cpp:282-305 | two chunkings of a stream give the same response and leave the same bytes |
| ClientFraming.EveryChunkingSucceeds | src/client/nvecdclient.cpp:282-305 | every chunking succeeds if and only if the stream holds a complete response and stays within the 64 MiB limit |
| Replies.ReplyMeetsFramer | src/client/protocol_transport.h:81-146 | every reply made of lines, values with their length, and lists of replies nested up to the limit is found whole, whatever follows it, and none of its beginnings is taken for it |
| Replies.ReplyIsWhole | src/client/protocol_transport.h:81-146 | the same at any place of a buffer and any depth |
| Replies.EndedReplyMeetsFramer | src/client/protocol_transport.h:156-168 | a reply closed by END, unless it is an error, is found whole if and only if it has no such line inside |
| Replies.ErrorMeetsFramer | src/client/protocol_transport.h:148-168 | an error is one line, whatever reply was expected |
| WalCodec.CodecRoundTrips | src/server/wal_codec.cpp:224-375 | decoding the encoding of a command whose fields fit gives back what is persisted of it, unless, and only unless, it is a legacy filter whose length reads as the magic number |
| WalCodec.CutPayloadIsRejected | src/server/wal_codec.cpp:273-375 | every proper prefix of a payload is rejected, except a vector whose metadata is missing altogether |
| WalCodec.OrderOfEntriesIsIrrelevant | src/server/wal_codec.cpp:122-204 | typed metadata decode to the same map in any encoding order |
| WalCodec.Reader.ReadNumber | src/server/wal_codec.cpp:59-70 | reads a little-endian number or leaves the cursor where it is |
| WalCodec.Reader.ReadString | src/server/wal_codec.cpp:73-85 | reads a length-prefixed text exactly when it is all there |
| WalCodec.DecodeTypedMetadata | src/server/wal_codec.cpp:148-204 | the loop over entries builds the specified map, the first of equal keys winning |
| ResultCodec.Serialize | src/cache/result_compressor.cpp:28-64 | serializes exactly the result lists that are not too long and whose ids fit and hold no NUL |
| ResultCodec.Deserialize | src/cache/result_compressor.cpp:66-92 | reads rows of the fixed width, refusing other sizes and unterminated ids |
| ResultCodec.RowsRoundTrip | src/cache/result_compressor.cpp:28-92 | what can be serialized is read back unchanged |
| Md5.Hasher.Update | src/cache/md5.cpp:88-117 | whatever the chunks, state is the fold over full blocks, the buffer holds the tail, and the two count words hold the bits modulo 2^64 |
| Md5.Hasher.Blocks | src/cache/md5.cpp:101-116 | fills the buffer, transforms every full block and stops at the tail |
| Md5.Hasher.Finalize | src/cache/md5.cpp:119-140 | the digest of the padded message, padding and length as in RFC 1321, sections 3.1 and 3.2 |
| Md5.Hash | src/cache/md5.cpp:232-236 | the digest of the input |
| Md5.HashChunks | src/cache/md5.cpp:88-140 | a message has one digest however it is cut |
| Md5.GuardIsRight | src/cache/md5.cpp:107-109 | the 32-bit loop test is right at every block start if and only if buffered and new bytes stay below 2^32 |
| Md5.AbsorbInPieces | src/cache/md5.cpp:88-117 | absorbing in pieces is absorbing the concatenation |
| Md5.PaddedIsWholeBlocks | src/cache/md5.cpp:127-133 | the padded message ends on a block boundary with the least padding |
| Md5Abc.DigestOfAbc | src/cache/md5.cpp:142-230 | the digest of "abc" is the one RFC 1321, appendix A.5, gives |
| Md5.CountMore | src/cache/md5.cpp:92-97 | the carry test keeps the count modulo 2^64 |
| Search.Scan | src/similarity/similarity_engine.cpp:337-399 | the bounded heap keeps the best k eligible positions, each once |
| Search.SearchFlat | src/similarity/similarity_engine.cpp:337-399 | min(k, eligible) results, ranked, none outscored by one left out; over the whole store or over a sample of distinct positions |
| Search.SelectionIsBest | src/similarity/similarity_engine.cpp:670-728 | ties aside the selection is determined: above any score it has as many members as there are eligible ones, up to k |
| Search.SampleIndices | src/similarity/similarity_engine.cpp:735-764 | the sample holds distinct positions of the store, as many as asked for |
| Search.SearchByIdEvents | src/similarity/similarity_engine.cpp:174-199 | the doubling fetch loop yields exactly the first k neighbours that match |
| Search.FetchingEnds | src/similarity/similarity_engine.cpp:174-199 | the loop ends if and only if the largest fetch there is would do, which it does for rows of at most 2^31 - 1 neighbours |
| Search.EventResultsAreBest | src/events/co_occurrence_index.cpp:222-253 | no matching positive neighbour outscores a returned one unless it is returned |
| Search.SortResults | src/similarity/similarity_result.h:31-36 | sorts by score descending, then id ascending |
| StringOrder.LessIsTotal | src/similarity/similarity_result.h:31-36 | the order on ids is total and strict |
| StringOrder.LessIsLexicographic | src/similarity/similarity_result.h:31-36 | one id comes before another if it is a proper beginning of it or has the smaller character where they first differ |
| RateLimiting.AdmittedIffWithinLimit | src/server/rate_limiter.cpp:15-59 | a request is admitted if and only if, counted from every earlier request of the client, it stays within capacity plus refill |
| RateLimiting.RateIsBounded | src/server/rate_limiter.cpp:15-59 | between any two requests at most capacity + rate x elapsed time are admitted |
| RateLimiting.TokensStayInRange | src/server/rate_limiter.cpp:54-59 | tokens stay between 0 and any capacity that validation lets through (src/config/config.cpp:777); one below 1 would start below 0 |
| RateLimiting.RateLimiter.Allow | src/server/rate_limiter.cpp:15-51 | admits by the client's bucket; the client becomes the most recent and only the oldest one makes room |
| RateLimiting.RateLimiter.EvictOldest | src/server/rate_limiter.cpp:61-69 | drops bucket, list node and iterator of the oldest client |

## Left out

- Sockets, epoll and kqueue, timeouts, the connection registry and read-interest toggling: `recv` and `send` are
  arbitrary chunks and byte counts, and a registered connection may be read at any time.
- The ranked list event search starts from is what sorting the row gives, with ties in any order.
- The HTTP surface, the CLI, the C wrapper, configuration loading, authentication, statistics and logging.
- HNSW and IVF indexes, quantizers, SIMD distances and background training: the flat index is modelled, distances are
  numbers given with the snapshot, and IVF training, which changes results without moving a counter, is outside the
  cache protocol.
- Snapshot files and WAL files: the log is a sequence replayed from the start into empty stores; a snapshot as the
  starting point, which brings no deduplication caches with it, and `RestoreEvent` are not modelled.
- Fusion search, score normalization and adaptive weights, which only combine the two searches shown here.
- LZ4 compression; in the cache model an entry holds its results, whose serialized form is the subject of `ResultCodec`.
- Lookup hit and miss counters.
- Collisions of 128-bit digests, of key texts and of vectors.
- Counters of 64 bits (generations, sequence numbers, statistics) do not wrap; floating-point rounding and NaN do not occur.
- Failures that validation has already excluded (a vector store refusing a validated vector, allocation failure).
- SimilarityCacheModel.SimilarityCache.EstimateMemory: takes entry sizes and hash-table sizes as numbers that erasing
  never raises.
- Reactor.QueuedRequestsAreDrained: says who is responsible for queued requests, not that threads are scheduled.
- RateLimiting.AdmittedIffWithinLimit: is about a client from its first request on, until it is evicted; clocks do not run
  backwards.
- Recovery.GoodReplay: rebuilds the sequence of index updates; the scores follow (`MatrixOf`) for an index without
  neighbour limit and support threshold.  With them, pruning may cut equal magnitudes either way, so that two runs of
  the same updates may differ.
- StoreStream.ServerScoresAreWindowSums: is about runs without decay and without negative signals, which change scores
  by the amounts `DecayKeeps` and `DampenScore` give.
- Md5.Hasher.Blocks: the 64 steps of the block transform are written as a fold over the standard's word order rather than unrolled.
