# LemonHub core: a verified model

This project models the stateful cores of LemonHub, an AI API gateway written in Go, and proves what they
promise: for all inputs, all runs and all interleavings.

| files | what they model |
|---|---|
| `RateLimitModel`, `RateLimitTheorems`, `RateLimitSweep`, `RateLimiter` | the in-memory sliding-window rate limiter: linked queues of timestamps, the LRU of keys, the idle sweep, reservations in flight |
| `QueryCacheModel`, `QueryCacheStore`, `QueryCacheTheorems`, `QueryCacheRecency`, `QueryCache`, `QueryKey` | the single-flight LRU cache for performance queries, and its key |
| `WorkerPoolModel`, `WorkerPoolTheorems`, `HealthCheck` | the bounded pool that tests channels, and the figures of each test |
| `DrainingModel`, `DrainingTheorems`, `Draining` | the draining HTTP handler, hijacked connections and the order of the shutdown |
| `Text`, `NameLists`, `UpstreamModel`, `UpstreamTheorems`, `UpstreamSync` | keeping a channel's model list in step with its upstream |
| `PricingModel`, `PricingTheorems`, `PricingDiff`, `ModelsDev`, `StringOrder` | the comparison of prices with upstreams, and the choice among models.dev providers |
| `MultiKeyModel`, `MultiKeyTheorems`, `MultiKey` | channels with several keys: deletion, appending, storing and reading back |
| `BodyModel`, `BodyTheorems`, `BodyStorage` | request bodies in memory or on disk, and the usage counters |
| `VerificationModel`, `VerificationTheorems`, `Verification` | one-time verification codes |
| `Paths`, `CgroupModel`, `Cgroup`, `CgroupReadings`, `CgroupScan` | memory pressure read along the cgroup hierarchy |
| `MapFacts`, `Options`, `Decimals` | two ways to recognise a map; a value that may be missing; decimals |

Most parts come in three layers. The model file gives every critical section, or every call, as a function from
state to state. The theorems file relates those functions over whole runs to an independent definition: the limiter
that keeps its full history, the counts of callers and of storages, the latest registration, the declarative
comparison. The last file has the classes and loops the program really runs; each method is proved to take exactly
the step of the model. The clock, the database, the network and random choices are parameters, and each section
under a mutex and each hand-over on an unbuffered channel is one step.

`dafny verify dfyconfig.toml` checks everything.

## What does not hold

Some promises fail on some inputs. The model keeps the code as it is, and each of these comes with a failing input
and with the exact condition.

- A rate-limited key whose window grows forgets requests that the longer window still counts. Going from one length
  to another agrees with the full history in every run exactly when the second is not longer
  (`RateLimitTheorems.WindowLengthsExactly`; `ShorterWindowForgets` builds a failing run from any two other lengths).
- An upstream model whose name has a comma is found missing for ever, and adding a model whose name is an ignore
  rule takes the rule away. Synchronisation converges exactly when neither happens
  (`UpstreamTheorems.SyncConverges`, `CommaExample`, `LostRuleExample`).
- An upstream that reports the text "same" for a pricing expression differs and is not shown
  (`PricingTheorems.SurvivesExactly`, `LiteralSameIsLost`).
- Deleting keys of a multi-key channel keeps keys and records aligned exactly when the joined text of the remaining
  keys stands for them: it fails when they begin or end with a blank one, or contain a newline. Deleting the
  automatically disabled keys when all of them are leaves every key, enabled again
  (`MultiKeyTheorems.DeletionSticks`, `PurgeSticks`, `BlankLineExample`, `AllDisabledComeBack`).
- Appending keys to a text that begins with "[" and is not a JSON array drops the keys it had
  (`MultiKeyTheorems.AppendKeepsExistingExactly`).
- The two body storages can be told apart by a reader that is read or closed after it was closed, and by a read of
  no bytes when nothing is left; by nothing else (`BodyTheorems.ObservationallyEqual`, `ClosedReaderTells`,
  `EmptyReadTells`).
- The disk budget for bodies is overrun by creations that decide at the same time, and by streams longer than
  declared; the excess is bounded by just these (`BodyTheorems.DiskUseIsBounded`, `RaceIgnoresBudget`,
  `StreamOverrunsExactly`, `UnderstatedLengthOverruns`).

## Model

| member | source | states |
|---|---|---|
| `RateLimitTheorems.RefinesFullHistory` | common/rate-limit.go:87-189 | in every run of requests, reservations, completions and sweeps over any keys, with an ordered clock and windows of a key that never grow, every answer is that of the limiter that counts the full history |
| `RateLimitTheorems.WindowIsRecent` | common/rate-limit.go:32-42 | the queue, once trimmed with a window it was never cut short of, is exactly the part of the whole history inside that window |
| `RateLimitTheorems.RunWellFormed` | common/rate-limit.go:87-123 | in every run the LRU list holds each stored key once, never getting more recent from front to back, whatever the window lengths |
| `RateLimitTheorems.StampsAreLastUse` | common/rate-limit.go:111-123 | in every run the time and the window noted for a key are those of its last use, by the operations |
| `RateLimitTheorems.SweepExactly` | common/rate-limit.go:87-108 | by times and stamps: a sweep removes exactly the keys unused for the expiration time all of whose requests are a window old; what it leaves of the others; no reservation changes |
| `RateLimitTheorems.ShorterWindowForgets` | common/rate-limit.go:126-140 | for any two lengths of which the second is longer, and not empty, a run in which the limiter accepts what the full history refuses |
| `RateLimitTheorems.WindowLengthsExactly` | common/rate-limit.go:126-189 | going from one window length to another agrees with the full history in every run exactly when the second is not longer |
| `RateLimitTheorems.ReservationsNeverOverbook` | common/rate-limit.go:150-189 | for a key used through reservations only, recent successes and reservations in flight never exceed the limit together, and the counter is the number of handles not completed |
| `RateLimitTheorems.WithinLimitStep` | common/rate-limit.go:152-189 | each operation of the full-history limiter keeps recent successes and open handles of the key within its limit |
| `RateLimitSweep.SweepStops` | common/rate-limit.go:93-107 | stopping at the first key in use is sound: what was swept by then is the sweep of exactly the idle keys whose window is empty |
| `RateLimitSweep.SweepAdvances` | common/rate-limit.go:98-106 | one round of the sweep's loop moves the partial sweep by one position |
| `RateLimitSweep.WalkLeadsToSweep` | common/rate-limit.go:93-107 | the states the walk goes through: each idle key leads to the next, and where the walk stops the sweep is complete |
| `RateLimiter.RequestQueue.Append` | common/rate-limit.go:21-30 | on the linked nodes: the timestamps gain one at the end, and the links stay whole |
| `RateLimiter.RequestQueue.RemoveExpired` | common/rate-limit.go:32-42 | on the linked nodes: the expired head is unlinked, the rest keeps its nodes and order, head and tail stay right |
| `RateLimiter.InMemoryRateLimiter.TouchEntry` | common/rate-limit.go:111-123 | the entry is found or made, stamped and put in front; every other entry is as before |
| `RateLimiter.InMemoryRateLimiter.Request` | common/rate-limit.go:126-140 | takes the model's request step: same answer, same store, list and table |
| `RateLimiter.InMemoryRateLimiter.Reserve` | common/rate-limit.go:152-166 | takes the model's reservation step; a fresh handle is returned exactly when it is granted |
| `RateLimiter.InMemoryRateLimiter.DeleteExpiredEntries` | common/rate-limit.go:87-108 | removes precisely the idle keys whose window is empty, trims the other idle ones, and touches no reservation |
| `RateLimiter.RateLimitReservation.Complete` | common/rate-limit.go:170-189 | takes effect once, whatever the number of calls |
| `QueryCacheTheorems.InvAlways` | controller/performance_query_cache.go:78-152 | the invariant of cache, flights and callers holds in every reachable state of every interleaving |
| `QueryCacheTheorems.LimitsAlways` | controller/performance_query_cache.go:71-147 | in every reachable state map and list hold the same keys once each, bytes are the sum of the bodies, entries, bytes, loads and waiters are within their limits and counted exactly, and no key is both cached and in flight |
| `QueryCacheTheorems.SingleFlight` | controller/performance_query_cache.go:92-121 | never two loads of one key at a time |
| `QueryCacheTheorems.ValuesComeFromLoads` | controller/performance_query_cache.go:78-152 | every body or error returned was given by a load of the very key asked for |
| `QueryCacheTheorems.WaiterAgreesWithLeader` | controller/performance_query_cache.go:106-113 | a waiter woken by a flight has the key and the value of that flight's leader |
| `QueryCacheTheorems.ServedWhileFresh` | controller/performance_query_cache.go:83-91 | what the cache serves comes from a load of that key, within 30 seconds of it, or 2 for an error, and is never a cancellation |
| `QueryCacheTheorems.FlightsAreReleased` | controller/performance_query_cache.go:123-148 | every flight has a leader that is still loading, and every waiter can be woken or has such a leader |
| `QueryCacheTheorems.SettlingReleases` | controller/performance_query_cache.go:124-148 | returning or panicking, the leader's section ends its flight |
| `QueryCacheStore.MakeRoomKeepsLongestPrefix` | controller/performance_query_cache.go:138-140 | eviction keeps exactly the longest prefix of the list that leaves room |
| `QueryCacheStore.InsertKeepsLongestPrefix` | controller/performance_query_cache.go:138-143 | an insertion puts the entry in front of that prefix and stays within both bounds |
| `QueryCacheStore.AgreeMeans` | controller/performance_query_cache.go:71-76 | what agreement of map and list means: the same entries, once each, under their own keys |
| `QueryCacheRecency.ListIsByLastUse` | controller/performance_query_cache.go:83-143 | in every reachable state the list is the cached keys by their last use, by being stored or served, the most recent first |
| `QueryCacheRecency.StaysExactly` | controller/performance_query_cache.go:138-143 | a cached key outlives an insertion exactly when the entries used no less recently leave room in number and bytes |
| `QueryCacheRecency.EvictsLeastRecent` | controller/performance_query_cache.go:138-143 | no key that an insertion evicts was used after one that it keeps |
| `QueryCacheRecency.CachedExactly` | controller/performance_query_cache.go:83-143 | in every reachable state the cache holds exactly what was stored and not taken out since, with 30 seconds to live, or 2 for an error |
| `QueryCacheRecency.LeavesExactly` | controller/performance_query_cache.go:83-143 | a key is taken out exactly by a caller that finds it expired or by an insertion that needs its room |
| `QueryCacheRecency.AnswerExactly` | controller/performance_query_cache.go:79-121 | the answer on entering, by the history and the other callers alone: served exactly while fresh, else waiting for the caller that loads the key, loading, or refused, by the places taken |
| `QueryCacheRecency.WaiterLeaves` | controller/performance_query_cache.go:104-113 | a waiter leaves with what its flight gave, refused after its time, or with its context's error |
| `QueryCache.PerformanceQueryCache.EvictElement` | controller/performance_query_cache.go:71-76 | on the nodes: the entry leaves map, list and byte count |
| `QueryCache.PerformanceQueryCache.Enter` | controller/performance_query_cache.go:82-121 | on the nodes: the first section serves, refuses, joins or leads as the model does; a leader has a fresh flight |
| `QueryCache.PerformanceQueryCache.MakeRoomFor` | controller/performance_query_cache.go:138-140 | the eviction loop makes the model's room |
| `QueryCache.PerformanceQueryCache.Settle` | controller/performance_query_cache.go:124-148 | the deferred section stores what may be stored, releases the flight and publishes its result |
| `QueryCache.PerformanceQueryCache.LeaveWaiters` | controller/performance_query_cache.go:99-103 | a waiter, served or not, gives its place back, and nothing else changes |
| `QueryKey.CanonicalExactly` | controller/performance_query_cache.go:156-170 | two scopes share a key exactly when they ask the same of the same model and group pairs, however listed or repeated |
| `QueryKey.GroupsExact` | controller/performance_query_cache.go:164-168 | sorted and compacted lists are equal exactly when they have the same members |
| `QueryKey.ClampHours` | controller/performance_query_cache.go:157-162 | the hours asked for, between 1 and 720, and 24 by default |
| `WorkerPoolTheorems.NoSendOnClosedChannel` | controller/channel-test.go:1181-1231 | in every reachable state each channel has been closed at most once, the feeder about to send finds its channel open, a worker about to send finds its channel open and the collector there, and in a final state both are closed |
| `WorkerPoolTheorems.RunAtMostOnce` | controller/channel-test.go:1187-1203 | under every interleaving and wherever it is cancelled, a channel is run at most once, and only a runnable one |
| `WorkerPoolTheorems.UncancelledRunIsComplete` | controller/channel-test.go:1159-1247 | without cancellation each runnable channel is run exactly once, the summary is the sum over the channel list, and progress is reported from 0 to the total |
| `WorkerPoolTheorems.OrderDoesNotMatter` | controller/channel-test.go:1233-1245 | results that arrive once each add up to the same summary in whatever order |
| `WorkerPoolTheorems.PoolAlwaysEnds` | controller/channel-test.go:1159-1247 | the number of steps is bounded, and in every state short of the end some step other than a cancellation is possible |
| `WorkerPoolTheorems.NeverStuck` | controller/channel-test.go:1181-1246 | which step is possible, in every state that is not final |
| `WorkerPoolTheorems.StepsRunOut` | controller/channel-test.go:1181-1246 | every step makes the same measure smaller |
| `WorkerPoolTheorems.ConcurrencyIsBounded` | controller/channel-test.go:1177-1183 | there are as many workers as asked for, between 1 and 32, or as there are channels, and at no moment are more channels run |
| `WorkerPoolTheorems.RunInv` | controller/channel-test.go:1159-1247 | a job handed out is held by one worker or delivered, never both or twice, and lost only by cancellation, in every reachable state |
| `HealthCheck.TestChannel` | controller/channel-test.go:1024-1115 | one check's figures are consistent (tested = succeeded + failed, disabled at most failed, enabled at most succeeded), and which case gives which |
| `HealthCheck.TestSingle` | controller/channel-test.go:1051-1114 | the figures of a single probe by whether it is healthy, disables or recovers the channel |
| `HealthCheck.SingleExactly` | controller/channel-test.go:1051-1114 | by the inputs: when a probe succeeds and when the channel is counted as disabled or enabled |
| `HealthCheck.SkippedExactly` | controller/channel-test.go:1038-1050 | by the inputs: which channels are not probed, and which key by key |
| `HealthCheck.TestAutoDisabledKeys` | controller/channel-test.go:1119-1154 | the loop adds up the keys before the first one it stops at |
| `HealthCheck.KeyExactly` | controller/channel-test.go:1121-1152 | by the inputs: what one key adds, and where the loop breaks off |
| `HealthCheck.GivesUp` | controller/channel-test.go:1122-1137 | the breaks of the loop |
| `HealthCheck.KeysConsistent` | controller/channel-test.go:1119-1154 | that sum is consistent for all keys |
| `PoolFigures.PoolConsistent` | controller/channel-test.go:1233-1246 | the aggregate is consistent at every moment of every run |
| `DrainingTheorems.DoneMeansDrained` | shutdown.go:38-83 | in every run `done` is closed at most once, exactly when stopped with no active request, and then every admitted handler has returned |
| `DrainingTheorems.NoAdmissionAfterStop` | shutdown.go:38-49 | once stopped, nobody is admitted, whatever happens |
| `DrainingTheorems.FlushOnlyWhenDrained` | shutdown.go:135-178 | the final flush is reached only when every admitted handler has returned, and a shutdown without error has flushed and saved |
| `DrainingTheorems.CleanExactly` | shutdown.go:147-178 | a shutdown is reported clean exactly when no act of its run carried a failure, and the phases reported are exactly those that failed |
| `DrainingTheorems.FlushExactly` | shutdown.go:147-178 | the flush is due or done exactly in runs where server, handlers, tasks, refunds and batches were dealt with, each with success and in this order |
| `DrainingTheorems.HijackedClosedByExactlyOne` | shutdown.go:62-133 | a connection hijacked after the stop, or held by a request active at it, is closed by exactly one of the two sides, for every ordering; no other is closed |
| `DrainingTheorems.RunInv` | shutdown.go:38-178 | the invariant behind these holds along every run |
| `Draining.DrainingHandler.Admit` | shutdown.go:38-49 | admission on the object: refused exactly when stopped, else a fresh active request |
| `Draining.DrainingHandler.Leave` | shutdown.go:50-58 | the deferred section; it never closes `done` a second time |
| `Draining.DrainingHandler.BeginStop` | shutdown.go:62-78 | the first stop collects the requests with a connection, a later one nothing |
| `Draining.DrainingHandler.StopAll` | shutdown.go:62-83 | a stop that runs without other steps in between closes each connection held by an active request once, a later one none |
| `Draining.DrainingHandler.CloseHijacked` | shutdown.go:79-82 | one closing, at whatever time after the critical section: the model's step, and one close of the connection |
| `Draining.DrainingHandler.TakeOver` | shutdown.go:123-131 | a hijacked connection is recorded, and closed here exactly if the stop came first |
| `NameLists.NormalizeIsNormal` | controller/channel_upstream_update.go:100-105 | normalizing gives distinct trimmed names, exactly those of the input that are not blank |
| `NameLists.NormalizeByFirst` | controller/channel_upstream_update.go:100-105 | the names stand in the order in which they first appear |
| `Text.TrimIsMiddle` | controller/channel_upstream_update.go:101-104 | trimming leaves the part from the first to the last character that is not trimmed |
| `NameLists.MergeIsUnion` | controller/channel_upstream_update.go:107-121 | merging is the union, once each, with the base in front and in order |
| `NameLists.MergeModelNames` | controller/channel_upstream_update.go:107-121 | the loop with its set of seen names computes that merge |
| `NameLists.SubtractIsDifference` | controller/channel_upstream_update.go:123-132 | subtraction is the set difference, in the order of the base |
| `NameLists.IntersectIsIntersection` | controller/channel_upstream_update.go:134-143 | intersection is the set intersection, in the order of the base |
| `UpstreamTheorems.ModelsRoundTrip` | model/channel.go:329-334 | joining a normal list by commas and reading it back gives the list exactly when no name has a comma |
| `UpstreamTheorems.ApplySelectedExact` | controller/channel_upstream_update.go:145-150 | what is added is there, what is removed is not unless it is added, and the rest stays |
| `UpstreamTheorems.EffectiveExact` | controller/channel_upstream_update.go:960-966 | the selection that takes effect: what is asked for and pending, removals not also added |
| `UpstreamTheorems.PendingAddExact` | controller/channel_upstream_update.go:213-227 | x is pending exactly when it is an upstream name, not local, not a redirect target, not itself on the ignore list, and matched by no "regex:" rule on it |
| `UpstreamTheorems.IgnoresExactly` | controller/channel_upstream_update.go:217-225 | what ignores a name: the name itself, unless it is a rule, or a rule that matches it |
| `UpstreamTheorems.PendingRemoveExact` | controller/channel_upstream_update.go:228-236 | pending removals are exactly the local names gone upstream that are no redirect sources |
| `UpstreamTheorems.DetectionIsDisjoint` | controller/channel_upstream_update.go:179-238 | the pending lists that detection leaves are disjoint |
| `UpstreamTheorems.AutoSyncAddsPending` | controller/channel_upstream_update.go:526-538 | automatic sync counts the pending additions, and appends exactly them, in order, exactly when none has a comma |
| `UpstreamTheorems.PendingIsSplit` | controller/channel_upstream_update.go:960-982 | each pending addition ends up added, ignored or still pending, none is lost, and one chosen for both is not ignored |
| `UpstreamTheorems.DisjointStays` | controller/channel_upstream_update.go:960-982 | disjoint pending lists stay disjoint through every application |
| `UpstreamTheorems.ApplyTwice` | controller/channel_upstream_update.go:947-995 | applying a selection twice is applying it once exactly when no name is contested between addition and removal |
| `UpstreamTheorems.ApplyIsIdempotent` | controller/channel_upstream_update.go:947-995 | with disjoint pending lists applying is idempotent |
| `UpstreamTheorems.SyncConverges` | controller/channel_upstream_update.go:502-538 | after detecting and applying everything, detecting again finds nothing exactly when no pending name has a comma and none loses its rule |
| `UpstreamTheorems.PlainNamesConverge` | controller/channel_upstream_update.go:502-538 | so it does for names without commas when no upstream name looks like a rule |
| `UpstreamTheorems.CommaNeverSettles` | controller/channel_upstream_update.go:968-973 | a pending name with a comma is found missing again |
| `UpstreamTheorems.CommaExample` | controller/channel_upstream_update.go:968-973 | a channel for which that happens |
| `UpstreamTheorems.LostRuleExample` | controller/channel_upstream_update.go:975-978 | adding a model whose name is a rule takes the rule away, and a name it covered is found missing |
| `UpstreamTheorems.RedirectSourcesStay` | controller/channel_upstream_update.go:228-236 | redirect sources survive a sync, whatever else is in the list |
| `UpstreamSync.UpstreamChannel.Check` | controller/channel_upstream_update.go:502-545 | detection on the channel: when it is skipped, what a failed fetch leaves, the new lists and models, and the number added |
| `UpstreamSync.UpstreamChannel.Apply` | controller/channel_upstream_update.go:947-995 | application on the channel takes the model's step, whether or not it can be stored, and reports the selection, what remains and whether the models changed |
| `PricingTheorems.SurvivesExactly` | controller/ratio_sync.go:536-696 | for all data with distinct upstream names: an item survives exactly when some upstream differs there and either the difference can be shown or an upstream that differs elsewhere leaves its cell empty |
| `PricingTheorems.SurvivesWhenDifferent` | controller/ratio_sync.go:593-693 | without nulls and the text "same": exactly when some upstream reports a value beyond the tolerance from the local one |
| `PricingTheorems.ListsExactlyDiffering` | controller/ratio_sync.go:593-693 | a surviving item lists exactly the upstreams that differ somewhere, under both headings, each with its value, "same" or nothing, and whether its prices are real |
| `PricingTheorems.DiffersExactly` | controller/ratio_sync.go:48-132 | an upstream differs, by the data: another number by a billionth or more where both are numbers, otherwise another value |
| `PricingTheorems.FieldsExactly` | controller/ratio_sync.go:64-86 | the ten fields compared, and the eight compared as numbers |
| `PricingTheorems.PlaceholderExactly` | controller/ratio_sync.go:572-584 | placeholder prices: a model ratio of 37.5 and a completion ratio of 1, within a billionth |
| `PricingTheorems.PruningOnceIsEnough` | controller/ratio_sync.go:656-693 | pruning any table a second time changes nothing |
| `PricingTheorems.LiteralSameIsLost` | controller/ratio_sync.go:612-687 | where every upstream reports the text "same", all of them differ and the item is dropped |
| `PricingDiff.CollectModels` | controller/ratio_sync.go:542-556 | the loops collect the models of the local data and of all upstreams |
| `PricingDiff.JudgeUpstream` | controller/ratio_sync.go:561-591 | a model is untrusted exactly when both its ratios are the placeholder values |
| `PricingDiff.CompareItem` | controller/ratio_sync.go:595-641 | the inner loop gives every upstream's cell, and whether the item is shown |
| `PricingDiff.MarkAll` | controller/ratio_sync.go:656-665 | the loops collect the upstreams with a difference somewhere |
| `PricingDiff.Prune` | controller/ratio_sync.go:667-693 | the loops that delete while they walk prune the table as specified |
| `PricingDiff.Differences` | controller/ratio_sync.go:536-696 | the whole of it computes the comparison the theorems are about |
| `ModelsDev.ChosenIsBest` | controller/ratio_sync.go:845-944 | for any number of providers: something is chosen if anything is valid, it is free only if all are, it is below every non-zero cost plus the tolerance, and below every earlier provider's cost |
| `ModelsDev.BuildCandidate` | controller/ratio_sync.go:845-879 | exactly the costs that can be turned into ratios give a candidate, with the provider's own costs; a negative cache price is dropped |
| `ModelsDev.UnsortedDrifts` | controller/ratio_sync.go:881-895 | why the providers are sorted: in descending order of names, prices a step within the tolerance apart would drift to the dearest, for any number of them |
| `ModelsDev.Select` | controller/ratio_sync.go:915-947 | the loops select for every model the fold's choice, and fail exactly when no entry is valid |
| `MultiKeyTheorems.DeletionKeepsRecords` | controller/channel.go:1882-1948 | the other keys keep order, effective status and, if disabled, time and reason at their new positions, and all positions are below the new size |
| `MultiKeyTheorems.PurgeKeepsRecords` | controller/channel.go:1962-2015 | exactly the automatically disabled keys go, and the rest keep their records |
| `MultiKeyTheorems.ReadBackExactly` | model/channel.go:181-203 | keys joined by newlines are read back exactly when their text stands for them: as lines without newlines, the first and last not empty, or as the array of them |
| `MultiKeyTheorems.DeletionSticks` | controller/channel.go:1942-1949 | stored and read again, the records are the others' exactly when the joined text stands for the remaining keys |
| `MultiKeyTheorems.PurgeSticks` | controller/channel.go:2010-2017 | the same for the automatically disabled keys |
| `MultiKeyTheorems.BlankLineExample` | controller/channel.go:1942-1949 | deleting the first of the lines "a", "" and "b" leaves two keys and reads back one |
| `MultiKeyTheorems.AllDisabledComeBack` | model/channel.go:588-626 | when all keys are automatically disabled, deleting them leaves every key, enabled |
| `MultiKeyTheorems.StoreTrims` | model/channel.go:590-626 | what storing keeps: the text unless the new one is empty, the counted size, and exactly the statuses below it |
| `MultiKeyTheorems.AppendedExactly` | controller/channel.go:1113-1135 | the existing keys are a prefix, each new key is added once, trimmed, and none that is there already |
| `MultiKeyTheorems.AppendKeepsExistingExactly` | controller/channel.go:1070-1083 | appending starts from the keys in use exactly unless the text looks like an array and is not one |
| `MultiKeyTheorems.AppendReadsBack` | controller/channel.go:1062-1136 | appended to a text of lines with a visible character, everything is read back as written |
| `MultiKeyTheorems.AppendReadsBackExactly` | controller/channel.go:1062-1136 | whatever the text was, the appended keys are read back exactly when the new text stands for them, which asks of the existing keys only |
| `MultiKeyTheorems.LinesExtendable` | controller/channel.go:1062-1136 | and for a text of lines only that it has something beside newlines |
| `MultiKeyTheorems.AppendKeepsRecords` | model/channel.go:588-626 | after appending and storing, the records stay where they are and the new keys are enabled |
| `MultiKey.SkipKey` | controller/channel.go:1901-1933 | the loop rebuilds keys and tables without one position |
| `MultiKey.SkipDisabled` | controller/channel.go:1970-2001 | the loop rebuilds keys and tables without the automatically disabled ones |
| `MultiKey.Deduplicate` | controller/channel.go:1113-1132 | the loops with their set of seen keys give the new keys |
| `MultiKey.KeyedChannel.DeleteKey` | controller/channel.go:1882-1948 | refused for a position out of range and for the last key, else the new text and tables |
| `MultiKey.KeyedChannel.DeleteDisabledKeys` | controller/channel.go:1962-2015 | the number deleted, and the new text and tables, or nothing changed |
| `MultiKey.KeyedChannel.AppendKeys` | controller/channel.go:1062-1136 | the keys in use with the new ones behind them, or the text as given for a channel without keys |
| `MultiKey.KeyedChannel.Update` | model/channel.go:588-634 | what is stored, with the size counted anew and statuses beyond it dropped |
| `MultiKey.KeyedChannel.GetKeyStatus` | controller/channel.go:1602-1673 | every key's record, and the totals by status |
| `MultiKey.ListPage` | controller/channel.go:1676-1709 | one page of the records with the wanted status, with the total and the number of pages |
| `MultiKeyTheorems.MatchingExactly` | controller/channel.go:1676-1686 | the filter keeps exactly the positions with the wanted status, in order |
| `MultiKeyTheorems.PagesShowAll` | controller/channel.go:1688-1709 | turning all the pages shows the whole list, in order |
| `BodyTheorems.ObservationallyEqual` | common/body_storage.go:52-275 | the outcomes of a run on disk and in memory are equal exactly when every read asks for something or has something left, and no reader is read or closed after it was closed |
| `BodyTheorems.SameStep` | common/body_storage.go:62-275 | in storages at the same place an operation has the same outcome exactly when it is such, and then leaves them at the same place |
| `BodyTheorems.ClosedReaderTells` | common/body_storage.go:98-108 | closing a reader twice, or reading it after it was closed, succeeds in memory and fails on disk, for every body |
| `BodyTheorems.EmptyReadTells` | common/body_storage.go:196-203 | a read of no bytes at the end is the end of file in memory and not on disk |
| `BodyTheorems.BytesKeepsCursor` | common/body_storage.go:225-257 | the whole body is read through the one cursor, which ends where it was |
| `BodyTheorems.SeekThenRead` | common/body_storage.go:62-78 | where a seek leads, and that the next read gives the body from there on |
| `BodyTheorems.ReaderReplays` | common/body_storage.go:98-108 | whatever is done meanwhile, what a reader in memory has given is the body up to its cursor, and at its end the whole body |
| `BodyTheorems.DiskReaderReplays` | common/body_storage.go:259-275 | the same of a reader on disk, a descriptor that may be closed |
| `BodyTheorems.RefusedExactly` | common/body_storage.go:307-348 | a body is refused exactly when over the limit, and otherwise kept whole |
| `BodyTheorems.PlacedExactly` | common/body_storage.go:286-348 | where a body goes, by the settings, the counter and the lengths; when a failing disk is an error; which hit is counted |
| `BodyTheorems.StreamAlone` | common/body_storage.go:307-348 | the steps of a streamed creation with nothing in between come to the call as a whole |
| `BodyTheorems.CountersAlwaysBalance` | common/disk_cache_config.go:109-134 | under every interleaving of creations and closes the counters are the number and size of the storages not closed, each kind by itself |
| `BodyTheorems.BalancedStep` | common/disk_cache_config.go:109-134 | every step of a creation and every close keeps the balance, so the clamp at zero never acts |
| `BodyTheorems.DiskStaysWithinBudget` | common/disk_cache_config.go:170-177 | the budget is kept in every run whose decisions are made with nothing in flight and whose lengths are declared truthfully |
| `BodyTheorems.DiskUseIsBounded` | common/disk_cache_config.go:170-177 | under every interleaving what is counted and in flight is at most the budget and the greatest overrun of a decision: what was in flight unseen, and what a stream was longer than declared |
| `BodyTheorems.RaceIgnoresBudget` | common/body_storage.go:286-305 | two bodies that each fit, decided before either is counted, are both stored whether or not they fit together |
| `BodyTheorems.StreamOverrunsExactly` | common/body_storage.go:307-348 | one call alone leaves the counter over the budget exactly when it was, or when its declared length fits, its body does not and is within the limit |
| `BodyTheorems.UnderstatedLengthOverruns` | common/body_storage.go:311-325 | a stream of any declared length within the budget that is longer than the budget is stored |
| `BodyStorage.UsageCounters.DecrementDiskFiles` | common/disk_cache_config.go:115-122 | both disk counters go down and stop at zero |
| `BodyStorage.MemoryStorage.Read` | common/body_storage.go:62-69 | takes the memory storage's step |
| `BodyStorage.MemoryStorage.Close` | common/body_storage.go:80-87 | closes once, and counts once |
| `BodyStorage.DiskStorage.Seek` | common/body_storage.go:205-212 | takes the disk storage's step |
| `BodyStorage.DiskStorage.Bytes` | common/body_storage.go:225-257 | gives the whole file and leaves the cursor where it was |
| `BodyStorage.DiskStorage.Close` | common/body_storage.go:214-223 | closes once, and counts once |
| `BodyStorage.DiskStorage.NewReader` | common/body_storage.go:259-275 | a fresh descriptor at the start of the payload, or none once closed |
| `VerificationTheorems.SucceedsExactly` | common/verification.go:58-128 | in every run a verification succeeds exactly when the latest registration of its key and purpose has the same code, is less than its minutes old to the nanosecond, and is not used up |
| `VerificationTheorems.StoreFollowsEvents` | common/verification.go:58-128 | in every run the store lets a verification pass exactly when the events alone do |
| `VerificationTheorems.ExpiredExactly` | common/verification.go:109-109 | a code lives for its minutes, to the nanosecond |
| `VerificationTheorems.PurgeExactly` | common/verification.go:121-128 | cleaning up takes exactly the codes whose minutes are over |
| `VerificationTheorems.RegisterPurges` | common/verification.go:77-83 | a registration that makes the table larger than ten leaves exactly the codes still good |
| `VerificationTheorems.AcceptedOnce` | common/verification.go:88-118 | between two successes for one identity the code was registered again |
| `VerificationTheorems.IdentityIsInjective` | common/verification.go:44-47 | purpose and key can be read off the identity |
| `Decimals.DecimalReads` | common/verification.go:45-45 | a number written in decimal is digits and stands for itself |
| `VerificationTheorems.RunTracks` | common/verification.go:58-128 | what is stored is the standing registration, unless that has expired |
| `Verification.VerificationStore.RegisterCode` | common/verification.go:58-84 | takes the model's registration step, with the cleanup beyond ten entries |
| `Verification.VerificationStore.VerifyCode` | common/verification.go:88-118 | accepts exactly the stored code within its minutes, and removes what was used or is over |
| `Verification.VerificationStore.RemoveExpiredPairs` | common/verification.go:121-128 | the loop keeps exactly the codes within their minutes |
| `Paths.ParentRender` | common/system_memory_linux.go:126-126 | the parent of a clean path drops its last component |
| `Paths.CleanIsClean` | common/system_memory_linux.go:115-119 | cleaning gives a valid path with the same components |
| `Paths.ValidExactly` | common/system_memory_linux.go:115-119 | the valid paths are the rooted lists of components other than blanks, "." and ".." |
| `Paths.DownAndUp` | common/system_memory_linux.go:100-100 | going down to a component and up again leads back |
| `Paths.DotsAreDropped` | common/system_memory_linux.go:100-100 | a dot, or a second slash, changes nothing |
| `Cgroup.MountIsBelow` | common/system_memory_linux.go:93-101 | the leaf's components are the mountpoint's, then those of the process below the root |
| `Cgroup.ProcessMountsAreBelow` | common/system_memory_linux.go:44-104 | every mount returned has its leaf at or below its mountpoint |
| `Cgroup.LevelsAreTheWalk` | common/system_memory_linux.go:123-137 | going from parent to parent visits each level once and meets the mountpoint only at the end |
| `Cgroup.MemoryPressure` | common/system_memory_linux.go:123-137 | the walk terminates with the greatest of all levels' readings, within 0 and 100, or with none exactly when no level has one |
| `Cgroup.CgroupMemoryUsage` | common/system_memory_linux.go:26-40 | the greatest reading over all levels of all mounts, the host's figure exactly when there is none |
| `Cgroup.ProcessCgroupMounts` | common/system_memory_linux.go:44-104 | the loops parse both files line by line and find the process's path and the mounts that show it |
| `Cgroup.UnescapeReads` | common/system_memory_linux.go:74-93 | every path is read as the kernel wrote it, also one with backslashes that look like escapes |
| `Cgroup.AssignedControllerWins` | common/system_memory_linux.go:67-74 | an explicitly assigned controller decides the kind of every mount |
| `CgroupScan.MembershipReads` | common/system_memory_linux.go:55-66 | number, controllers and path of a line are told apart at the first two colons |
| `CgroupScan.MountLineReads` | common/system_memory_linux.go:77-93 | from a line as the kernel writes it: the root and the mountpoint unescaped, the kind and the options behind the separator |
| `CgroupScan.UnifiedMountFound` | common/system_memory_linux.go:44-104 | from the texts of both files: the mount of the unified hierarchy that shows the process is found |
| `CgroupScan.FirstKindMountFound` | common/system_memory_linux.go:44-104 | the same for the first kind of hierarchy, by the memory controller |
| `CgroupModel.Pressure` | common/system_memory_linux.go:139-190 | a level gives a reading exactly when it applies, has a finite limit and tells its usage; the reading is within 0 and 100 and full exactly when what is charged reaches the limit |
| `CgroupReadings.UnifiedReading` | common/system_memory_linux.go:139-190 | a level whose files hold the decimals of limit, usage and inactive cache reads the lesser of 100 and the share in use and not reclaimable |
| `CgroupReadings.FirstKindReading` | common/system_memory_linux.go:139-190 | the same with the file names of the first kind, above the process's own group where usage is hierarchical |
| `CgroupReadings.ZeroLimitIsFull` | common/system_memory_linux.go:174-176 | a limit of zero reads 100 |
| `CgroupReadings.NoReading` | common/system_memory_linux.go:143-165 | no reading without a limit, by the word or by the number for it, nor where usage is not hierarchical |
| `CgroupReadings.ParseUintExactly` | common/system_memory_linux.go:157-173 | exactly the strings of digits are numbers, up to the greatest of 64 bits |
| `CgroupReadings.FieldsJoin` | common/system_memory_linux.go:192-196 | words joined by blanks are told apart again |
| `CgroupReadings.TellsIsRead` | common/system_memory_linux.go:192-201 | the figure on the first line about a key is read |
| `CgroupModel.Share` | common/system_memory_linux.go:189-189 | the percentage is below 100 exactly when less than the limit is charged, and exact up to there |

## Left out

- Integer widths: int64 counters, byte totals and seek offsets are unbounded here.
- Time: the limiter's monotonic and wall clocks are one clock; timers and tickers are steps that may happen at any moment.
- Strings are sequences of characters; lengths and positions in bytes, and invalid UTF-8, are not modelled.
- Floating point: prices and percentages are reals.
- Redis: the verification codes and rate limits kept in Redis are not modelled.
- JSON, regular expressions, hashing and sorting are parameters with the property used of them (an array parser, a matcher, an injective hash, an ordered permutation).
- The LRU lists of Go's `container/list` are sequences of nodes or keys; a limiter entry is a record in the map whose queue is an object.
- QueryCacheRecency.ListIsByLastUse: needs a cache with room for at least one entry, like the other results about the cache.
- QueryCacheTheorems.InvAlways: needs a cache with room for at least one entry, as the program configures it.
- QueryCacheTheorems.ServedWhileFresh: the error a waiter gets from a panicking loader is modelled as a missing outcome, not as its text.
- WorkerPoolTheorems.PoolAlwaysEnds: the test of one channel is taken to end; how it probes the upstream is an input.
- Draining.DrainingHandler.StopAll: one stop in one go; `BeginStop` and `CloseHijacked` are its steps under interleaving.
- DrainingTheorems.HijackedClosedByExactlyOne: a request hijacks at most once; the server refuses a second hijack.
- UpstreamSync.UpstreamChannel.Check: the paged scan over all channels and its notification are not modelled; a failed update of the abilities counts as stored.
- PricingTheorems.SurvivesExactly: upstream names are distinct; requests that give two upstreams one name are covered by the loops and not by the theorems. Values that are JSON arrays or objects are not modelled.
- ModelsDev.Select: the conversion of the chosen costs to rounded ratios is not modelled.
- MultiKeyTheorems.DeletionSticks: writing a row leaves the stored key text when the new one is empty, as the comment in `Update` says.
- MultiKey.KeyedChannel.GetKeyStatus: key previews are not modelled; nor are enabling and disabling single keys.
- BodyTheorems.ObservationallyEqual: reads, seeks and opens of an open file succeed and read as much as is there; seeks to data or holes are not modelled; memory storages keep the caller's buffer, which is taken not to change.
- BodyTheorems.CountersAlwaysBalance: cleanup and resets of the cache directory from outside are excluded; the two counters of a kind go up and down in one step, and the settings are read at once.
- HTTP handlers, authorisation, audit logs, notifications, payment, SMTP and OAuth: plumbing around these cores.
- OpenRouter price conversion, audio parsing, constant tables and platform statistics: only easy members.
