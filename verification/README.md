# A verified model of a torrent streaming server

The server adds torrents on request and streams their files over HTTP: as byte ranges, or cut into
segments for HTTP Live Streaming. Between the torrent client and the response stand several stateful
components, each small and each with guarantees that are not obvious from its code. This project models
them in Dafny and proves those guarantees for every input, every run and every interleaving.

Components that the program changes in place are classes whose methods are proved against a specification
on values; theorems about whole runs are lemmas about that specification.

| component | specification and theorems | in place |
|---|---|---|
| sharded LRU torrent cache | `cache_spec.dfy`, `cache_runs.dfy`, `cache_history.dfy`, `cache_inclusion.dfy`, `cache_answers.dfy` | `torrent_cache.dfy` |
| cache of torrent descriptions, bounded by age and number | `info_cache.dfy` | `info_cache.dfy` |
| byte-budgeted file store | `file_store_spec.dfy`, `file_store_runs.dfy`, `file_readers.dfy` | `file_store.dfy` |
| torrent manager, concurrent | `manager.dfy`, `manager_proofs.dfy`, `manager_runs.dfy`, `manager_orphans.dfy`, `manager_stamps.dfy`, `manager_calls.dfy` | |
| HTTP Live Streaming | `text.dfy`, `playlist.dfy`, `segmenter.dfy` | `playlist.dfy`, `segmenter.dfy` |
| circular buffer | `ring.dfy` | `circular_buffer.dfy` |
| byte ranges | `text.dfy`, `ranges.dfy`, `range_reads.dfy` | `stream_range.dfy` |
| piece priorities | `pieces.dfy` | `pieces.dfy` |
| pruning of empty directories | `prune.dfy` | `prune.dfy` |
| bitrate adapter | `bitrate.dfy` | `bitrate.dfy` |

`dafny verify dfyconfig.toml` checks all of it. `arith.dfy`, `types.dfy` and `wrappers.dfy` hold what the
components share. Lemmas that Dafny would otherwise try by automatic induction turn it off: what is proved by
induction says so by calling itself.

## How to read the models

**Time** is an integer that callers pass in; it never goes back. The description cache also needs Sets at
distinct, non-zero times, because it takes the zero time for "no entry yet".

**What the program does not decide** is a parameter or an arbitrary choice: answers of the torrent client,
the order in which Go visits a map, failing file operations, short reads and writes, who runs next.

**Torrent cache.** An operation is one atomic step (a lookup reorders the list under a read lock only).
`Set` requires the key to be the torrent's own info hash, because eviction finds the key of an entry through
its torrent (`internal/torrent/cache.go:207`). The hash that selects a shard is any function of the key. gob and
zstd are two functions that may fail, on any inputs. Which keys are there follows from the operations alone
(`CacheHistory.HistoryDecides`, and without deletions and expiry `RecentlyUsedLaw`). What a failing codec does to
the answers is settled exactly, for any set of infos that callers Set: `AgreementLaw` says when every hit is the
latest value, `InclusionLaw` when a larger cache answers whatever a smaller one does.

**File store.** `filepath.Join` is any function from keys to paths, so two keys may name one file. An operation
is safe, the file system's behaviour included, when a Store that would be tried either copies no more than was
declared, or fails and leaves nothing behind; every other operation is. `BudgetLaw` says that these are exactly
the operations that keep the budget. What the operating system does is a parameter of each operation. What Get
hands out is an open file: `FileReaders` follows it through the operations that are made while it is open.

**Torrent manager.** `Advance` is the program of every thread, one access to shared state per step. The
unlocked read of the map inside `updateLastAccessed` is one step. Any number of callers, cleanup routines,
info managers and info waiters may start at any time; monitors start only by insertion. Waiting writers
hold back new readers, as in Go. The rate limiter and cancellation of the manager's context are not steps.

**HLS and ranges** are sequential: one reader of one segment, one request at a time. What the reader of a range
does is a script of attempts, each with the bytes it takes and its error; what the writer does is part of it.
A failed attempt that has taken bytes makes the next one deliver the wrong ones, and `RangeLaw` says exactly
which scripts spoil the response. The ranges served are those of which the session's buffer holds nothing, as
no code fills it for ranges; one read that it does hold is `ReadAt`.

**Circular buffer.** A state is the array with its two positions, and `Step` is what the code does to them, the
irregular write included. The laws relate it to two simpler things: all bytes that ever came in
(`ContentsAreLatest`, no condition) and a ring that remembers its contents only (`RunLaw`, exact condition).

**Arithmetic.** `float64` is `real`, so rounding is not modelled; truncation and Go's integer division are.

## What the code does that its comments and names do not say

- `currentSize` of the file store is not the size of the cached files: overwriting or closing a file never
  gives its bytes back, and files that the LRU list forgets by count stay on disk. `DriftLaw` is exact, and
  `LostSpaceNeverReturns` is its price.
- `cacheSize` of the file store bounds the number of files and, with the same value, their mebibytes.
- `MaxConcurrentTorrents` bounds the calls that are adding a torrent, not the torrents: with a limit of one,
  any set of torrents can be live (`AnyNumberOfTorrents`).
- `cleanupRoutine` removes access times with their torrents only. The fast path of `GetTorrent` can store one
  for a torrent that has just been removed, and then it stays (`FastPathLeavesOrphan`, `OrphansStay`).
- A file that Get has opened can change under its reader: a Store to the same path truncates it. Only a store
  with a single permit is safe from that (`ReaderLaw`).
- A failed copy into a cached file removes the file and keeps its key. When eviction reaches that key it
  fails, although newer files could go (`RefusedOnlyWhenFull`).
- The two parsers of the Range header disagree on a header without `bytes=` in which a range is written
  (`ParsersDisagree`); both refuse suffix ranges and ranges that end past the file, which section 14.1.2 of
  RFC 9110 allows.
- A read of a range that fails after taking bytes is tried again further on: the response then lacks those
  bytes and has the length of a complete one (`FailedReadShifts`, `RangeLaw`).
- A torrent cache whose encoder fails on a re-Set keeps the blob of the previous value and answers with it, and
  a larger cache does so where a smaller one has forgotten the blob (`FailingEncoderBreaksInclusion`).
- An empty write to an empty circular buffer makes its last `size - 1` bytes readable again, zeros that were never
  written included, so that it is not a queue even if nothing else overfills it (`WriteLaw`, `QueueLaw`); a ring
  of `size` places holds `size - 1` bytes at most, and a write that fills it exactly loses the oldest byte.
- A bitrate below 5 never rises: the added fifth is truncated away.

## Model

| member | source | states |
|---|---|---|
| `CacheSpec.Config.Home` | internal/torrent/cache.go:100-102 | every key has one shard, and it exists |
| `CacheSpec.HomeIsRemainder` | internal/torrent/cache.go:100-102 | the home of a key is what its hash leaves over when divided by the number of shards |
| `Arith.QuotientMonotone` | internal/torrent/cache.go:163 | under Go's truncating division a larger `maxSize` never gives a smaller shard, negative sizes included |
| `Arith.QuotientTruncates` | internal/torrent/cache.go:163 | the quotient is cut off toward zero, for either sign: its multiple of the divisor is next to the dividend on the side of zero |
| `CacheSpec.CleanupDropsExpiredSuffix` | internal/torrent/cache.go:247-264 | what a cleanup removes from a shard is exactly the expired suffix of its recency order |
| `CacheSpec.EvictionTakesLeastRecent` | internal/torrent/cache.go:162-165 | a new key evicts exactly the least recently touched entry, and only when the shard is full |
| `CacheSpec.EvictsWhenFull` | internal/torrent/cache.go:162-165 | without division: a new key pushes an entry out of a shard of n, n > 0, if and only if n + 1 entries in every shard would be more than `maxSize` |
| `CacheSpec.CapacityInPlainTerms` | internal/torrent/cache.go:163 | full shards make up `maxSize` but for a rest smaller than their number, one entry each in any case |
| `CacheSpec.ShardStepKeepsOrder` | internal/torrent/cache.go:104-264 | every operation keeps keys distinct and `LastAccessed` from rising from front to back |
| `CacheSpec.StepKeepsInv` | internal/torrent/cache.go:100-264 | every operation keeps each key in its hash shard, each shard within max(1, maxSize/shards) and in recency order |
| `TorrentCache.Shard.MoveToFront` | internal/torrent/cache.go:110 | moves one element of the list to the front and leaves the order of the others |
| `TorrentCache.Shard.Evict` | internal/torrent/cache.go:203-214 | removes the back of the list, finding the right map key through the torrent it holds |
| `TorrentCache.Shard.Get` | internal/torrent/cache.go:104-132 | map and list still agree; the answer is that of the recency sequence |
| `TorrentCache.Shard.Set` | internal/torrent/cache.go:141-186 | map and list still agree; the list is the specified sequence, whether the key was present or not |
| `TorrentCache.Shard.Cleanup` | internal/torrent/cache.go:250-262 | visiting the map in any order leaves exactly the unexpired entries, in order |
| `TorrentCache.Cache.constructor` | internal/torrent/cache.go:74-98 | a new cache has its shards, all empty, and zero counters |
| `TorrentCache.Cache.GetShard` | internal/torrent/cache.go:100-102 | selects the home shard of a key |
| `TorrentCache.Cache.Get` | internal/torrent/cache.go:104-139 | makes the specified step of shards and counters and gives the specified answer |
| `TorrentCache.Cache.Set` | internal/torrent/cache.go:141-186 | makes the specified step, a shard's invariant never disturbed by another shard |
| `TorrentCache.Cache.Delete` | internal/torrent/cache.go:188-201 | removes the key from its shard; `Size` falls exactly if it was there |
| `TorrentCache.Cache.ClearStats` | internal/torrent/cache.go:232-236 | zeroes the counters and nothing else |
| `TorrentCache.Cache.Cleanup` | internal/torrent/cache.go:247-264 | cleans every shard and counts each removal as an eviction |
| `CacheRuns.ShardsAreIndependent` | internal/torrent/cache.go:60-64 | a shard's run depends on no operation on a key of another |
| `CacheRuns.StepPresence` | internal/torrent/cache.go:104-264 | after one operation a key is there if and only if it was Set, or was there and the operation did not delete, expire or push it out |
| `CacheRuns.PresenceLaw` | internal/torrent/cache.go:104-264 | after every run a lookup finds a key if and only if it was Set and no later Delete, expiry or Set of an absent key into its full shard with it last has removed it |
| `CacheRuns.NeverTooLarge` | internal/torrent/cache.go:141-186 | after every run there are at most `maxSize` entries, or one for each shard if `maxSize` is smaller than that |
| `CacheHistory.HistoryDecides` | internal/torrent/cache.go:104-264 | after every run the history of operations alone decides whether a key is there, when it was last touched and which keys of its shard are before it |
| `CacheHistory.StepPlace` | internal/torrent/cache.go:104-264 | one operation on a shard moves a key as the history says: forward, behind one more key, or out when as many are before it as the shard holds |
| `CacheHistory.RecentlyUsedLaw` | internal/torrent/cache.go:104-186 | without deletions and expiry a key is there if and only if it has been touched and fewer distinct keys of its shard since than the shard holds |
| `CacheHistory.AnswersFollow` | internal/torrent/cache.go:104-201 | after every run, whatever the codec does, the answer to a lookup follows exactly from the operations: presence, last Set, and the last encoding that a Set left behind |
| `CacheInclusion.StepKeepsInclusion` | internal/torrent/cache.go:104-264 | one step, any encoder failing, keeps the smaller cache a subsequence of the larger, shard by shard, and the excess within the difference of capacities |
| `CacheInclusion.LargerCacheHitsMore` | internal/torrent/cache.go:104-264 | over every run of the same operations, what the smaller cache answers the larger answers with the same value, if no blob left behind answers for another info |
| `CacheInclusion.LargerCacheHitsMoreFromNew` | internal/torrent/cache.go:104-264 | the same from two new caches |
| `CacheInclusion.InclusionLaw` | internal/torrent/cache.go:152-160 | inclusion holds over all runs that Set only given infos if and only if the caches cannot come to differ (equal capacity, or no shard with more keys than the smaller holds) or every encoded info's blob decodes to each info that does not encode |
| `CacheInclusion.FailingEncoderBreaksInclusion` | internal/torrent/cache.go:152-160 | two caches and a run for which inclusion fails |
| `CacheAnswers.HitsAreLatest` | internal/torrent/cache.go:104-201 | over every run a hit answers with the last Set of its key that no Delete has followed, if the codec tells the truth about what is Set |
| `CacheAnswers.AgreementLaw` | internal/torrent/cache.go:104-201 | it does so over all runs that Set only given infos if and only if each blob decodes to its own info or not at all, and to nothing where some info does not encode |
| `CacheAnswers.SetThenGet` | internal/torrent/cache.go:118-131 | a value that was just set is answered if and only if the codec returns it, or the encoder failed with no conflicting blob left behind |
| `CacheRuns.CountersBalance` | internal/torrent/cache.go:114-261 | between resets insertions equal growth of `Size` plus evictions plus deletions, `Size` moves as the lists do, hits and misses add up to lookups |
| `CacheRuns.CountersCount` | internal/torrent/cache.go:114-180 | between resets hits grow by the lookups that come when their key is there, misses by the others, compressions by the Sets that are encoded |
| `CacheRuns.BalanceSinceReset` | internal/torrent/cache.go:232-236 | since the last `ClearStats` every counter counts what it is named for and insertions = Size + Evictions + deletions; without one Size is the number of entries |
| `InfoCache.BoundedIsUnique` | internal/api/handlers/torrent.go:57-81 | eviction has one outcome, whatever order the entries are visited in |
| `InfoCache.SinceIsLater` | internal/api/handlers/torrent.go:49-55 | a key has been Set since another exactly when its last Set is the later one |
| `InfoCache.SetKeepsInv` | internal/api/handlers/torrent.go:49-81 | a Set with its eviction keeps the relation between store and history |
| `InfoCache.SweepKeepsInv` | internal/api/handlers/torrent.go:83-97 | so does a tick of the background routine |
| `InfoCache.HistoryDecides` | internal/api/handlers/torrent.go:39-81 | after every run a lookup hits with v if and only if the last Set of its key stored v less than ttl ago and fewer than maxSize other keys have been Set since |
| `InfoCache.StoredLaw` | internal/api/handlers/torrent.go:49-97 | after every run exactly those keys are stored that have been Set, with fewer than maxSize others since and no sweep since that found them older than ttl |
| `InfoCache.AfterSweep` | internal/api/handlers/torrent.go:88-95 | right after a sweep what is stored is what is at most ttl old and fits |
| `InfoCache.OnTheBoundary` | internal/api/handlers/torrent.go:41-93 | at an age of exactly ttl an entry is no longer answered and not yet swept |
| `InfoCache.SweepsAreUnobservable` | internal/api/handlers/torrent.go:83-97 | runs that differ only in their background sweeps answer every lookup alike |
| `InfoCache.TorrentInfoCache.constructor` | internal/api/handlers/torrent.go:30-37 | starts empty with an empty history |
| `InfoCache.TorrentInfoCache.Get` | internal/api/handlers/torrent.go:39-47 | answers what the history of Sets and sweeps says |
| `InfoCache.TorrentInfoCache.Set` | internal/api/handlers/torrent.go:49-55 | extends the history by one Set, the store still being one that the history reaches |
| `InfoCache.TorrentInfoCache.EvictIfNeeded` | internal/api/handlers/torrent.go:57-81 | ends, with the newest entries, as many as fit |
| `InfoCache.TorrentInfoCache.Oldest` | internal/api/handlers/torrent.go:67-76 | finds an entry that none is older than, in any order of visits |
| `InfoCache.TorrentInfoCache.Cleanup` | internal/api/handlers/torrent.go:88-95 | extends the history by one sweep |
| `FileStoreSpec.EvictKeepsDrift` | internal/storage/file_store.go:149-174 | eviction takes bytes off `currentSize` exactly as off the disk, and on success leaves room |
| `FileStoreSpec.EvictionStopsInTime` | internal/storage/file_store.go:149-174 | it fails only with an empty list or a failed file operation, and never removes a file more than needed |
| `FileStoreSpec.RefusedOnlyWhenFull` | internal/storage/file_store.go:149-174 | in every state, without file errors, room is made if and only if the file fits beside lost bytes and what eviction cannot get at: forgotten files and files behind a missing one |
| `FileStoreSpec.DriftLaw` | internal/storage/file_store.go:73-233 | for every operation and file-system behaviour, `currentSize` minus disk bytes changes by what is overwritten or closed, less what a failed clean-up leaves |
| `FileStoreSpec.SweepLoses` | internal/storage/file_store.go:177-198 | closing the store deletes files without taking them off `currentSize` |
| `FileStoreSpec.SweepDeletes` | internal/storage/file_store.go:181-195 | closing the store leaves exactly the files that no key it visits names or whose removal fails; without a failure no visited key has a file |
| `FileStoreSpec.StepKeepsInv` | internal/storage/file_store.go:73-233 | disk bytes <= `currentSize` <= `maxSize` after every safe operation |
| `FileStoreSpec.BudgetLaw` | internal/storage/file_store.go:73-105 | the budget holds after all safe runs that end in an operation if and only if that operation is safe: not a Store that is tried and either copies more than declared or fails, has written bytes and cannot remove them |
| `FileStoreSpec.LeakBreaksBudget` | internal/storage/file_store.go:95-99 | one failed clean-up in a new store breaks it |
| `FileStoreSpec.DiskBudget` | internal/storage/file_store.go:73-233 | over every safe run disk bytes <= `currentSize` <= `maxSize`, the difference being all that was overwritten or closed |
| `FileStoreSpec.DiskBudgetFromNew` | internal/storage/file_store.go:45-61 | the same from a new store, with the difference exact |
| `FileStoreSpec.LostSpaceNeverReturns` | internal/storage/file_store.go:82-86 | once lost bytes leave no room for a file, no further safe operations ever make room |
| `FileStoreSpec.GetsDeliverLastStored` | internal/storage/file_store.go:116-146 | over every run a Get finds in its file what was last written there: the data of a Store, or the part that a failed copy left |
| `FileStoreRuns.PermitLaw` | internal/storage/file_store.go:73-246 | after every run from new the permits in use are the readers opened less those closed, and an operation is turned away if and only if all are in use |
| `FileStoreRuns.AllClosed` | internal/storage/file_store.go:242-246 | with a permit and every reader closed no operation is turned away |
| `FileStoreRuns.OldestIsLeastUsed` | internal/storage/file_store.go:101-174 | after every run the list is in order of last use by Store, Get and the lookups of closing, so eviction takes what has not been used for longest |
| `FileStoreRuns.StoreTracks` | internal/storage/file_store.go:101 | a Store puts its key in front and forgets only the last, when the list is full and the key is new |
| `FileStoreRuns.StoreThenGet` | internal/storage/file_store.go:73-146 | what a Store has stored the next Get delivers |
| `FileStoreRuns.FirstFits` | internal/storage/file_store.go:55-86 | a new store takes a file if and only if it is declared no larger than cacheSize times 1048576 bytes |
| `FileStoreRuns.CloseFileForgets` | internal/storage/file_store.go:208-233 | closing a file deletes it, forgets its key, and touches no other |
| `FileStoreRuns.RepliesSay` | internal/storage/file_store.go:116-233 | with a permit Get and CloseFile answer not found, failed, or success exactly by whether the key is tracked, the file there and the operating system willing |
| `FileStore.FileStore.constructor` | internal/storage/file_store.go:45-61 | a new store is empty |
| `FileStore.FileStore.Store` | internal/storage/file_store.go:73-105 | makes the specified step, on every path of success and failure |
| `FileStore.FileStore.Evict` | internal/storage/file_store.go:149-174 | the loop ends and does what the recursive specification does |
| `FileStore.FileStore.Get` | internal/storage/file_store.go:116-146 | opens the file, with the bytes it then has, and keeps a permit, or fails without one |
| `FileReaders.StepKeepsSight` | internal/storage/file_store.go:73-233 | whatever operation is made, an open file that has kept its name holds what is on disk under it |
| `FileReaders.ReadersSeeLatest` | internal/storage/file_store.go:73-233 | over every run an open file holds what was last written under its path, or has lost its name and never changes again |
| `FileReaders.OnlyStoresDisturb` | internal/storage/file_store.go:149-233 | no eviction, closing or Store to another path changes what a reader sees |
| `FileReaders.ReaderLaw` | internal/storage/file_store.go:116-146 | in all runs what Get hands out stays as it is while it is open if and only if the store has no second permit |
| `FileStore.FileStore.CloseReader` | internal/storage/file_store.go:242-246 | gives the permit back |
| `FileStore.FileStore.CloseFile` | internal/storage/file_store.go:208-233 | deletes and forgets one file and leaves `currentSize` as it was |
| `FileStore.FileStore.Close` | internal/storage/file_store.go:177-198 | in any order of visiting keys, exactly the files of the visited keys go, but for failing removals; if it reports no failure, no visited key has a file |
| `ManagerProofs.StepIsDisciplined` | internal/torrent/torrent_operations.go:15-233 | every step of every thread takes locks it does not hold, returns those it holds, and changes the map only under `m.mu` |
| `ManagerProofs.StepKeepsInv` | internal/torrent/torrent_operations.go:15-233 | every step keeps locks, references, life cycle, access times, infoReady and semaphore right |
| `ManagerProofs.CallKeepsInv` | internal/torrent/torrent_operations.go:15-60 | so does every new call |
| `ManagerProofs.Reachable` | internal/torrent/torrent_operations.go:15-233 | the invariant holds after every interleaving of calls, ticks and monitors |
| `ManagerProofs.LifeCycle` | internal/torrent/torrent_operations.go:29-59 | inserted = live + removed; nothing is dropped, closed or monitored twice; with `m.mu` free each wrapper has had its one monitor, is dropped if and only if it left the map, and every torrent has an access time |
| `ManagerProofs.InsertionNeverOverwrites` | internal/torrent/torrent_operations.go:36-54 | an insertion meets no torrent under its key although the map was first read before the lock |
| `ManagerProofs.DropIsTheFirst` | internal/torrent/torrent_operations.go:209-223 | who drops a wrapper, stale monitor or tick, finds it live and not yet dropped |
| `ManagerProofs.Exclusion` | internal/torrent/torrent_operations.go:29-37 | semaphore occupancy is the number of calls in the add section and within the limit; writers exclude everybody |
| `ManagerProofs.StepKeepsReady` | internal/torrent/torrent_operations.go:106-116 | infoReady is never closed twice, by two waiters or by waiter and manager |
| `ManagerProofs.TickJudgesEveryTorrent` | internal/torrent/routines.go:15-29 | a tick finds an access time for every torrent and removes it if and only if it lies over twice the timeout back |
| `ManagerProofs.TickLeavesNoIdleTorrent` | internal/torrent/routines.go:15-29 | when a tick ends every torrent left was examined and found fresh enough |
| `ManagerProofs.RunningCanMove` | internal/torrent/torrent_operations.go:15-233 | a thread that waits for no lock can go on |
| `ManagerProofs.NoDeadlock` | internal/torrent/torrent_operations.go:15-233 | in no reachable state is every unfinished thread blocked, writers held first |
| `ManagerProofs.SafeSteps` | internal/torrent/torrent_operations.go:36-54 | after every interleaving the next insertion overwrites nothing and the next drop is the first of its wrapper |
| `ManagerProofs.MutualExclusion` | internal/torrent/torrent_operations.go:29-37 | after every interleaving semaphore, `m.mu` and wrapper locks exclude as they should |
| `ManagerProofs.TicksAreThorough` | internal/torrent/routines.go:15-29 | after every interleaving a tick skips no live torrent and leaves none idle |
| `ManagerProofs.NeverDeadlocked` | internal/torrent/torrent_operations.go:15-233 | after every interleaving, if some thread is unfinished some thread can move |
| `ManagerRuns.AddsOne` | internal/torrent/torrent_operations.go:15-60 | with one slot, a call that finds the manager at rest has a run that adds its torrent and leaves it at rest |
| `ManagerRuns.AnyNumberOfTorrents` | internal/torrent/torrent_operations.go:29-34 | for every limit above zero and every set of keys some run makes exactly those torrents live: the limit is not one on torrents |
| `ManagerOrphans.FastPathLeavesOrphan` | internal/torrent/torrent_operations.go:20-27 | a run from the start, with one tick between lookup and stamp, ends with every lock free, no torrent, and an access time that no run removes unless the torrent is added again |
| `ManagerOrphans.OrphansStay` | internal/torrent/routines.go:14-29 | no call, monitor or tick, in any interleaving, removes an access time that has no torrent |
| `ManagerStamps.ReadsAreCurrent` | internal/torrent/torrent_operations.go:20-23 | after every interleaving what was read under `m.mu` or a wrapper's lock is still so when the lock is given back |
| `ManagerStamps.LookupsAreActedOn` | internal/torrent/torrent_operations.go:20-34 | a call or a monitor goes on as the map then says |
| `ManagerStamps.AccessStamps` | internal/torrent/torrent_operations.go:228-232 | overwriting a wrapper's access time leaves the time that the call took, and no other wrapper changes |
| `ManagerStamps.AccessCarriesTime` | internal/torrent/torrent_operations.go:225-233 | the time taken from the clock is the one stored and the one stamped, on the wrapper found in the map |
| `ManagerStamps.WrapperTimeIsLastStamp` | internal/torrent/torrent_operations.go:49-55 | after every interleaving a wrapper's access time is the last one stamped on it |
| `ManagerStamps.TimesAreLastStored` | internal/torrent/torrent_operations.go:225-227 | after every interleaving the access time of a torrent is the last one stored since it was last removed |
| `ManagerStamps.MonitorRemovesIdle` | internal/torrent/torrent_operations.go:174-182 | after every interleaving a monitor goes on to remove its torrent as idle if and only if it is complete and the time it read, then the last one stamped, lies over twice the timeout back |
| `ManagerStamps.OnlyStaleStampsLeaveOrphans` | internal/torrent/torrent_operations.go:20-27 | as long as no fast path stores a time for a torrent that has gone, torrents and access times have the same keys whenever `m.mu` is free |
| `ManagerStamps.RemovalIsThorough` | internal/torrent/torrent_operations.go:209-223 | removeTorrent never gives `m.mu` back with the torrent there, or with the access time of one it has removed |
| `ManagerStamps.RefusedExactlyWhenFull` | internal/torrent/torrent_operations.go:29-34 | after every interleaving a call is refused if and only if as many calls are adding as the limit says |
| `ManagerStamps.InfoIsAnnounced` | internal/torrent/torrent_operations.go:106-116 | who finds the info there leaves infoReady closed, and nothing opens it again |
| `ManagerStamps.EndsOfItself` | internal/torrent/torrent_operations.go:128-202 | a monitor ends of itself exactly when its torrent is dropped, a waiter when the info is there, and a waiter may give up |
| `ManagerCalls.FindingRefreshes` | internal/torrent/torrent_operations.go:20-27 | a call that finds its torrent can run to its end, with its time in both places and every lock free |
| `ManagerCalls.RecheckRefreshes` | internal/torrent/torrent_operations.go:36-42 | so can one that finds it only after waiting for `m.mu`, giving back its slot |
| `ManagerCalls.GivingUpRemoves` | internal/torrent/torrent_operations.go:119-223 | a download that takes too long, an idle torrent and a missing info each lead to the torrent and its access time being gone, with one drop |
| `ManagerCalls.InfoArrives` | internal/torrent/torrent_operations.go:106-146 | when the info arrives, infoReady gets closed by whoever learns of it |
| `ManagerCalls.TickLeadsToJudgement` | internal/torrent/torrent_operations.go:162-176 | at a tick a monitor gets to judge the access time of its wrapper, with every lock given back |
| `ManagerCalls.FreshMonitorUpdates` | internal/torrent/torrent_operations.go:184-188 | a monitor that finds its torrent fresh takes the wrapper's lock for the priorities and goes back to waiting |
| `Text.PrintThenParse` | internal/api/handlers/hls.go:74-79 | printing an integer in range and parsing it gives it back |
| `Text.ParseIntLaw` | internal/api/handlers/stream.go:249-263 | what parses is exactly digits after at most one sign whose number fits into 64 bits, and to that number |
| `Text.LeadingZero` | internal/api/handlers/stream.go:249-263 | leading zeros count for nothing |
| `Text.SplitThenJoin` | internal/api/handlers/stream.go:244-248 | the parts of a split are free of the separator and give back the text |
| `Playlist.LinesOfUnlines` | internal/streaming/hls/playlist.go:19-54 | lines that are written are the lines that are read |
| `Playlist.PlaylistGenerator.Generate` | internal/streaming/hls/playlist.go:19-54 | writes the whole playlist, or some first part of it when writing fails |
| `Playlist.HLSPlaylist` | internal/api/handlers/hls.go:47-57 | the handler's text is that of `Generate` with a duration of 10; when writes fail it has a first part of each line, in order |
| `Playlist.PlaylistNamesAllSegments` | internal/streaming/hls/playlist.go:40-49 | reading the text back gives the segments 0 to n-1, in order and no others |
| `Playlist.NoSegmentExceedsTarget` | internal/streaming/hls/playlist.go:30-43 | no announced duration exceeds the target duration, as section 4.3.3.1 of RFC 8216 demands |
| `Playlist.PlaylistOfOne` | internal/streaming/hls/playlist.go:19-54 | the playlist of one segment, line by line |
| `Segments.CountCovers` | internal/streaming/hls/segmenter.go:43 | the count is exactly that of the segments that begin inside the file |
| `Segments.SegmentsMakeTheFile` | internal/streaming/hls/segmenter.go:79-92 | the segments in order are the file, none of them empty or too long |
| `Segments.PlaylistDeliversTheFile` | internal/streaming/hls/segmenter.go:38-64 | fetching every segment that the playlist names, in order, is never refused and gives exactly the file |
| `Segments.Segmenter.constructor` | internal/streaming/hls/segmenter.go:38-52 | a size that is not positive means the default |
| `Segments.Segmenter.GetSegment` | internal/streaming/hls/segmenter.go:54-64 | accepts an id if and only if it is in range |
| `Segments.Segmenter.ReadSegment` | internal/streaming/hls/segmenter.go:79-92 | the place computed in the file is that of the segment |
| `Segments.Segmenter.CacheSegment` | internal/streaming/hls/segmenter.go:70-106 | brings the right bytes into the cache, or fails and changes nothing; other segments go only when old |
| `Segments.Segmenter.CleanupCache` | internal/streaming/hls/segmenter.go:108-125 | removes only old segments, only while there are over 100, and stops no earlier |
| `Segments.Segmenter.Close` | internal/streaming/hls/segmenter.go:171-179 | empties the cache |
| `Segments.SegmentReader.Read` | internal/streaming/hls/segmenter.go:127-144 | delivers the next bytes of its segment whatever the cache holds; fails if and only if it must read the file and cannot |
| `Segments.SegmentReader.Seek` | internal/streaming/hls/segmenter.go:146-169 | moves to the target, or stays and says why: negative, an unknown mode, or a panic when seeking from the end of a segment that is not cached |
| `Segments.SegmentReader.Drain` | internal/api/handlers/hls.go:107 | copying with buffers of any length, the cache cleaned or emptied in between, gives the rest of the segment |
| `Segments.Play` | internal/api/handlers/hls.go:97-107 | the same for every segment that a text names: exactly what fetching them means, or nothing where a segment is refused or reading fails |
| `Ring.WriteLaw` | internal/streaming/circular_buffer.go:27-44 | the new contents are the last L bytes of old contents and write, with L exact, if and only if the write is not an empty one to an empty ring; that one makes all of the buffer but its oldest byte readable |
| `Ring.WriteLength` | internal/streaming/circular_buffer.go:27-44 | how many bytes a write leaves, from the sizes alone |
| `Ring.NothingLostIffFits` | internal/streaming/circular_buffer.go:23-73 | an operation loses no byte and makes none appear if and only if it is a read, or a write that leaves one place free and is not an empty one to an empty ring |
| `Ring.OpMovesForward` | internal/streaming/circular_buffer.go:23-73 | in all that ever came in the reader never moves back, if and only if the write is not that one, and a read delivers exactly the bytes it passes |
| `Ring.ContentsAreLatest` | internal/streaming/circular_buffer.go:23-73 | over every run, irregular writes included, the ring holds the latest bytes, contiguous and in order, of the buffer's first bytes followed by all that was written, and the sizes of the operations say how many |
| `Ring.NewHoldsLatest` | internal/streaming/circular_buffer.go:16-73 | from new, that is the end of `size` zeros followed by all that was written |
| `Ring.RunLaw` | internal/streaming/circular_buffer.go:23-73 | at every step of a run the contents are those of a ring that remembers contents only, if and only if no empty write of the run comes when the ring is empty |
| `Ring.QueueLaw` | internal/streaming/circular_buffer.go:23-73 | all through a run what was read, then what is held, is what was held and then all that was written, if and only if every write fits when it comes |
| `CircularBuffers.CircularBuffer.constructor` | internal/streaming/circular_buffer.go:16-21 | a new ring is empty and all zeros |
| `CircularBuffers.CircularBuffer.Place` | internal/streaming/circular_buffer.go:33-39 | copies in two parts around the end |
| `CircularBuffers.CircularBuffer.Write` | internal/streaming/circular_buffer.go:23-47 | array and positions make the specified step; the contents obey the write law, and after an irregular write are all of the buffer but its oldest byte |
| `CircularBuffers.CircularBuffer.CopyOut` | internal/streaming/circular_buffer.go:62-68 | copies the first n bytes of the contents and no others |
| `CircularBuffers.CircularBuffer.Read` | internal/streaming/circular_buffer.go:49-73 | delivers and removes exactly a prefix; end of file if and only if empty |
| `CircularBuffers.CircularBuffer.Available` | internal/streaming/circular_buffer.go:75-80 | the number of bytes in the contents |
| `Ranges.ParsersAgree` | internal/api/handlers/stream.go:234-270 | both parsers serve the same range or both refuse, for every header with the prefix and every size |
| `Ranges.DecideServes` | internal/utils/range.go:14-46 | the second parser serves exactly the headers in which a range is written, with or without the prefix |
| `Ranges.WhenParsersDisagree` | internal/utils/range.go:14-46 | over all headers they agree if and only if the header is not empty and has the prefix or no range is written in it |
| `Ranges.ParsersDisagree` | internal/api/handlers/stream.go:239-242 | "0-0" is served by the one and refused by the other, for every file that is not empty |
| `Ranges.Grammar` | internal/api/handlers/stream.go:234-270 | a header is accepted if and only if it is one start, a minus and an end or nothing, inside the file |
| `Ranges.PrintedRangeParses` | internal/api/handlers/stream.go:244-268 | printing a range and parsing it gives it back; an open end is the last byte |
| `Ranges.RefusedRanges` | internal/api/handlers/stream.go:250-267 | suffix ranges and ranges that end past the file are refused |
| `Ranges.AnswersToParts` | internal/utils/range.go:19-46 | how both parsers answer a header with the prefix and two parts, with the kind of every refusal |
| `Ranges.OtherHeaders` | internal/api/handlers/stream.go:235-247 | an empty header means the whole file to one and no range to the other; any other header with the prefix is malformed to both |
| `Ranges.WithoutPrefix` | internal/api/handlers/stream.go:239-242 | without the prefix the first parser refuses and the second answers as if it were there |
| `StreamRange.Buffer.RetryRead` | internal/streaming/buffer.go:298-310 | delivers what its script of attempts makes of the file, in at most five attempts |
| `StreamRange.Buffer.ReadAt` | internal/streaming/buffer.go:313-349 | a hit copies what the buffer holds from there on, a miss delivers what seeking and the attempts make of the file, a closed buffer nothing; each is counted |
| `RangeReads.PlaceLaw` | internal/streaming/buffer.go:301-308 | bytes come from the place asked for if and only if no attempt that is tried again has taken bytes |
| `RangeReads.RetryLaw` | internal/streaming/buffer.go:298-310 | what is delivered is what was asked for, whatever the file holds, if and only if it is nothing or no failed attempt before the one that counts has taken bytes |
| `RangeReads.FailedReadShifts` | internal/streaming/buffer.go:301-308 | one byte and a failure, then one byte: the second byte of the file is delivered for the first |
| `RangeReads.LoopFits` | internal/api/handlers/stream.go:207-231 | what the loop writes lies inside the file and is no longer than the range, and as long if it completes |
| `RangeReads.UndisturbedIsInPlace` | internal/api/handlers/stream.go:207-231 | every written piece comes from its own place in the range if and only if the reads that were written were quiet |
| `RangeReads.RangeLaw` | internal/api/handlers/stream.go:201-232 | for every script the body is a first part of the range, whatever the file holds, if and only if the loop does not start or no read whose bytes were written had failed before with bytes taken; a loop that completes has written the declared length in any case |
| `RangeReads.RetryFails` | internal/streaming/buffer.go:298-310 | a read fails if and only if its first five attempts do |
| `RangeReads.LoopCompletes` | internal/api/handlers/stream.go:207-231 | the loop completes if and only if every turn's read brings bytes without failing, with the end of the file or not, and its write is taken; it starves if and only if the first turn that does not brings nothing without failing |
| `RangeReads.ServingCompletes` | internal/api/handlers/stream.go:201-232 | the whole response completes if and only if moreover the buffer is open and the probe reads without any error |
| `RangeReads.LastBytesComeWithEnd` | internal/api/handlers/stream.go:213-219 | two bytes that come together with the end of the file are both sent |
| `StreamRange.ServeChunk` | internal/api/handlers/stream.go:213-223 | one turn of the loop writes what was read, or the part that the writer takes |
| `StreamRange.ServeRange` | internal/api/handlers/stream.go:201-232 | the loop ends, and outcome and body are what the scripts make of them |
| `StreamRange.HandleStreamRange` | internal/api/handlers/stream.go:161-173 | a refused header writes nothing; otherwise range and length are declared as parsed, the body is a first part of the range unless disturbed, and of the declared length if complete |
| `Pieces.NearerIsNotLower` | internal/torrent/torrent_wrapper.go:50-60 | a nearer piece never wants a lower priority |
| `Pieces.WantedInPlaces` | internal/torrent/torrent_wrapper.go:50-60 | in whole numbers: Now within 50 pieces of the playback position, High within 100, Normal beyond and in a torrent without bytes |
| `Pieces.PassInPlaces` | internal/torrent/torrent_wrapper.go:42-69 | after a pass every incomplete piece has the priority of its window, a complete one the one it had |
| `Pieces.PassRanksByDistance` | internal/torrent/torrent_wrapper.go:42-69 | after a pass a nearer incomplete piece ranks no lower than a farther one |
| `Pieces.WindowSize` | internal/torrent/torrent_wrapper.go:50-56 | at most 2w pieces lie closer than w places |
| `Pieces.PassBoundsWindows` | internal/torrent/torrent_wrapper.go:40-60 | after a pass at most 100 incomplete pieces are Now and at most 200 Now or High |
| `Pieces.SecondPassIsSilent` | internal/torrent/torrent_wrapper.go:64-68 | a second pass with nothing changed makes no call |
| `Pieces.CallsMakeThePass` | internal/torrent/torrent_wrapper.go:42-69 | the calls of a pass turn the old priorities into the new ones |
| `Pieces.CallsAreChanges` | internal/torrent/torrent_wrapper.go:64-68 | the calls of a pass are about exactly the pieces whose priority it changes |
| `Pieces.InitialIsWindow` | internal/torrent/torrent_wrapper.go:19-24 | an initialisation gives High to the first pieces, as many as the window is wide, and Normal to the rest |
| `Pieces.InitialCallsMake` | internal/torrent/torrent_wrapper.go:18-26 | whatever the client had before, an initialisation tells it the initial priority of every piece |
| `Pieces.RecordsMirrorCalls` | internal/torrent/torrent_wrapper.go:11-71 | over every run of initialisations and passes the recorded priority is the last one issued, piece by piece |
| `Pieces.TorrentWrapper.InitializePiecePriorities` | internal/torrent/torrent_wrapper.go:11-27 | every piece gets a priority and one call, the first ones High; a torrent without pieces is left alone; record and calls agree |
| `Pieces.TorrentWrapper.UpdatePiecePriorities` | internal/torrent/torrent_wrapper.go:29-71 | makes exactly one pass and its calls, or nothing before initialisation; record and calls still agree |
| `Prune.PrunedIsTree` | internal/torrent/file_operations.go:118-151 | pruning keeps every file reachable and the tree a tree |
| `Prune.NoEmptyDirectoryIsLeft` | internal/torrent/file_operations.go:118-151 | corollary of `RemoveEmptyDirs`: when removals succeed a directory is left if and only if it is the root or has a file beneath it |
| `Prune.OnlyRefusingAreEmpty` | internal/torrent/file_operations.go:138-148 | whatever cannot be removed, an empty directory that is left is the root or one of those |
| `Prune.PruningTwiceIsOnce` | internal/torrent/file_operations.go:118-151 | corollary of `RemoveEmptyDirs`: pruning again removes nothing |
| `Prune.EmptyIffNotKept` | internal/torrent/file_operations.go:132-138 | after its subdirectories a directory is empty if and only if nothing beneath makes it stay |
| `Prune.FileSystem.RemoveEmptyDirs` | internal/torrent/file_operations.go:118-151 | the recursive walk ends and leaves exactly the pruned tree, in any order, through subdirectories that fail, refuse to go or cannot be read |
| `Bitrate.RangeIsKept` | internal/streaming/adaptive/bitrate.go:30-39 | the bitrate stays within its limits if and only if the upper one is not negative and the lower one at least -4 |
| `Bitrate.StaysInRange` | internal/streaming/adaptive/bitrate.go:30-39 | then it does so over every run |
| `Bitrate.Thresholds` | internal/streaming/adaptive/bitrate.go:32-34 | low is below half of the buffer and filled is above three quarters, without division |
| `Bitrate.StepInPlainTerms` | internal/streaming/adaptive/bitrate.go:30-39 | one step in whole numbers: 4/5 or 6/5 of the bitrate cut off, within the limits, or no change, with every threshold in plain terms |
| `Bitrate.LowFalls` | internal/streaming/adaptive/bitrate.go:32-33 | while the buffer is low the bitrate is at the bottom or has fallen by a fifth at each step |
| `Bitrate.LowReachesMin` | internal/streaming/adaptive/bitrate.go:32-33 | a low buffer reaches the minimum, with a geometric and a linear bound on the steps |
| `Bitrate.HighRises` | internal/streaming/adaptive/bitrate.go:34-36 | while the buffer is filled and the network fast the distance from 4 grows by a fifth at each step |
| `Bitrate.StuckBelowFive` | internal/streaming/adaptive/bitrate.go:34-36 | a bitrate below 5 never rises |
| `Bitrate.HighReachesMax` | internal/streaming/adaptive/bitrate.go:34-36 | the maximum is reached, with both bounds, if and only if the bitrate is at least 5 or already there |
| `Bitrate.BitrateAdapter.constructor` | internal/streaming/adaptive/bitrate.go:21-28 | starts at the minimum |
| `Bitrate.BitrateAdapter.AdaptBitrate` | internal/streaming/adaptive/bitrate.go:30-39 | makes the specified step and returns it |

## Left out

- InfoCache.TorrentInfoCache.Set: needs `maxSize >= 0` and Sets at distinct, non-zero times; with a negative bound eviction never ends.
- TorrentCache.Cache.Set: needs the key to be the torrent's own info hash, as its callers pass it; eviction finds keys by that hash.
- FileStore.FileStore.Get: answers with the bytes at the time of opening; what becomes of them under the open reader is `FileReaders`, over the specification and not over the class.
- FileStoreSpec.GetsDeliverLastStored: says what a file holds when it is opened; what a reader sees that stays open is `FileReaders.ReadersSeeLatest`.
- StreamRange.ServeRange: needs a range of which the buffer holds nothing; nothing here fills it.
- StreamRange.HandleStreamRange: the same.
- Prune.FileSystem.RemoveEmptyDirs: a directory that disappears by other hands during the walk, or that can be read only the first time, is not modelled.
- The 32-bit hash of a key is any function; only that it is one matters.
- gob, zstd, and the contents of the blobs.
- Concurrent use of the torrent cache, the file store, one segment reader or one session; the manager is the concurrent model.
- The rest of the manager: `Close`, pausing, file access, `deleteFiles`, retries and timeouts of adding a magnet, rate limiting.
- `Preload`, `PieceCache`, `GetFileInfo`, `ListFiles`: lookups that keep what the modelled operations keep.
- What `HandleRangeRequest` does after its decision: a seek and a copy by the library.
- `Buffer.Read`, `Buffer.Write` and the prefetcher: the indices of that buffer only grow, so it is no ring.
- Averaging of network speed and the bitrate derived from it.
- The sessions of the streaming handler, HTTP routing, rendering, configuration, logging and metrics.
- Floating-point rounding, and overflow of 64-bit counters and sizes.
