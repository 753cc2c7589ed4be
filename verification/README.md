# CacheLab in Dafny

CacheLab is a sharded in-process cache with pluggable eviction (LRU, LFU, FIFO), per-entry
lifetimes, single-flight loading and three write modes: cache only, write-through and
write-back. This project models its state machines and proves what they promise over every
run.

How the parts fit together:

- `Prelude`, `Runs`: keys, values, ordered sequences; runs of a step relation with their
  invariance and ranking principles.
- `Policies`, `PolicyClasses`, `PolicyHistory`, `EvictionOrder`: a policy as a value, the
  policy objects with their real data structures proved against it, both against the bare
  history of callbacks, and the order in which a policy gives up its keys.
- `Shards`, `CacheShards`, `Capacity`: every region that the cache runs under a shard lock, as
  a function on a shard value and as a method on the shard object, and what a put does to a
  full shard.
- `ShardRuns`, `TtlMap`, `ActiveExpiry`, `Sweeps`: request sequences on one shard, the lossy map with
  deadlines they refine, and the invisibility of active expiry. `Tallies`, `Callbacks`, `Faces`:
  what requests count, what they tell the policy, and from both everything a client can see of
  a shard, whatever the mode. `PlainVersions`: versions and metadata without write-back.
- `Cells`, `WriteBack`: the write-back protocol as an interleaved step system.
  `WriteBackInvariant`, `WriteBackSafety`, `WriteBackConvergence`, `WriteBackTheorems`: its
  invariant and the theorems about runs without self-evicting puts. `WriteLog`: what each step
  writes, and what of it reaches the source. `WriteBackAccounts`, `Homes`, `Retries`,
  `QueueOrder`, `Applications`, `WriteBackFaces`: what holds in every execution. `WriteBackLimits`, `SelfEviction`, `LfuDivergence`:
  where the theorems stop, exactly.
- `SingleFlight`, `WriteThrough`: two more step systems. `FlightOutcomes`, `WriteThroughRuns`: what
  their runs return, leave in the source and ask of the shards.
- `Shutdown`: the flush of `close(flush=True)` with its nested loops over shards, jobs and
  retries. `Closing`, `ClosingRetries`: close while workers run, as a step system. `WriteBackLedger`,
  `Durability`, `ForsakenDelete`: what a run that ends with either close has made durable.
- `Simulation`, `SimulationRuns`, `Workloads`: the workload runner, the LRU stack property, workload
  laws.
- `StateFile`, `StateRecords`, `ReloadOrder`: saving a cache to records and rebuilding it, what
  becomes of each record, and what that does to the eviction order.

Time is a `real`, the clock a parameter, and routing an arbitrary function from keys to
shards. An atomic step is exactly one lock region, one queue operation or one source call;
the gap between a worker's stale check and its source call is a gap in the model too.

## What the proofs found

- **When the source converges.** With one worker the source ends with the newest write of
  every key; with two, an older job that has passed its stale check can land after a newer one
  (`TwoWorkersDiverge`). The exact condition for every configuration, LFU included, is
  `ConvergesIff`: no worker at all, or one worker and no shard in which a put can evict its
  own key, that is LRU, FIFO, or no more keys routed to a shard than it holds.
- **Under LFU a write-back put can be lost, and worse.** `put` enforces capacity before it
  registers its flush. If LFU picks the key just inserted, its version mark is pruned. Then its
  job is stale from birth (`StillbornIffSelfEvicts` gives the condition a caller can check),
  and if nothing else happens to the key the write is lost although nothing failed
  (`SelfEvictedWriteIsLost`). But the next write of the key starts again at version 1: while
  the first job is outstanding two jobs carry one version and the stale check cannot tell them
  apart (`SelfEvictionRestartsVersions`). The older job may then land last, with one worker,
  under an entry that is clean and holds the newer value (`LfuDiverges`). So
  `VersionsNeverRestart`, `StalenessIsExact`, `OneWorkerConverges` and `CleanMeansPersisted`
  are about runs in which no put evicts its own key while no older flush of it is pending;
  every LRU and FIFO run is one (`SparingExecutionIsAHistory`). Pending counts, job accounting,
  draining and the bounds on the metadata hold in every run.
- **What active expiry shows.** In cache-only runs without evictions the replies of `get`,
  `contains`, `inspect` and `dump` and the hit and miss counts are the same with and without
  sweeps. The return value of `delete` and the number `size` returns can differ, exactly when
  a sweep came at or after the deadline of an entry that would still be held
  (`DeleteTellsIffSwept`, `SizeTellsIffSwept`). The other counters of `stats` are not compared.
- **A close with running workers can return normally and lose a delete.** Close gives a
  tombstone a second job. If both jobs give up, the second to go prunes the tombstone, the wait
  for the queue succeeds, and the closing flush finds nothing (`CloseCanForsakeADelete`). A
  put is lost in the same way only if its entry is no longer cached. Every other newest write
  is in the source when close returns normally after a run with one worker
  (`CloseJoined`, `ReachesIffNotForsaken`). If the workers were never started, close flushes
  all dirty entries and tombstones itself (`CloseUnstarted`).
- **Single-flight slots are removed by key, not by flight.** A delete or clear while a flight
  is up admits a second loader, and the publish of one flight then frees the slot of the other
  (`DeleteAdmitsASecondLoader`, `PublishAdmitsAnotherLoader`).
- **A reload resets recency and frequency.** Afterwards every policy evicts in backend order.
  Under FIFO that is what it did before. Under LRU and LFU the order is restored exactly when
  the backend order was already the eviction order (`EvictionOrderAfterReload`);
  `LruForgetsRecency` and `LfuForgetsFrequency` show caches where it was not.

## Model

The main results and the operations they are about come first. The rows from
`CacheShards.CacheShard` on are the objects, class by class: each method is proved against
the function on values that the results above are about.

| member | source | states |
|---|---|---|
| `WriteBackTheorems.OneWorkerConverges` | src/cachelab/core/cache.py:722-768 | one worker, any interleaving of clients, evictions, expiries, out-of-order enqueues and retries: a written key with no outstanding job, whose newest job was not given up, has exactly its newest put value in the source, or nothing after a delete |
| `WriteLog.NewestStepReachesSource` | src/cachelab/core/cache.py:257-376 | the same from the steps alone: the newest put, delete or clear that wrote a key decides what the source holds of it once the key is quiescent |
| `WriteLog.ClearedKeyLeavesSource` | src/cachelab/core/cache.py:352-377 | in particular a key held at a write-back `clear` and not written since is gone from the source |
| `WriteLog.StepLogs` | src/cachelab/core/cache.py:257-376 | every step extends the log by exactly its writes (the put's, the delete's, one delete for each key the cleared shard lists, nothing otherwise), each with one new job for that write with all its retries, and makes no other job |
| `WriteLog.LogIsAllWrites` | src/cachelab/core/cache.py:257-376 | so the log of every execution is the concatenation of the writes of its steps |
| `WriteLog.ClearWritesHeldKeys` | src/cachelab/core/cache.py:355-372 | in every reachable state these deletes of a clear are one for each key its shard holds, and no other |
| `WriteLog.ClearCells` | src/cachelab/core/cache.py:359-373 | a write-back clear leaves of each key it held a tombstone, the next version and one more pending flush, exactly as a delete does, and leaves every other key alone |
| `WriteBackFaces.FlushingIsInvisible` | src/cachelab/core/cache.py:722-768 | in every execution, whatever queue and workers do, each shard has the entries, order, policy and statistics of the shard that served the same requests alone, so every law of shard runs holds of it |
| `Applications.LastAppliedDecides` | src/cachelab/workers/write_back_worker.py:43-50 | any number of workers: the write of a key that was applied last decides what the source holds of it |
| `Applications.UnappliedKeyStays` | src/cachelab/workers/write_back_worker.py:43-50 | a key to which nothing was applied is as the source had it at first |
| `Retries.GivenUpAfterAllRetries` | src/cachelab/core/cache.py:733-761 | in every execution a job of any put, delete or clear that gives up has failed the configured number of retries before, so once more in all; one that is retried or dropped by a full queue has failed less often |
| `Retries.AttemptsAreFailures` | src/cachelab/core/cache.py:738-746 | the attempt a job carries is the number of its failed tries, and the retries it has left make up the rest |
| `QueueOrder.FirstInFirstOut` | src/cachelab/workers/queue.py:19-44 | the n-th job a worker takes is the n-th that entered the queue, retries included |
| `QueueOrder.QueueIsBounded` | src/cachelab/workers/queue.py:14-24 | a bounded queue never holds more jobs than its size |
| `WriteBackLimits.TwoWorkersDiverge` | src/cachelab/core/cache.py:724-761 | with two workers, every key and every two values: a run that ends quiescent with the older value in the source, in every configuration in which no put can evict its own key |
| `LfuDivergence.ConvergesIff` | src/cachelab/core/cache.py:722-768 | for every configuration: all executions converge if and only if there is no worker, or one worker and the policy is not LFU or no shard has more keys routed to it than it holds |
| `LfuDivergence.LfuDiverges` | src/cachelab/core/cache.py:287-297 | in every other LFU configuration one worker suffices for a run, with nothing rejected and nothing given up, that ends quiescent with the older of two values in the source under a clean entry with the newer |
| `LfuDivergence.SelfEvictingStateExists` | src/cachelab/policies/lfu.py:23-29 | each of these configurations reaches a state in which the next new key evicts itself |
| `LfuDivergence.NeverQuiescent` | src/cachelab/core/cache.py:724-729 | without a worker a written key never comes to rest |
| `SelfEviction.SelfEvictionRestartsVersions` | src/cachelab/concurrency/shards.py:34-37 | the next write of a key after a self-evicting put repeats its version: two outstanding jobs with one version, and if it is a put the stale check treats them alike |
| `WriteBackAccounts.PendingIsExact` | src/cachelab/core/cache.py:934-943 | in every execution, self-evicting puts included, `pending_flushes[k]` is the number of jobs of `k` that are created, queued or in a worker's hands |
| `WriteBackTheorems.StalenessIsExact` | src/cachelab/workers/write_back_worker.py:32-40 | an outstanding job is stale if and only if a later put, delete or clear has hit its key, as the log that `StepLogs` ties to the steps says |
| `WriteBackTheorems.VersionsNeverRestart` | src/cachelab/core/cache.py:950-960 | of two outstanding jobs of a key the later has the higher version, and the mark is at least that |
| `WriteBackTheorems.CleanMeansPersisted` | src/cachelab/core/cache.py:762-768 | any number of workers: a live entry holds the newest write of its key; if clean, that write was applied to the source, if dirty, its job is outstanding or was given up |
| `WriteBackTheorems.MetadataIsConsistent` | src/cachelab/core/cache.py:937-960 | entry versions and tombstones equal their marks and exclude each other; a key is marked if and only if it is live or pending; a tombstoned key is pending |
| `WriteBackAccounts.JobsAreConserved` | src/cachelab/core/cache.py:724-761 | jobs created = applied + stale-skipped + rejected + given up + outstanding, in every execution |
| `WriteBackAccounts.TheProtocolDrains` | src/cachelab/core/cache.py:724-761 | from every execution, once clients stop: takes are bounded by the tries left of the outstanding jobs and all queue and worker steps by a weight, whatever fails; with a worker no such step is possible exactly when no job is outstanding |
| `WriteBackAccounts.Drain` | src/cachelab/core/cache.py:722-768 | every execution with a worker can be extended until no job is outstanding, without one being rejected or given up |
| `WriteBackTheorems.SparingExecutionIsAHistory` | src/cachelab/core/cache.py:286-297 | under LRU and FIFO, and under LFU with no more keys routed to a shard than it holds, no put evicts its own key, so all version theorems hold of every execution |
| `SelfEviction.StillbornIffSelfEvicts` | src/cachelab/core/cache.py:287-297 | in every reachable state a put's job is stale at once if and only if the policy is LFU, the key is not held, the shard is full, every other key has frequency at least 2 and no flush of the key is pending |
| `SelfEviction.SelfEvictedWriteIsLost` | src/cachelab/core/cache.py:287-297 | from every reachable state, a self-evicting put can be followed by a drain after which no flush of the key is outstanding, none was given up and the source says of the key what it said before |
| `WriteBackSafety.StepInv` | src/cachelab/core/cache.py:257-298 | every step of clients, queue and workers keeps the protocol invariant |
| `WriteBackSafety.StaleIffLater` | src/cachelab/workers/write_back_worker.py:32-40 | the version and tombstone clauses of the stale check never contradict each other |
| `WriteBackConvergence.StepConverges` | src/cachelab/core/cache.py:722-768 | with one worker every step keeps that a key's newest write is in the source unless its job is outstanding or given up, and that only the newest job is past its check |
| `Homes.AlwaysHomed` | src/cachelab/core/cache.py:950-960 | in every execution, self-evictions included, shards stay within capacity, hold only keys routed to them, and their metadata stays tidy |
| `Homes.MetadataIsBounded` | src/cachelab/core/cache.py:950-960 | in every execution marks are live or pending keys, and tombstones are pending keys that are not live |
| `Homes.ReachableIsClosable` | src/cachelab/core/cache.py:201-219 | every reachable cache meets the assumptions of `Shutdown.Close` |
| `Cells.PutCells` | src/cachelab/core/cache.py:257-297 | what a put, self-evicting or not, does to the version, mark, tombstone and pending count of its key and of every other key |
| `Cells.DeleteCells` | src/cachelab/core/cache.py:313-333 | the same for a delete |
| `Cells.RemoveAllCells` | src/cachelab/core/cache.py:608-618 | expiry and eviction only drop entries, and prune metadata exactly when nothing is pending |
| `Durability.CloseJoined` | src/cachelab/core/cache.py:210-225 | `close` of a cache with running workers, once the wait for the queue has succeeded: it raises exactly when something is still unflushed and the source fails too often; otherwise, with at most one worker and no self-evicting put in the run, the newest write of every key is in the source unless it is forsaken (all its jobs, those close created included, were rejected or gave up, and no entry holds it), and then its key is left alone |
| `Durability.ReachesIffNotForsaken` | src/cachelab/core/cache.py:770-809 | any number of workers, once no job is left: the newest write of a key was applied, or is still there to be flushed, if and only if it is not forsaken |
| `Durability.JoinedCloseIsDurable` | src/cachelab/core/cache.py:811-870 | what the closing flush then makes durable, key by key |
| `Durability.TombstoneIsForsakenIff` | src/cachelab/core/cache.py:787-798 | a key that was tombstoned when close began is forsaken if and only if all its delete jobs were given up |
| `ForsakenDelete.CloseCanForsakeADelete` | src/cachelab/core/cache.py:757-768 | for every number of running workers and retries: a run in which both delete jobs of a tombstoned key give up, the tombstone is pruned, close finds nothing to flush and returns normally, and the key is still in the source |
| `Closing.ClosingKeepsInv` | src/cachelab/core/cache.py:770-809 | while close waits, the second jobs, the first ones, the workers and queued expiry keep pending counts exact, every job of a newest write fresh and, with one worker, an applied newest write in the source |
| `Closing.StaleIffNotNewest` | src/cachelab/workers/write_back_worker.py:32-40 | during a close the stale check passes exactly the jobs, first or second, of the newest write of their key |
| `ClosingRetries.GivenUpWhileClosing` | src/cachelab/core/cache.py:770-809 | a job that gives up while close waits, one of close's own included, has failed the configured number of retries before, counted over the run and the close together |
| `Durability.LostWriteIsFlushedIff` | src/cachelab/core/cache.py:243-247 | when the newest write of a key was lost and no flush of it is outstanding, close still flushes it if and only if it was a put whose entry is cached: a lost delete is never repaired |
| `Durability.CloseUnstarted` | src/cachelab/core/cache.py:201-225 | `close` of a cache whose workers were never started: it raises exactly when something is unflushed and the source fails too often, and otherwise, if no put of the run evicted its own key, the newest write of every dirty entry and of every tombstone is in the source |
| `Durability.FlushedIsNewest` | src/cachelab/core/cache.py:811-870 | any number of workers: what the closing flush writes for a dirty entry or a tombstone is the newest write of its key |
| `Shutdown.Close` | src/cachelab/core/cache.py:201-225 | while no worker runs: raises if and only if something is dirty or tombstoned and the source fails more often than one job retries; otherwise every such entry is clean with its value in the source and every tombstoned key is gone from it; no other source key changes |
| `Shutdown.FlushAll` | src/cachelab/core/cache.py:811-870 | the same for the synchronous flush over all shards |
| `Shutdown.FlushShard` | src/cachelab/core/cache.py:813-869 | the same for one shard, and keys with nothing to flush are left alone |
| `Shutdown.CoveredFlush` | src/cachelab/core/cache.py:836-869 | flushing one job for each dirty entry and tombstone, in any order, settles them all or fails |
| `Shutdown.FlushSettles` | src/cachelab/core/cache.py:836-869 | a list of ready jobs fails if and only if it is not empty and the source fails too often; else every job is settled |
| `Shutdown.CollectJobs` | src/cachelab/core/cache.py:814-835 | exactly one job for each dirty entry and for each tombstone, none of them stale |
| `Shutdown.FlushJobSync` | src/cachelab/core/cache.py:836-869 | the retry loop of one job, for every number of injected failures |
| `Shutdown.EnqueueDirty` | src/cachelab/core/cache.py:770-809 | only pending counts change: up by one for each accepted job, released again for each job the full queue refused |
| `Shutdown.EnqueueAll` | src/cachelab/core/cache.py:770-809 | the cache is still closable afterwards, with the same entries, marks and tombstones |
| `PolicyHistory.LfuCandidate` | src/cachelab/policies/lfu.py:42-48 | after any callbacks the LFU candidate has the fewest touches since insertion, ties going to the oldest last touch |
| `PolicyHistory.LruCandidate` | src/cachelab/policies/lru.py:26-27 | the LRU candidate is the present key touched longest ago |
| `PolicyHistory.FifoCandidate` | src/cachelab/policies/fifo.py:25-26 | the FIFO candidate is the present key inserted first |
| `PolicyHistory.TracksInserted` | src/cachelab/policies/lfu.py:19-53 | every policy tracks exactly the keys inserted and not removed since |
| `PolicyHistory.FrequencyIsTouchCount` | src/cachelab/policies/lfu.py:61-71 | the frequency LFU keeps is the number of touches since insertion |
| `PolicyHistory.OrderedByUse` | src/cachelab/policies/lru.py:15-21 | LRU and LFU order their keys by last touch |
| `PolicyHistory.OrderedByInsertion` | src/cachelab/policies/fifo.py:15-23 | FIFO orders its keys by insertion, whatever is read |
| `PolicyHistory.InsertionIsCurrent` | src/cachelab/policies/lfu.py:23-40 | every insertion but the current one was undone by a removal |
| `PolicyClasses.Bumped` | src/cachelab/policies/lfu.py:61-71 | these are the sound index of the touched policy, although the minimum is never searched |
| `PolicyClasses.LeastBucketHead` | src/cachelab/policies/lfu.py:42-48 | the head of the bucket of least frequency is the first least used key |
| `PolicyClasses.IndexedIffBucketsOf` | src/cachelab/policies/lfu.py:14-17 | partition, order and non-emptiness of the buckets determine the index completely |
| `PolicyClasses.Least` | src/cachelab/policies/lfu.py:40 | the least frequency with a bucket, 0 when there is none |
| `Capacity.PutEvictsCandidate` | src/cachelab/core/cache.py:620-625 | a put evicts the policy's candidate if and only if its key is new and the shard full, and nothing otherwise |
| `Capacity.SelfEvictionIff` | src/cachelab/policies/lfu.py:23-48 | a put evicts its own key if and only if the policy is LFU, the key is new, the shard full and every other key has frequency at least 2 |
| `Capacity.OrderedPoliciesKeepTheKey` | src/cachelab/core/cache.py:286-287 | under LRU and FIFO a put never evicts its own key |
| `Capacity.CapacitiesSplitTotal` | src/cachelab/concurrency/shards.py:15-18 | the shard capacities add up to the total and differ by at most one |
| `ShardRuns.AlwaysOk` | src/cachelab/core/cache.py:608-625 | after every request the backend and the policy hold the same keys, within capacity, and FIFO order is backend order |
| `Shards.ClearEmpties` | src/cachelab/core/cache.py:352-376 | in every mode `clear` leaves no entry, no backend order and an empty policy; what it leaves to be flushed is `WriteLog.ClearCells` |
| `TtlMap.HitsAreCurrent` | src/cachelab/core/cache.py:579-606 | over any run a hit returns the value of the latest put since the last delete, strictly before the deadline of the latest put with an explicit ttl or of a key that was not live |
| `TtlMap.RunsAreLossy` | src/cachelab/core/cache.py:257-284 | every run is a run of a lossy map defined without the shard: each step does what the request asks, drops exactly the entries past their deadline that it meets, and exactly one more when a new key meets a full map |
| `TtlMap.ServeRefines` | src/cachelab/core/cache.py:579-606 | every request is such a step, touching or not, and the map gives the whole reply of `get`, `contains`, `inspect`, `dump`, `delete` and `size`: value, age, last access, hit count, ttl and remaining time |
| `TtlMap.LossyDeadline` | src/cachelab/core/cache.py:627-647 | in every run of the lossy map a deadline is that of the latest explicit ttl or fresh insertion: updates without ttl never move it |
| `TtlMap.UpdateKeepsDeadline` | src/cachelab/core/cache.py:627-647 | an update without ttl of a visible key moves no deadline |
| `TtlMap.ReadsAreExactWithoutEviction` | src/cachelab/core/cache.py:579-606 | with a monotonic clock and no eviction a read finds exactly what the map of an unbounded cache holds, which is computed from the requests alone |
| `TtlMap.InspectIsExactWithoutEviction` | src/cachelab/core/cache.py:383-397 | and `inspect` shows the whole entry, hit count and times included, as that map has it |
| `Tallies.StatsAreTallies` | src/cachelab/core/cache.py:608-618 | hits, misses, puts, deletes, evictions and expirations are counts over the requests and the maps they meet |
| `Callbacks.PolicyIsReplay` | src/cachelab/core/cache.py:579-625 | the policy of a shard is the replay of callbacks read off the run: a `get` that hits, a carried out put, each removal, each clear; `contains`, `inspect`, `dump` and `size` give none but for expired keys |
| `Callbacks.EvictionFollowsUse` | src/cachelab/core/cache.py:620-625 | whenever a new key meets a full shard exactly one key leaves, and in the history of the requests it goes before every key that stays: inserted first (FIFO), used longest ago (LRU), used least since insertion with ties to the oldest use (LFU) |
| `Callbacks.PeeksChangeNothing` | src/cachelab/core/cache.py:341-409 | `contains`, `inspect`, `dump`, `size` and expiry leave every unexpired entry whole, hit count and access time included |
| `Faces.ServeFace` | src/cachelab/core/cache.py:257-409 | everything a client can tell of a shard (entries, backend order, policy, statistics) after a request is a function of what it could tell before, which knows neither mode nor versions, marks, tombstones or pending flushes |
| `Faces.ModesAreIndistinguishable` | src/cachelab/core/cache.py:257-409 | on the same requests a cache in any mode gives the same replies, statistics and evictions, but for the versions and dirty marks in snapshots |
| `Faces.BackendIsByInsertion` | src/cachelab/storage/memory.py:15-37 | the backend lists its keys by insertion, whatever the policy |
| `PlainVersions.AlwaysPlain` | src/cachelab/core/cache.py:950-960 | without write-back no run leaves a tombstone, a pending flush, a dirty entry or a mark without its entry, and entries stand at their marks |
| `PlainVersions.PutPlain` | src/cachelab/concurrency/shards.py:34-37 | and a put raises the version of a visible key by one and starts any other at one |
| `ActiveExpiry.ActiveExpiryIsInvisible` | src/cachelab/core/cache.py:649-657 | in cache-only runs without eviction, expiry sweeps anywhere change no reply of `get`, `contains`, `inspect` and `dump` and no hit or miss count |
| `Sweeps.DeleteTellsIffSwept` | src/cachelab/core/cache.py:313-339 | `delete` returns something else than without sweeps if and only if its key is held without them and a sweep at or after the deadline of that entry followed the put that stored it |
| `Sweeps.SizeTellsIffSwept` | src/cachelab/core/cache.py:379-381 | `size` differs if and only if that is so of some key |
| `Sweeps.DeleteAndSizeCanTell` | src/cachelab/core/cache.py:313-339 | a run in which both differ |
| `SingleFlight.PublishedOnceByItsLeader` | src/cachelab/core/cache.py:475-508 | a flight is published at most once, by its own leader, exactly when that leader has returned |
| `SingleFlight.NoOrphanedWaiter` | src/cachelab/core/cache.py:505-508 | whoever waits, waits on a published flight or on one whose leader is still at work |
| `SingleFlight.MembersAgree` | src/cachelab/core/cache.py:500-508 | all members of a flight get the same value or the same exception |
| `FlightOutcomes.OutcomeIsTheLeaders` | src/cachelab/core/cache.py:487-508 | over every execution a member of a flight returns a value if and only if the loader of the flight's leader returned it and the leader's put of it went through (or only its flush was refused), and raises an error if and only if that loader or that put raised it |
| `SingleFlight.AtMostOneLoader` | src/cachelab/core/cache.py:475-486 | a key not deleted or cleared under a flight has at most one active leader |
| `SingleFlight.DisturbedByForget` | src/cachelab/core/cache.py:336-376 | a key counts as disturbed only if a delete or clear hit it while a flight was up |
| `SingleFlight.DeleteAdmitsASecondLoader` | src/cachelab/core/cache.py:336 | from every reachable state with an active leader, a delete leads to two leaders of one key |
| `SingleFlight.PublishAdmitsAnotherLoader` | src/cachelab/core/cache.py:500-503 | with two leaders of a key, one publishing admits a third loader beside the other |
| `WriteThrough.CacheMatchesSource` | src/cachelab/core/cache.py:263-376 | in every reachable write-through state, after source failures in put, delete or midway through clear, each cached value is the source's value |
| `WriteThroughRuns.NewestWriteDecides` | src/cachelab/core/cache.py:263-376 | over every run the newest step that reached the source for a key decides what it holds: the value of a put, nothing after a delete or after a wipe that got past the key |
| `WriteThroughRuns.UnreachedKeyStays` | src/cachelab/core/cache.py:263-376 | a key that no step reached is as the source had it at first |
| `WriteThroughRuns.ShardsServeTheirRequests` | src/cachelab/core/cache.py:263-376 | whatever the source does, each shard is the one that served the requests put to it, where a failed put has only looked for an expired entry, a failed delete has done nothing and a failed clear has deleted the keys it got through |
| `Simulation.RunSimulation` | src/cachelab/workloads/runner.py:22-31 | the request loop, reads and writes, computes the run function on the trace and counts the writes |
| `SimulationRuns.SimulationServesRequests` | src/cachelab/workloads/runner.py:24-31 | the simulated shard has served a `get` for each read, a put of the key's value after each miss and a put for each write, so every law of shard runs holds of it |
| `SimulationRuns.HeldValueIsNewest` | src/cachelab/workloads/runner.py:24-31 | a held key has the value of its newest write or missed read |
| `Simulation.LruHoldsTheNewest` | src/cachelab/policies/lru.py:15-27 | after any trace of reads and writes an LRU cache of capacity c holds exactly the c most recently requested distinct keys, in that order |
| `Simulation.SmallerIsSubset` | src/cachelab/workloads/runner.py:24-31 | on one trace a smaller LRU cache's contents are a subset of a larger one's |
| `Simulation.HitsGrowWithCapacity` | src/cachelab/workloads/runner.py:24-31 | LRU hits never fall as capacity grows, and hits and misses add up to the requests that are not writes |
| `Simulation.RequestMiss` | src/cachelab/workloads/runner.py:30-31 | a miss inserts the key and evicts one candidate exactly when the shard is full |
| `Workloads.KeyStream` | src/cachelab/workloads/patterns.py:26-37 | the key of every request of the two deterministic patterns |
| `Workloads.KeyNameInjective` | src/cachelab/workloads/patterns.py:26-29 | a key name is `k` and a numeral that reads back as the index, so different indices have different names |
| `Workloads.DecimalReads` | src/cachelab/workloads/patterns.py:26-29 | a decimal numeral reads back as its number |
| `Workloads.WorkingSet` | src/cachelab/workloads/patterns.py:34 | the loop stays a fifth of the capacity, rounded down, inside it, and one key inside it below capacity 5 |
| `Workloads.SequentialDefeatsEveryPolicy` | src/cachelab/workloads/patterns.py:26-29 | no hits, and max(0, requests - capacity) evictions, for every policy, capacity and request count |
| `Workloads.LoopingFitsEveryPolicy` | src/cachelab/workloads/patterns.py:30-37 | min(requests, working set) misses and no evictions, for every policy, capacity and request count |
| `StateFile.StateRoundTrip` | src/cachelab/cli/commands/basic.py:187-194 | saved and reloaded under the same capacities, policy and shard count, every shard gets back exactly its unexpired keys in backend order, with value, hit count and remaining lifetime, and nothing is evicted |
| `StateFile.SavingAgainChangesNothing` | src/cachelab/cli/commands/basic.py:260-282 | saving the reloaded cache at once writes the same records again |
| `ReloadOrder.EvictionOrderAfterReload` | src/cachelab/cli/commands/basic.py:187-194 | the sequence of candidates after a reload is the backend order of the kept keys, for every policy; the sequence before is restored if and only if no kept key stands before one the policy would evict sooner, always under FIFO, and under LRU exactly if the recency order was the backend order |
| `ReloadOrder.LruForgetsRecency` | src/cachelab/cli/commands/basic.py:187-194 | put a, put b, get a under LRU: the reload turns the eviction order round |
| `ReloadOrder.LfuForgetsFrequency` | src/cachelab/cli/commands/basic.py:187-194 | put a, get a, put b under LFU: the reload turns the eviction order round |
| `EvictionOrder.EvictionsIffInOrder` | src/cachelab/policies/lfu.py:42-48 | a listing of the keys is the order of successive candidates if and only if it is sorted by frequency and then by last touch (LFU) or by the kept order (LRU, FIFO) |
| `StateFile.SaveCache` | src/cachelab/cli/commands/basic.py:260-270 | the records of all shards in order; expired entries are removed on the way |
| `StateFile.LoadCache` | src/cachelab/cli/commands/basic.py:187-194 | the reload loop computes the load function on fresh shards |
| `StateFile.LoadItem` | src/cachelab/cli/commands/basic.py:188-194 | one record: skipped, or put with its ttl and its hit count restored |
| `StateFile.DumpShard` | src/cachelab/core/cache.py:402-409 | the snapshots of the unexpired entries in backend order; the expired ones are removed |
| `StateRecords.WallTimeCounts` | src/cachelab/cli/commands/basic.py:241-257 | a record whose only lifetime is a wall time, loaded into a shard with room, is skipped if and only if that time has come, and otherwise expires as long after the reload as that time lies ahead |
| `StateRecords.RemainingTimeCounts` | src/cachelab/cli/commands/basic.py:230-240 | a remaining time takes precedence over a wall time: the record is skipped if and only if it is not positive, and otherwise expires that long after the reload |
| `StateRecords.UnreadableIsSkipped` | src/cachelab/cli/commands/basic.py:234-253 | a record whose deciding field is no number is skipped |
| `StateRecords.EverlastingStays` | src/cachelab/cli/commands/basic.py:231-257 | a record with a null or without a lifetime never expires, whatever the default ttl |
| `StateRecords.SkippedIff` | src/cachelab/cli/commands/basic.py:187-194 | a record is skipped if and only if its lifetime is over or unreadable; every other one is added with its value and hit count |
| `StateFile.LifetimeOf` | src/cachelab/cli/commands/basic.py:230-240 | the record of a live entry is never skipped, and its new deadline leaves it the time it had left |
| `Shards.ExpiredKeys` | src/cachelab/workers/expiration_worker.py:13-19 | exactly the backend keys whose entry has expired |
| `CacheShards.CacheShard.constructor` | src/cachelab/concurrency/shards.py:21-32 | an empty shard |
| `CacheShards.CacheShard.NextVersion` | src/cachelab/concurrency/shards.py:34-37 | the next version of the key becomes its mark |
| `CacheShards.CacheShard.Put` | src/cachelab/core/cache.py:257-297 | the locked region of `put` is the function the theorems are about, and the job carries the stored version |
| `CacheShards.CacheShard.StoreEntry` | src/cachelab/core/cache.py:270-286 | the same for storing the entry |
| `CacheShards.CacheShard.Delete` | src/cachelab/core/cache.py:313-336 | the same for `delete`, which returns whether there was an entry |
| `CacheShards.CacheShard.NoteDelete` | src/cachelab/core/cache.py:318-329 | the same for tombstone, version and pending count of a delete |
| `CacheShards.CacheShard.Clear` | src/cachelab/core/cache.py:352-376 | the same for `clear` on one shard: the function of `ClearEmpties`, `ClearCells` and `ServeFace` |
| `CacheShards.CacheShard.ReadValue` | src/cachelab/core/cache.py:579-606 | the same for a read, with the value found |
| `CacheShards.CacheShard.RemoveEntry` | src/cachelab/core/cache.py:608-618 | the same for eviction, expiry and removal |
| `CacheShards.CacheShard.EnforceCapacity` | src/cachelab/core/cache.py:620-625 | the eviction loop computes the enforcing function |
| `CacheShards.CacheShard.ExpireShard` | src/cachelab/core/cache.py:649-657 | the expiry loop removes exactly the expired keys and counts them |
| `CacheShards.CacheShard.RegisterPending` | src/cachelab/core/cache.py:934-935 | one more pending flush |
| `CacheShards.CacheShard.ResolvePending` | src/cachelab/core/cache.py:937-943 | one less, never below none, and pruning at none |
| `CacheShards.CacheShard.ClearPendingFlushes` | src/cachelab/core/cache.py:945-948 | none left, and pruning |
| `CacheShards.CacheShard.MaybePruneMarks` | src/cachelab/core/cache.py:950-960 | mark and tombstone go exactly when the key is neither pending nor live |
| `CacheShards.CacheShard.MarkClean` | src/cachelab/core/cache.py:762-768 | the entry is clean if it is still this version |
| `CacheShards.CacheShard.RestoreHits` | src/cachelab/core/cache.py:922-929 | the hit count of a present key |
| `PolicyClasses.LfuPolicy.constructor` | src/cachelab/policies/lfu.py:14-17 | an empty, sound index |
| `PolicyClasses.LfuPolicy.OnGet` | src/cachelab/policies/lfu.py:19-21 | keeps the index sound (buckets partition the keys by frequency in touch order, none empty, cached minimum true) and refines the policy value |
| `PolicyClasses.LfuPolicy.OnPut` | src/cachelab/policies/lfu.py:23-29 | the same for insertion and update |
| `PolicyClasses.LfuPolicy.OnDelete` | src/cachelab/policies/lfu.py:31-40 | the same for removal, including the search for a new minimum |
| `PolicyClasses.LfuPolicy.EvictCandidate` | src/cachelab/policies/lfu.py:42-48 | the head of the least bucket is the candidate of the policy value, and there is none exactly when the policy is empty |
| `PolicyClasses.LfuPolicy.Clear` | src/cachelab/policies/lfu.py:50-53 | a fresh policy |
| `PolicyClasses.LfuPolicy.Bump` | src/cachelab/policies/lfu.py:61-71 | the buckets, frequencies and minimum after moving a key up one bucket |
| `PolicyClasses.LruPolicy.constructor` | src/cachelab/policies/lru.py:12-13 | an empty order |
| `PolicyClasses.LruPolicy.OnGet` | src/cachelab/policies/lru.py:15-17 | refines the policy value: a known key moves to the end |
| `PolicyClasses.LruPolicy.OnPut` | src/cachelab/policies/lru.py:19-21 | refines the policy value: the key is at the end |
| `PolicyClasses.LruPolicy.OnDelete` | src/cachelab/policies/lru.py:23-24 | refines the policy value: the key is gone, the rest keeps its order |
| `PolicyClasses.LruPolicy.EvictCandidate` | src/cachelab/policies/lru.py:26-27 | the oldest key, if any |
| `PolicyClasses.LruPolicy.Clear` | src/cachelab/policies/lru.py:29-30 | a fresh policy |
| `PolicyClasses.FifoPolicy.constructor` | src/cachelab/policies/fifo.py:12-13 | an empty order |
| `PolicyClasses.FifoPolicy.OnGet` | src/cachelab/policies/fifo.py:15-16 | nothing changes |
| `PolicyClasses.FifoPolicy.OnPut` | src/cachelab/policies/fifo.py:18-20 | a new key goes to the end, a known one stays in place |
| `PolicyClasses.FifoPolicy.OnDelete` | src/cachelab/policies/fifo.py:22-23 | the key is gone, the rest keeps its order |
| `PolicyClasses.FifoPolicy.EvictCandidate` | src/cachelab/policies/fifo.py:25-26 | the oldest key, if any |
| `PolicyClasses.FifoPolicy.Clear` | src/cachelab/policies/fifo.py:28-29 | a fresh policy |
| `Shutdown.SlowDictBackend.constructor` | src/cachelab/storage/slow_dict.py:20-25 | an empty source with no injected failure |
| `Shutdown.SlowDictBackend.FailNext` | src/cachelab/storage/slow_dict.py:27-29 | failures add up |
| `Shutdown.SlowDictBackend.Apply` | src/cachelab/storage/slow_dict.py:31-39 | the operation takes effect if and only if no failure is left, else one failure is used up |

## Left out

- Real threads, lock contention, sleeps and timeouts: interleaving at lock boundaries stands for them. A bounded queue may reject at any moment, and clock readings of the write-back protocol are arbitrary, which only adds runs.
- A partly rejected `clear` batch is a sequence of rejections of single jobs, in any order.
- `CacheJobQueue` and `WorkerPool` as objects: the queue is a bounded sequence inside the step system, an unfinished job is one that is queued or held; drop counters and stop sentinels would only add easy members.
- Shutdown.Close: only the close while no worker runs; the one with running workers is `Durability.CloseJoined`, which starts where the wait for the queue has succeeded.
- Durability.CloseJoined: a wait for the queue that times out is not followed, because close then raises whatever the flush does; nor are the jobs that stopping the pool discards afterwards, since none are left when the wait succeeded. Which of several unflushed keys a failing flush has written when close raises is not stated.
- `dump(limit)`: only the whole listing.
- `PreloadKey`, `SnapshotStats` and the scheduler thread: `ExpireShard` is the only job kind besides flushes.
- The hash that routes keys and its canonical numbers: routing is an arbitrary function.
- The shard object holds its policy as a value; dispatch to a policy object is not modelled, but each policy object refines that value, callback by callback.
- Single-flight runs its leader's `put` as one step and does not carry the cache contents along.
- Infinite and not-a-number lifetimes, and float rounding: time is real arithmetic.
- Random workload patterns, hit ratios, benchmark timing, command-line parsing, JSON, files and file locks, configuration checks beyond what the preconditions use, logging and the teaching examples.
