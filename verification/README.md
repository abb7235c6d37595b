# Verified models of the benchmark suite's stateful algorithms

This project models, in Dafny 4.11, the parts of the repository whose correctness rests on
invariants, and proves those invariants for all inputs, runs or interleavings.

- **Session cache** (`SessionCache`, `SessionRefinement`, `SessionRecency`, on `OrderedDict`):
  the sliding-TTL LRU cache of kubectl sessions and `get_tools`. It trusts dictionary order
  where an unordered table would compare timestamps. The first refinement shows when that is
  sound. The second computes the contents from the call history, from which the stack
  property and an exact hit condition follow.
- **Cluster provisioner** (`ProvisionerProtocol`, `ProvisionerPerUser`, `ProvisionerTight`,
  `ClusterStore`, `ProvisionerCommands`, `ProvisionerDaemon`): one daemon and any number of
  `claim` and `relinquish` commands on one table, with every SQL statement one atomic step.
  A count may be stale when the row it allowed is created, and a claimer may write to a row
  that has meanwhile been set to terminating. The bounds are proved by counting rows together
  with the rows that may still become managed. The commands and the daemon's cycle are also
  written out as they run on the table, and each returns the protocol steps it took.
- **Cache simulator** (`CachePolicy`, `CacheSimulator`, `CacheRuns`, `MissAccounting`,
  `Simulation`): the cache owns residency and sizes, the installed policy owns two ordered
  segments, and the coupling between them makes eviction total. The order of victims is
  proved against a specification that sees only the history of events.
- **Command runners** (`Text`, `CommandRunner`, `BuildRunner`): signature search and bounded
  capture over chunks of two interleaved streams, against whole-string search and prefix.
- **Trace files** (`TraceCodec`, `TraceIndex`): the backward next-access pass, the binary and
  the CSV format.
- **Similarity scores** (`Similarity`): over the reals, with exact roots as a parameter.
- **Dashboard, escapes, tree merge, ordered subset** (`Dashboard`, `Escapes`, `MergeTree`,
  `OrderedSubset`): log hand-off between requests and ticks, two escape functions against
  their readers, a recursive merge of file trees, and a greedy subsequence check.

`Common` holds the result types and the byte. Where the code updates fields in place the model
is a class whose methods state their new state through a function of the old one; protocols and
runs are state machines over values, and lemmas speak of those functions.

## What the proofs found

- The session cache's early break is exact if and only if expired entries come first. A clock
  that goes back breaks this (`SessionRefinement.ClockSetBackKeepsAnExpiredEntry`), so the
  runs assume a clock that does not. No assumption on the sign of the time to live is needed.
- The total limit is exceeded under interleaving by at most the number of `claim` commands and
  the daemon in flight beyond the first of them, and by that many it can be exceeded
  (`ProvisionerTight.BoundIsReached`). The same holds of a user's limit and the user's claims
  (`ProvisionerTight.PerUserBoundIsReached`). `relinquish` commands never count.
- A claim returns with its row still in user provisioning exactly when the ready row names no
  control node, or the nodes are up and a node refuses the key or, on a ready row, installing
  it crashes, as without a login list (`Strands` in `ProvisionerCommands.Claim`). No later step
  of any process changes that row (`ProvisionerCommands.UnfinishedForever`), and two of them
  lock the user out (`ProvisionerCommands.RefusedKeysLockOut`).
- The inactivity check takes the minimum of its nodes' idle times, which raises on a cluster of
  two or more nodes as soon as one of them tells nothing. It then reclaims all idle clusters if
  and only if none is listed behind the first such cluster
  (`ProvisionerDaemon.ReclaimsAllIff`, `ProvisionerDaemon.SilentNodeStopsTheScan`).
- Adding a constant leaves the Pearson score alone except between two constant vectors, where
  the policy compares the vectors themselves (`Similarity.PearsonShiftIff`,
  `Similarity.ShiftCanChangeTheScore`).
- The comment on `_default_numeric_similarity` gives scores for NaN and infinities, which the
  code rejects; the model follows the code and leaves non-finite numbers out.
- A destination directory with the name of a source file receives the file inside it; this is
  the only way a path that the source does not have can change
  (`MergeTree.KeepsOtherPaths`).
- Excluded names are copied after all exactly below a directory that was missing at the
  destination, since that one is copied whole (`MergeTree.ExcludedArriveIff`,
  `MergeTree.ExcludedNameIsCopied`).
- A binary trace file holds the records before the first that cannot be packed when the writer
  raises (`TraceIndex.Trace.ToBin`).

`dafny verify dfyconfig.toml` checks everything.

## Model

| member | source | states |
|---|---|---|
| SessionCache.SlidingLRUSessionCache.CleanExpired | benchmarks/sregym/sregym_core/mcp_server/kubectl_server_helper/sliding_lru_session_cache.py:70-84 | The scan with its early break followed by the deletions removes exactly the expired entries met before the first live one, and leaves the rest in order. |
| SessionCache.SlidingLRUSessionCache.GetItem | benchmarks/sregym/sregym_core/mcp_server/kubectl_server_helper/sliding_lru_session_cache.py:32-44 | A lookup first expires, then either raises `KeyError` for the key or returns its value, moves the entry to the end and stamps it with the second clock reading. |
| SessionCache.SlidingLRUSessionCache.SetItem | benchmarks/sregym/sregym_core/mcp_server/kubectl_server_helper/sliding_lru_session_cache.py:46-56 | An insertion or overwrite goes to the end with the first reading, expiry runs with the second, and one entry is dropped from the front if more than `max_size` remain. |
| SessionCache.SlidingLRUSessionCache.DelItem | benchmarks/sregym/sregym_core/mcp_server/kubectl_server_helper/sliding_lru_session_cache.py:58-62 | Deletes the key's entry, or raises and changes nothing. |
| SessionCache.SlidingLRUSessionCache.Len | benchmarks/sregym/sregym_core/mcp_server/kubectl_server_helper/sliding_lru_session_cache.py:65-68 | Asking for the length expires first and counts what is left. |
| SessionCache.SlidingLRUSessionCache.GetOrDefault | benchmarks/sregym/sregym_core/mcp_server/kubectl_server_helper/sliding_lru_session_cache.py:86-94 | `get` turns the missing-key error into the default and has the same effect on the cache. |
| SessionCache.GetTools | benchmarks/sregym/sregym_core/mcp_server/kubectl_mcp_tools.py:37-49 | Get-or-create: the found tool, or the newly built one stored under the session, each cache call with clock readings of its own. |
| SessionRefinement.ExpireIsLiveIff | benchmarks/sregym/sregym_core/mcp_server/kubectl_server_helper/sliding_lru_session_cache.py:70-84 | The early break drops exactly the entries idle for at least the time to live if and only if no expired entry stands behind a live one. |
| SessionRefinement.ClockSetBackKeepsAnExpiredEntry | benchmarks/sregym/sregym_core/mcp_server/kubectl_server_helper/sliding_lru_session_cache.py:70-84 | A concrete clock going back leaves an expired entry resident after a scan. |
| SessionRefinement.StepRefines | benchmarks/sregym/sregym_core/mcp_server/kubectl_server_helper/sliding_lru_session_cache.py:32-84 | Under a clock that does not go back, every operation does to the ordered dictionary what it would do to an unordered table of timestamps: expiry filters by idle time and overflow removes an entry with the smallest last access. |
| SessionRefinement.GetOrCreateRefines | benchmarks/sregym/sregym_core/mcp_server/kubectl_mcp_tools.py:37-49 | With every reading of its own: a session live at the first answers with its tool and is stamped by the second; otherwise the built tool is stored under the third, taken after the building, into the table expiry left, with expiry and overflow at the fourth. |
| SessionRefinement.BuildingTimeDoesNotCount | benchmarks/sregym/sregym_core/mcp_server/kubectl_server_helper/sliding_lru_session_cache.py:46-56 | A tool that took 30 seconds to build is stamped at their end, and a call 575 seconds later finds it. |
| SessionRefinement.RunRefines | benchmarks/sregym/sregym_core/mcp_server/kubectl_server_helper/sliding_lru_session_cache.py:32-84 | Every run of operations is a run of the unordered table with the same answers; at its end keys are distinct, dictionary order is timestamp order and the size limit holds. |
| SessionRecency.StateIsWindow | benchmarks/sregym/sregym_core/mcp_server/kubectl_mcp_tools.py:37-49 | After any sequence of calls the live sessions are the `max_size` most recently used of the sessions still within their time to live, computed from the call history alone. |
| SessionRecency.Inclusion | benchmarks/sregym/sregym_core/mcp_server/kubectl_server_helper/sliding_lru_session_cache.py:46-84 | Stack property: on the same calls and clock, the (session, last access) sequence of a smaller cache is a suffix of a larger one's. |
| SessionRecency.HitsGrowWithSize | benchmarks/sregym/sregym_core/mcp_server/kubectl_mcp_tools.py:37-49 | Every call that hits in a cache hits in every larger cache. |
| SessionRecency.HitIff | benchmarks/sregym/sregym_core/mcp_server/kubectl_mcp_tools.py:37-49 | A call hits if and only if its session was last used less than the time to live ago and fewer than `max_size` different sessions were used since. |
| SessionRecency.ResidentTool | benchmarks/sregym/sregym_core/mcp_server/kubectl_mcp_tools.py:37-49 | A resident session holds the tool that its last use returned. |
| SessionRecency.AnswerIs | benchmarks/sregym/sregym_core/mcp_server/kubectl_mcp_tools.py:37-49 | For a session used before: the tool of its last use if that use is recent enough, otherwise the newly built tool. |
| ProvisionerProtocol.ManagedWrites | benchmarks/sregym/sregym_core/provisioner/cli.py:291-546 | Whatever a process does next, a managed status is written only to its own target row or to a row it creates after passing the total count. |
| ProvisionerProtocol.TokensBound | benchmarks/sregym/sregym_core/provisioner/state_manager.py:302-324 | Rows that are managed or may become so without another count exceed the managed rows by at most one per daemon or claim in flight; a relinquish adds nothing. |
| ProvisionerProtocol.StepTokens | benchmarks/sregym/sregym_core/provisioner/daemon.py:54-140 | No step other than passing the total count adds to those rows, including a stale claimer's revival of a terminating cluster. |
| ProvisionerProtocol.GuardTokens | benchmarks/sregym/sregym_core/provisioner/cli.py:406-414 | Passing the total count leaves at most MAX_TOTAL_CLUSTERS - 1 plus the number of claims and the daemon in flight. |
| ProvisionerProtocol.ProvisioningBound | benchmarks/sregym/sregym_core/provisioner/daemon.py:54-73 | With at most k of the daemon and the claims in flight, any number of relinquish commands beside them, and atomic SQL statements, managed clusters never exceed MAX_TOTAL_CLUSTERS - 1 + k, in every interleaving; k = 1 is the serial limit. |
| ProvisionerTight.BoundIsReached | benchmarks/sregym/sregym_core/provisioner/cli.py:406-428 | For every k >= 1 some run from the empty table, with never more than k processes in flight, ends with exactly MAX_TOTAL_CLUSTERS - 1 + k managed clusters. |
| ProvisionerPerUser.InvStep | benchmarks/sregym/sregym_core/provisioner/cli.py:420-428 | Every step keeps: a row created by a claim stays in user provisioning for that user, and no other process may write it, until the claim finishes or fails. |
| ProvisionerPerUser.HeldWrites | benchmarks/sregym/sregym_core/provisioner/cli.py:291-520 | A write makes a row count against a user only if that user's own claim targets or creates the row. |
| ProvisionerPerUser.UserStep | benchmarks/sregym/sregym_core/provisioner/cli.py:273-281 | A step adds to what a user holds or may come to hold only by passing the per-user count. |
| ProvisionerPerUser.PerUserBound | benchmarks/sregym/sregym_core/provisioner/cli.py:273-281 | A user with at most j claims in flight at a time, amid any other processes, never holds more than MAX_CLUSTERS_PER_USER - 1 + j clusters. |
| ProvisionerTight.PerUserBoundIsReached | benchmarks/sregym/sregym_core/provisioner/cli.py:273-281 | For every user and every j >= 1 some run with never more than j processes, all claims of that user, ends with the user holding exactly MAX_CLUSTERS_PER_USER - 1 + j. |
| ProvisionerPerUser.StrandedForever | benchmarks/sregym/sregym_core/provisioner/cli.py:604-628 | A row in user provisioning that no process in flight may write is never changed again, whatever runs later: no check and no command acts on it. |
| ClusterStore.StateManager.CreateClusterRecord | benchmarks/sregym/sregym_core/provisioner/state_manager.py:117-167 | Appends a row under a new slice name; an existing name raises and changes nothing. |
| ClusterStore.StateManager.UpdateClusterRecord | benchmarks/sregym/sregym_core/provisioner/state_manager.py:191-240 | Rewrites the given columns of the named row and nothing else; no columns is an error, an invalid column name is answered with False and writes nothing, other columns alone or an unknown slice change nothing here. |
| ClusterStore.StateManager.DeleteClusterRecord | benchmarks/sregym/sregym_core/provisioner/state_manager.py:242-259 | A soft delete sets the status of the named row to terminated and no other column; a hard delete removes the row; the other rows and their order stay. |
| ClusterStore.StateManager.GetClustersByStatus | benchmarks/sregym/sregym_core/provisioner/state_manager.py:276-284 | Lists exactly the rows with the status, each once, in insertion order. |
| ClusterStore.SelectConcat | benchmarks/sregym/sregym_core/provisioner/state_manager.py:276-284 | A selection goes through the table row by row, so it keeps the table's order. |
| ClusterStore.SelectFirst | benchmarks/sregym/sregym_core/provisioner/state_manager.py:276-284 | Its first row is the first of the table with the status. |
| ClusterStore.StateManager.CountTotalManagedClusters | benchmarks/sregym/sregym_core/provisioner/state_manager.py:302-324 | The number of rows in one of the four managed statuses, that is in none of terminating, error and terminated. |
| ClusterStore.StateManager.CountTotalAvailableClusters | benchmarks/sregym/sregym_core/provisioner/state_manager.py:325-341 | The number of rows being auto-provisioned or ready. |
| ClusterStore.StateManager.CountUserClaimedClusters | benchmarks/sregym/sregym_core/provisioner/state_manager.py:343-354 | The number of rows claimed by, or being provisioned for, a user. |
| ProvisionerCommands.Claim | benchmarks/sregym/sregym_core/provisioner/cli.py:259-546 | Run alone, `claim` is a run of the protocol. Each of its nine outcomes has its exact condition, with the slice it works on; the table afterwards is the table before with that slice's row in its place, or at the end, and nothing else changed; both limits are kept for every user. |
| ProvisionerCommands.RowLeftIs | benchmarks/sregym/sregym_core/provisioner/cli.py:384-392 | Every column of that row: the status the outcome says and the user; a ready row keeps the listed columns and takes the override once claimed; a new row has its creation's columns, and once claimed the experiment's aggregate name and control node. |
| ProvisionerCommands.ReadyRows | benchmarks/sregym/sregym_core/provisioner/cli.py:284-287 | The ready row that is taken is the first of the table that is ready. |
| ProvisionerCommands.UnfinishedForever | benchmarks/sregym/sregym_core/provisioner/cli.py:294-301 | A row that a claim leaves in user provisioning stays so through every later run, counting against its user and the total. |
| ProvisionerCommands.RefusedKeysLockOut | benchmarks/sregym/sregym_core/provisioner/cli.py:470-471 | Two claims with a refused key, and the third reports the user limit although the user has no claimed cluster. |
| ProvisionerCommands.ClaimRegistered | benchmarks/sregym/sregym_core/provisioner/cli.py:273-291 | The user limit and the total limit are reported exactly when they are reached, the latter only without a ready cluster. |
| ProvisionerCommands.FinishReady | benchmarks/sregym/sregym_core/provisioner/cli.py:293-393 | On a ready cluster: claimed exactly when it has a control node, its nodes come up and the key is installed; left in user provisioning exactly when it has none, or the nodes are up and the key is refused or installing crashes; terminating exactly when an SSH error is caught and its aggregate is known; in error otherwise; with the whole row that is left. |
| ProvisionerCommands.FinishBuilding | benchmarks/sregym/sregym_core/provisioner/cli.py:430-546 | On a new cluster: claimed exactly when the experiment has login data and a control node, its nodes come up and the key is installed; left in user provisioning exactly when only the key is refused; terminating exactly when the aggregate is known and login data, control node or installing fails; in error otherwise; with the whole row that is left. |
| ProvisionerCommands.Relinquish | benchmarks/sregym/sregym_core/provisioner/cli.py:604-640 | Releases a row exactly when it is claimed by that user, sets it to terminating without an owner with its other columns kept, and otherwise changes nothing; it is a run of the protocol. |
| ProvisionerCommands.SerialBounds | benchmarks/sregym/sregym_core/provisioner/cli.py:273-281 | Any run of one process at a time keeps both limits. |
| ProvisionerDaemon.CheckUnclaimedClusterTimeout | benchmarks/sregym/sregym_core/provisioner/daemon.py:184-209 | Exactly the ready clusters older than the timeout become terminating. |
| ProvisionerDaemon.CheckClaimedClusterInactivity | benchmarks/sregym/sregym_core/provisioner/daemon.py:347-402 | Exactly the claimed clusters without override that are idle beyond the limit and listed before the first cluster that makes the check raise become terminating and lose their owner; no other row or column changes. |
| ProvisionerDaemon.IdleIff | benchmarks/sregym/sregym_core/provisioner/daemon.py:360-377 | A cluster counts as idle beyond a limit exactly when it has nodes and every node tells a duration beyond it. |
| ProvisionerDaemon.IdlenessIs | benchmarks/sregym/sregym_core/provisioner/daemon.py:358-369 | The check raises on a cluster exactly when it has no nodes, or two or more of which one tells nothing; a single silent node is skipped over. |
| ProvisionerDaemon.ScansActOn | benchmarks/sregym/sregym_core/provisioner/daemon.py:184-438 | The three scans pick rows by age beyond 16 hours, by every node idle beyond 48 hours without override, and by an unknown aggregate or a deletion that succeeds. |
| ProvisionerDaemon.ReclaimsAllIff | benchmarks/sregym/sregym_core/provisioner/daemon.py:347-402 | The check reclaims all idle clusters if and only if none of them is listed behind the first cluster that makes it raise. |
| ProvisionerDaemon.SilentNodeStopsTheScan | benchmarks/sregym/sregym_core/provisioner/daemon.py:358-365 | A three-node cluster with one silent node is listed before a long idle one, and nothing is reclaimed. |
| ProvisionerDaemon.CheckAutomaticProvisioning | benchmarks/sregym/sregym_core/provisioner/daemon.py:46-142 | Appends exactly the rows of as many attempts as the pool is short of, unless the total limit or a taken slice name stops it; if no attempt fails, the pool reaches its minimum or the total limit stops it, and if one fails the pool is below its minimum. |
| ProvisionerDaemon.AutoProvisionOne | benchmarks/sregym/sregym_core/provisioner/daemon.py:60-140 | One attempt appends one whole row and answers whether it succeeded. |
| ProvisionerDaemon.ProvisionedIs | benchmarks/sregym/sregym_core/provisioner/daemon.py:94-136 | Column by column: ready exactly on success and in error otherwise, unowned, with the experiment's aggregate name and control node as soon as these are known. |
| ProvisionerDaemon.ProcessTerminatingClusters | benchmarks/sregym/sregym_core/provisioner/daemon.py:404-438 | Exactly the terminating clusters with no known aggregate or whose deletion succeeds become terminated; the others stay terminating, and no other column changes. |
| ProvisionerDaemon.RunAllChecks | benchmarks/sregym/sregym_core/provisioner/daemon.py:441-455 | One cycle is a run of the protocol; every row keeps its place and its other columns and ends in the status and with the owner that the cases say; the new rows are exactly those of the attempts; the pool and both limits are as after the single checks. |
| ProvisionerDaemon.AfterCycleIs | benchmarks/sregym/sregym_core/provisioner/daemon.py:441-455 | The cases: a ready row past its timeout, a reclaimed row and a terminating row end terminated if their experiment can be deleted and terminating if not, a reclaimed one without owner; every other row is unchanged. |
| CachePolicy.My.Evict | benchmarks/cache_algo_bench/src/cache_simulator/cache/My.py:12-33 | The candidate is the front of probation, else of the protected segment, else none. |
| CachePolicy.My.UpdateAfterHit | benchmarks/cache_algo_bench/src/cache_simulator/cache/My.py:35-50 | A hit moves a key from probation to the end of the protected segment, or to the end within the latter. |
| CachePolicy.My.UpdateAfterInsert | benchmarks/cache_algo_bench/src/cache_simulator/cache/My.py:52-62 | A new key is filed in probation under the access count. |
| CachePolicy.My.UpdateAfterEvict | benchmarks/cache_algo_bench/src/cache_simulator/cache/My.py:64-78 | The victim leaves the segment that holds it. |
| CacheSimulator.Cache.Size | benchmarks/cache_algo_bench/src/cache_simulator/cache/Cache.py:84-92 | The size property is the sum of the resident objects' sizes. |
| CacheSimulator.Cache.Evict | benchmarks/cache_algo_bench/src/cache_simulator/cache/Cache.py:171-185 | Removes the policy's candidate, tells the policy and returns the removed object, or raises when the candidate is missing or not resident. |
| CacheSimulator.Cache.Get | benchmarks/cache_algo_bench/src/cache_simulator/cache/Cache.py:114-138 | One access with its counters, callbacks and eviction loop, as a function of the state before; the loop ends even with a misbehaving policy. |
| CacheRuns.EvictLinked | benchmarks/cache_algo_bench/src/cache_simulator/cache/Cache.py:171-185 | While the segments split the resident keys, the candidate is always resident and evicting it keeps the split. |
| CacheRuns.AccessCoupled | benchmarks/cache_algo_bench/src/cache_simulator/cache/Cache.py:114-198 | An access never raises, keeps resident keys the disjoint union of the segments and total size within capacity, is a hit exactly for a resident key, and leaves any object that fits resident. |
| CacheRuns.NoAccessRaises | benchmarks/cache_algo_bench/src/cache_simulator/cache/Cache.py:114-198 | On every trace with any sizes every access is answered, by whether the key is resident. |
| CacheRuns.SizeAfterDelete | benchmarks/cache_algo_bench/src/cache_simulator/cache/Cache.py:180-184 | Removing an object lowers the total by exactly its size, as the eviction asserts. |
| CacheRuns.SizeAfterInsert | benchmarks/cache_algo_bench/src/cache_simulator/cache/Cache.py:187-193 | Inserting a new object raises the total by exactly its size, as the insertion asserts. |
| CacheRuns.EvictRight | benchmarks/cache_algo_bench/src/cache_simulator/cache/My.py:26-33 | The candidate is the right victim by the event history: the earliest inserted resident not hit since its insertion, else the resident whose latest hit is oldest. |
| CacheRuns.AccessFaithful | benchmarks/cache_algo_bench/src/cache_simulator/cache/My.py:45-62 | Every access keeps the segments a faithful account of the event history. |
| CacheRuns.EveryVictimIsRight | benchmarks/cache_algo_bench/src/cache_simulator/cache/My.py:26-33 | On every run the policy is told of exactly the hits and insertions the accesses dictate, in order; by that history every victim is the right one, and the history's residents are the cache's. |
| CacheRuns.AccessTells | benchmarks/cache_algo_bench/src/cache_simulator/cache/Cache.py:114-138 | An access to a resident key is told as a hit and changes no residency; an object that can fit is told as inserted and is resident afterwards, with the others that remain unchanged; nothing is evicted for an object that is resident, cannot fit, or fits as it is. |
| CacheRuns.MakeRoomEvicts | benchmarks/cache_algo_bench/src/cache_simulator/cache/Cache.py:132-137 | Objects are evicted only while the new one does not fit. |
| CacheRuns.FiledUnder | benchmarks/cache_algo_bench/src/cache_simulator/cache/My.py:45-62 | A key in probation is filed under the number of its last access, one in the protected segment under the access that promoted it. |
| MissAccounting.MissesCoverKeys | benchmarks/cache_algo_bench/src/cache_simulator/Simulator.py:140-151 | Accesses equal the trace's length, hits never exceed them, and misses are at least the number of distinct keys, for all sizes. |
| MissAccounting.EverythingFits | benchmarks/cache_algo_bench/src/cache_simulator/cache/Cache.py:127-138 | If one object of each key fits at once, nothing is ever evicted and the misses are exactly the distinct keys. |
| MissAccounting.UnitMisses | benchmarks/cache_algo_bench/src/cache_simulator/Simulator.py:131-151 | With unit sizes and capacity for all distinct keys, misses equal the distinct keys. |
| MissAccounting.RunTrace | benchmarks/cache_algo_bench/src/cache_simulator/Simulator.py:140-151 | The driver divides by zero exactly on the empty trace, and otherwise returns the run's miss ratio, at least distinct keys over length, with equality when everything fits. |
| Simulation.ReadTraceIs | benchmarks/cache_algo_bench/src/cache_simulator/Simulator.py:131-137 | Objects are the entries' keys as text with their sizes, or size 1 when sizes are ignored; a non-positive size raises exactly when sizes count. |
| Simulation.NdvIsDistinctKeys | benchmarks/cache_algo_bench/src/cache_simulator/cache/Trace.py:72-75 | The simulator sees as many different keys as the trace's distinct-key count. |
| Simulation.MissesAgainstNdv | benchmarks/cache_algo_bench/src/cache_simulator/cache/Trace.py:72-75 | Hits plus misses equal the trace's length, misses are at least its distinct-key count, and equal it for unit sizes once capacity reaches it. |
| TraceIndex.Trace.SetNextVtime | benchmarks/cache_algo_bench/src/cache_simulator/cache/Trace.py:91-98 | After the backward pass each entry's next access is the time of the nearest later entry with its key, or -1; no other field changes. |
| TraceIndex.IndexIsUnique | benchmarks/cache_algo_bench/src/cache_simulator/cache/Trace.py:91-98 | There is only one such index for given times, keys and sizes. |
| TraceIndex.Trace.GetNdv | benchmarks/cache_algo_bench/src/cache_simulator/cache/Trace.py:72-75 | The number of distinct keys of the whole trace. |
| TraceIndex.Trace.ToBin | benchmarks/cache_algo_bench/src/cache_simulator/cache/Trace.py:100-107 | The loop writes the packed records at the selected positions up to the first that cannot be packed, which it reports; the file reads back as those records up to the masks. |
| TraceIndex.BoundsIff | benchmarks/cache_algo_bench/src/cache_simulator/cache/Trace.py:101-104 | The clamped bounds select exactly the positions at or after the start and before the end, a negative end counting from the back. |
| TraceIndex.SliceIsSelected | benchmarks/cache_algo_bench/src/cache_simulator/cache/Trace.py:105-107 | The slice is the elements at these positions in order. |
| TraceIndex.Trace.ToCsv | benchmarks/cache_algo_bench/src/cache_simulator/cache/Trace.py:109-116 | The loop writes the lines of the records at the selected positions, and the file reads back as exactly those, for any start and end. |
| TraceIndex.LoadBin | benchmarks/cache_algo_bench/src/cache_simulator/cache/Trace.py:53-70 | Loading gives the file's records as distinct entries, indexed anew when asked, and fails exactly when the file is not made of whole records. |
| TraceCodec.BinFileIff | benchmarks/cache_algo_bench/src/cache_simulator/cache/Trace.py:45-52 | A binary file can be read exactly if its length is a multiple of 24, and gives one record for each 24 bytes. |
| TraceIndex.LoadCsv | benchmarks/cache_algo_bench/src/cache_simulator/cache/Trace.py:53-70 | The same for CSV files, failing exactly when a line cannot be parsed. |
| TraceCodec.ReadCsvIff | benchmarks/cache_algo_bench/src/cache_simulator/cache/Trace.py:53-57 | A CSV file is read exactly if each of its lines parses, and then line by line. |
| TraceCodec.LineEnds | benchmarks/cache_algo_bench/src/cache_simulator/cache/Trace.py:54-55 | A line ends at a newline, a carriage return, or both. |
| TraceIndex.SliceBinRoundTrip | benchmarks/cache_algo_bench/src/cache_simulator/cache/Trace.py:100-107 | Reading what was written for any start and end gives the slice back, up to the masks. |
| TraceCodec.RecordRoundTrip | benchmarks/cache_algo_bench/src/cache_simulator/cache/Trace.py:14-26 | A packed record is 24 bytes and unpacks to itself with time and size modulo 2^32, key modulo 2^64 and the signed 64-bit next access exact. |
| TraceCodec.RecordBytes | benchmarks/cache_algo_bench/src/cache_simulator/cache/Trace.py:19-26 | Every byte of a record by field and offset: four of the time, eight of the key, four of the size, eight of the next access, each in two's complement from the lowest. |
| TraceCodec.BinRoundTrip | benchmarks/cache_algo_bench/src/cache_simulator/cache/Trace.py:14-26 | Writing fails exactly when some next access does not fit 64 signed bits, and otherwise the file reads back as what was written, up to the masks. |
| TraceCodec.DecimalParses | benchmarks/cache_algo_bench/src/cache_simulator/cache/Trace.py:28-34 | A number's text parses back to it, for all integers. |
| TraceCodec.DigitsAre | benchmarks/cache_algo_bench/src/cache_simulator/cache/Trace.py:33-34 | A number's text has its decimal digits and no leading zero. |
| TraceCodec.ParseDigitsIff | benchmarks/cache_algo_bench/src/cache_simulator/cache/Trace.py:28-31 | Digits parse exactly if there are some, with at most one underscore between two of them. |
| TraceCodec.CsvLine | benchmarks/cache_algo_bench/src/cache_simulator/cache/Trace.py:33-34 | A record's line splits into time, key, size and next access in this order. |
| TraceCodec.CsvRecordRoundTrip | benchmarks/cache_algo_bench/src/cache_simulator/cache/Trace.py:28-34 | A record's line parses back to exactly the record. |
| TraceCodec.CsvRoundTrip | benchmarks/cache_algo_bench/src/cache_simulator/cache/Trace.py:28-34 | A CSV file reads back as exactly what was written, for all integers including negative ones. |
| CommandRunner.AppendBounded | benchmarks/arteval_bench/src/evaluator/oracle_benchmark_prep_primitives.py:107-117 | The buffer holds the first cap characters of the stream, and overflow is reported when the buffer was full or the text did not fit. |
| CommandRunner.Search | benchmarks/arteval_bench/src/evaluator/oracle_benchmark_prep_primitives.py:200-213 | One chunk's search over the kept tail finds the signature exactly when the stream so far contains it. |
| CommandRunner.Consume | benchmarks/arteval_bench/src/evaluator/oracle_benchmark_prep_primitives.py:176-216 | For every chunking and interleaving the loop ends with each stream's bounded prefix, the exact overflow flags, whether either stream contains the signature, and the text around the joint. |
| CommandRunner.RunCommand | benchmarks/arteval_bench/src/evaluator/oracle_benchmark_prep_primitives.py:65-276 | Each of the five failure reasons and success has its exact condition, in the order of the code's tests; the check succeeds exactly when the environment is valid, the process starts, does not time out, exits with 0, and the signature, unless blank, is a substring of stdout + newline + stderr; the return code and both captured texts are fixed in every case. |
| CommandRunner.OverflowedIff | benchmarks/arteval_bench/src/evaluator/oracle_benchmark_prep_primitives.py:107-117 | The overflow flag is raised exactly when characters were dropped or a chunk that decodes to nothing met a full buffer. |
| CommandRunner.SignatureIff | benchmarks/arteval_bench/src/evaluator/oracle_benchmark_prep_primitives.py:119 | The signature counts exactly if some character of it is not a space. |
| CommandRunner.CapturedIs | benchmarks/arteval_bench/src/evaluator/oracle_benchmark_prep_primitives.py:245-246 | The captured text is the output, or its first 32768 characters if it is longer, followed by three dots exactly after an overflow. |
| Text.StripIs | benchmarks/arteval_bench/src/evaluator/oracle_benchmark_prep_primitives.py:119 | Stripping takes away spaces at both ends and leaves nothing exactly of a blank string. |
| Text.ContainsConcat | benchmarks/arteval_bench/src/evaluator/oracle_benchmark_prep_primitives.py:200-213 | Searching a growing stream needs only its last length-minus-one characters. |
| Text.ContainsAcross | benchmarks/arteval_bench/src/evaluator/oracle_benchmark_prep_primitives.py:258-261 | A match across the joint of the streams lies within length-minus-one characters of it. |
| BuildRunner.Take | benchmarks/arteval_bench/src/evaluator/oracle_artifact_build_primitives.py:223-230 | A read keeps the buffer the first cap bytes of the stream. |
| BuildRunner.RunWithLimitedOutput | benchmarks/arteval_bench/src/evaluator/oracle_artifact_build_primitives.py:158-283 | Each captured buffer is exactly the first cap bytes of its stream, through the drain after a timeout; a timeout returns no exit code, and a process that cannot start raises. |
| Similarity.CauchySchwarz | benchmarks/arteval_bench/src/evaluator/oracle_experiment_runs_primitives.py:143-155 | The square of the dot product is at most the product of the squared norms, for all vectors of equal length. |
| Similarity.CosineSimilarity | benchmarks/arteval_bench/src/evaluator/oracle_experiment_runs_primitives.py:132-155 | Errors exactly for different lengths; 1 and 0 by the zero policy; otherwise the score times both roots is the dot product; the score lies in [-1, 1]. |
| Similarity.CosineSelf | benchmarks/arteval_bench/src/evaluator/oracle_experiment_runs_primitives.py:132-155 | A vector whose norm is not negligible has similarity 1 with itself. |
| Similarity.CosineSymmetric | benchmarks/arteval_bench/src/evaluator/oracle_experiment_runs_primitives.py:132-155 | Cosine similarity is symmetric, errors included. |
| Similarity.PearsonSimilarity | benchmarks/arteval_bench/src/evaluator/oracle_experiment_runs_primitives.py:158-196 | Errors exactly for different lengths and for fewer than two samples; its policy for constant inputs; otherwise the score times both roots is the covariance sum of the centered vectors; the score lies in [-1, 1]. |
| Similarity.CenteredIs | benchmarks/arteval_bench/src/evaluator/oracle_experiment_runs_primitives.py:170-181 | Centering takes away a constant and leaves a vector whose sum is zero. |
| Similarity.PearsonSymmetric | benchmarks/arteval_bench/src/evaluator/oracle_experiment_runs_primitives.py:158-196 | Pearson similarity is symmetric, errors included. |
| Similarity.PearsonShiftIff | benchmarks/arteval_bench/src/evaluator/oracle_experiment_runs_primitives.py:177-196 | Adding a constant to an input leaves the score unchanged if and only if, when both inputs are constant up to the threshold, the shift does not change whether they are equal. |
| Similarity.ShiftCanChangeTheScore | benchmarks/arteval_bench/src/evaluator/oracle_experiment_runs_primitives.py:191-192 | Two equal constant vectors score 1, and 0 once one is shifted. |
| Similarity.MinMaxSimilarity | benchmarks/arteval_bench/src/evaluator/oracle_experiment_runs_primitives.py:199-228 | The loop computes the two sums or reports the first negative position. |
| Similarity.MinMaxConserves | benchmarks/arteval_bench/src/evaluator/oracle_experiment_runs_primitives.py:217-228 | The sums of minima and of maxima add up to the sums of the inputs, and are equal exactly for equal vectors. |
| Similarity.MinMaxBounds | benchmarks/arteval_bench/src/evaluator/oracle_experiment_runs_primitives.py:199-228 | For non-negative vectors the score lies in [0, 1], is symmetric, and is 1 exactly for equal vectors. |
| Similarity.MinMaxIsQuotient | benchmarks/arteval_bench/src/evaluator/oracle_experiment_runs_primitives.py:226-228 | The score times the sum of the maxima is the sum of the minima. |
| Similarity.JaccardMultisetSimilarity | benchmarks/arteval_bench/src/evaluator/oracle_experiment_runs_primitives.py:106-121 | The sums over the keys are the sizes of the multiset intersection and union. |
| Similarity.JaccardBounds | benchmarks/arteval_bench/src/evaluator/oracle_experiment_runs_primitives.py:106-121 | Numerator and denominator add up to the inputs' lengths; the score lies in [0, 1], is symmetric, and is 1 exactly for permutations. |
| Similarity.JaccardIsQuotient | benchmarks/arteval_bench/src/evaluator/oracle_experiment_runs_primitives.py:116-121 | The score times the size of the union is the size of the intersection. |
| Similarity.JaccardIsMinMax | benchmarks/arteval_bench/src/evaluator/oracle_experiment_runs_primitives.py:106-121 | Multiset Jaccard is min-max on the count vectors. |
| Similarity.JaccardSetSimilarity | benchmarks/arteval_bench/src/evaluator/oracle_experiment_runs_primitives.py:82-103 | Raises exactly when an input has duplicates, and otherwise agrees with multiset Jaccard. |
| Similarity.DefaultNumericBounds | benchmarks/arteval_bench/src/evaluator/oracle_experiment_runs_primitives.py:238-260 | The score lies in [0, 1], is symmetric, is 1 exactly for equal numbers and 0 exactly when the difference reaches the largest magnitude; otherwise what it lacks of 1 is the difference over that magnitude. |
| Similarity.DefaultNumericSimilarity | benchmarks/arteval_bench/src/evaluator/oracle_experiment_runs_primitives.py:238-260 | Division by zero happens exactly for two zeros with a non-positive epsilon. |
| Dashboard.LogsConserved | benchmarks/sregym/sregym_core/dashboard/dashboard_app.py:126-176 | Over every interleaving of requests and tick steps, received logs are the history, then the batch not yet recorded, then the queue; between ticks the page shows every recorded log exactly once, in order, with its batch's snapshot. |
| Dashboard.PageOfRun | benchmarks/sregym/sregym_core/dashboard/dashboard_app.py:923-1013 | Between ticks of every run the page has one row for each recorded log in order: the last beside the current state, before it a line for a separator log and any other log beside the state collected with it. |
| Dashboard.StepAccounts | benchmarks/sregym/sregym_core/dashboard/dashboard_app.py:879-1013 | Every step keeps that account. |
| Dashboard.RenderShows | benchmarks/sregym/sregym_core/dashboard/dashboard_app.py:923-991 | Rendering a batch appends exactly its logs to what is shown. |
| Dashboard.Server.ReceiveLog | benchmarks/sregym/sregym_core/dashboard/dashboard_app.py:127-143 | A request with a body that is not empty appends one log to the queue, with the defaults for fields that are not given; any other changes nothing. |
| Dashboard.Server.DrainLogQueue | benchmarks/sregym/sregym_core/dashboard/dashboard_app.py:168-176 | Empties the queue in order and appends what it drained to the history. |
| Dashboard.Server.UpdateRows | benchmarks/sregym/sregym_core/dashboard/dashboard_app.py:869-1013 | A tick is its four protocol steps in a row and returns the history rows followed by the live row, and whether a log was new. |
| Escapes.EscapeIsOnePass | benchmarks/sregym/sregym_core/dashboard/dashboard_app.py:213-221 | The chain of five replacements is a single pass over the characters. |
| Escapes.HtmlRoundTrip | benchmarks/sregym/sregym_core/dashboard/dashboard_app.py:213-221 | An entity decoder gives the original back, for every string. |
| Escapes.EscapedIsHarmless | benchmarks/sregym/sregym_core/dashboard/dashboard_app.py:213-221 | The escaped text has no angle bracket and no quote, and every ampersand begins one of the five character references. |
| Escapes.ShellRoundTrip | benchmarks/arteval_bench/src/agents/ae_agent/run_eval.py:522-524 | Between single quotes the escaped string is read by the shell's quoting rules as one word, the string itself. |
| Escapes.ExportsReadBack | benchmarks/arteval_bench/src/agents/ae_agent/run_eval.py:605-606 | The joined command is read as one export of exactly each assignment, whatever the values contain. |
| MergeTree.MergeInto | benchmarks/arteval_bench/src/agents/ae_agent/run_eval.py:396-415 | The loop over names in any order, with its recursion, ends with the merged directory. |
| MergeTree.MergeDirectory | benchmarks/arteval_bench/src/agents/ae_agent/run_eval.py:396-398 | The destination directory is made if nothing is there; a file there is an error. |
| MergeTree.MergeIdempotent | benchmarks/arteval_bench/src/agents/ae_agent/run_eval.py:396-415 | Merging the same source again changes nothing, for all trees. |
| MergeTree.KeepsOtherPaths | benchmarks/arteval_bench/src/agents/ae_agent/run_eval.py:396-415 | At a path absent from the source nothing appears, changes or goes, except d/d where a source file d meets a directory d, which then holds that file; a path is kept if and only if that does not happen or the content is the same. |
| MergeTree.FilesArrive | benchmarks/arteval_bench/src/agents/ae_agent/run_eval.py:396-415 | Every source file on a path without excluded names arrives, at its path or inside the directory that stands there, unless a source directory meets a file or a source file d meets an existing directory d/d. |
| MergeTree.ObstaclesKeep | benchmarks/arteval_bench/src/agents/ae_agent/run_eval.py:407-415 | In those two cases the destination path is left as it was. |
| MergeTree.DirectoriesArriveIff | benchmarks/arteval_bench/src/agents/ae_agent/run_eval.py:404-410 | Every source directory on a path without excluded names is a directory afterwards exactly unless a destination file stands on its path or at its place, which is then kept. |
| MergeTree.ExcludedArriveIff | benchmarks/arteval_bench/src/agents/ae_agent/run_eval.py:400-410 | A source path with an excluded name in it arrives exactly when a directory above the name is missing at the destination and so copied whole; otherwise the destination path is as it was. |
| MergeTree.ExcludedNameIsCopied | benchmarks/arteval_bench/src/agents/ae_agent/run_eval.py:400-410 | A concrete excluded file below a missing directory is copied, and below an existing one it is not. |
| OrderedSubset.OrderedSubsetIff | benchmarks/sregym/sregym_core/sregym/conductor/utils.py:1-4 | The single pass accepts exactly the lists that embed by a strictly increasing index map. |
| OrderedSubset.OrderedSubsetReflexive | benchmarks/sregym/sregym_core/sregym/conductor/utils.py:1-4 | Every list is an ordered subset of itself. |
| OrderedSubset.OrderedSubsetTransitive | benchmarks/sregym/sregym_core/sregym/conductor/utils.py:1-4 | Ordered subsets compose. |
| OrderedSubset.OrderedSubsetAntisymmetric | benchmarks/sregym/sregym_core/sregym/conductor/utils.py:1-4 | Two lists that are ordered subsets of each other are equal. |

## Left out

- Removal of a session's output directory when its entry goes (`_clean_up_tool`), logging, and the lock, whose critical sections are single operations here.
- Two threads inside `get_tools` for one session: the whole-run results are about calls one after another with one clock reading each; the class methods take every reading separately.
- A negative `max_size`, for which the code would raise on an empty cache.
- CloudLab, SSH, email, the user table and SREGym setup: their answers are parameters or free choices of the protocol; columns that no decision reads are not in the table.
- ClusterStore.StateManager.UpdateClusterRecord: the values of columns that no decision reads are not kept.
- `check_claimed_cluster_extension`, which changes no status.
- ProvisionerCommands.Claim: extending the experiment's duration and SREGym setup are not modelled; neither decides a status unless it crashes, which `Crashed` covers.
- ProvisionerDaemon.AutoProvisionOne: deletion of a partly built experiment at CloudLab is not modelled, only the rows.
- That no cloud experiment is orphaned: the code does not promise it, since the aggregate name of a user's cluster is stored only at the end.
- Exclusive claiming: two claimers may read the same ready cluster, so only the bounds are stated.
- `PROTECTED_RATIO` in the policy is computed and never used, so the segments have no size limits.
- Rounding the miss ratio to four places, time limits, and parameter tuning in the simulator.
- `get_ndv` with bounds, whose second branch ignores the end of the range.
- TraceCodec.ParseInt: digits other than ASCII are not accepted, although Python's `int` takes them.
- Trace files with another extension than `.bin` and `.csv`, which give an empty trace.
- The byte-to-text decoder of the command runner, which is never flushed; chunks are decoded text, and the environment is checked before the process starts.
- The signature's blank test uses the whitespace of `str.isspace`; the process, the selector and the clock are outside, and a deadline is a flag.
- Similarity.CosineSimilarity: floating-point rounding is not modelled; roots are exact and inputs are finite reals, and the same holds for the other scores.
- Elementwise scores, thresholds and reports of the experiment-runs oracle, which only repeat the single-number score.
- Dashboard.Server.ReceiveLog: field values that are not text are not modelled.
- The namespace update in `receive_log`, the export on exit, `clear_log_history`, and exceptions while rendering.
- Escapes.Lex: expansions, redirections, comments and compound commands are refused rather than modelled; the escaped values never contain any outside quotes.
- MergeTree.MergeDirectory: symbolic links, permissions and I/O errors are not modelled; a file system is a finite tree of values rather than updated in place.
