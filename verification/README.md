# A verified model of fyer-cache

fyer-cache is a Go cache library: an in-process cache on sharded skip lists, a
memory-bounded LRU variant, replicated sharding over a consistent-hash ring,
leader election and leader/follower log replication, a Redis lease lock and a
membership table with suspicion timers. This project models the parts with
state that must stay consistent over every run and proves what they keep.

| file | part of the system |
|---|---|
| `KeyOrder.dfy`, `Sequences.dfy`, `Wrappers.dfy` | key order, sequence edits, options and results |
| `SkipList.dfy` | the skip list as linked nodes with towers |
| `ShardedMap.dfy` | the sharded map over skip lists, its index arithmetic and its range queries |
| `MemoryCache.dfy` | the TTL cache over the sharded map, with an explicit clock |
| `HashRing.dfy` | the consistent-hash ring |
| `NodeSharding.dfy` | the replicated cache over the ring |
| `Election.dfy` | leader election, one node and the whole cluster |
| `Replication.dfy` | the replication log, the leader's write path, catch-up and pushes |
| `LruCache.dfy` | the access list and the memory-bounded cache |
| `LeaseLock.dfy` | the Redis scripts, the lock client and runs of many clients |
| `Membership.dfy` | the membership table and its suspicion timers |

How the parts are stated:

- Code that updates objects is a class. Each method's `ensures` equates the new
  abstract state with a function of the old one, and lemmas prove properties of
  that function over all inputs, runs or reachable states.
- The skip list, the sharded map, the TTL cache and the memory-bounded cache are
  built on each other, so the memory-bounded cache is proved down to the `forward`
  links. Each class shows the state of the one below as a plain map.
- A protocol is a state machine whose steps are the critical sections of the
  code. Messages may be lost, delayed, duplicated and reordered.
- Hash functions, value sizes and tower heights are arbitrary. Time is a
  parameter, and so is what the network does to a call.

Where the code does not meet what one would expect of it, the model keeps the
code and states the exact condition:

- An empty key stops eviction (`LruSpecs.EvictionFailsIffBlocked`,
  `LruSpecs.BudgetFailsIff`).
- Overwriting a value never gives its bytes back
  (`LruSpecs.CounterIsLivePlusOverwritten`).
- `GetN` comes to an end only if enough nodes own points (`Rings.GetNEndsIff`,
  `Rings.SharedPointQueryNeverEnds`).
- Removing a node panics when the ring has fewer points than the node has
  different ones, which earlier removals of shared points can bring about
  (`ConsistentHashing.ConsistentHash.Remove`, `Rings.WholeRemovalsNeverPanic`).
- Removing a node deletes points it shares with others. When that changes an
  owner list is stated by `Rings.RemovalIsCleanIff`.
- The leader's cache can end up different from its log in three ways: a full
  queue (`LeaderWrites.OverflowHarmlessIff`), a value without a JSON form
  (`LeaderWrites.UnencodableHarmlessIff`) and writers whose queue sends overtake
  each other (`LeaderWrites.OverlappingWritersAgreeIff`).
- Pushes always start at index 1, so entries after number `MaxLogEntries` never
  arrive (`Catchups.PushesReachLeaderIff`), and a full sync of a non-empty
  follower duplicates entries (`Catchups.FullSyncCopiesIffEmpty`).
- Two clients can think that they hold the lock after a lease ran out
  (`LeaseProtocol.TwoLockedOneStale`).
- A visitor's refusal ends a sharded range query only in the shard where it
  happens, although a comment (cache/skipmap.go:194) says that it stops the
  query (`RangeQueries.RefusalEndsQueryIff`).
- Expired entries use up the limit of a range query, which makes cleaning
  observable there (`MemoryCaches.CleaningIsObservedIff`).

## Model

| member | source | states |
|---|---|---|
| KeyOrder.LessIsLexicographic | cache/skiplist.go:59 | keys are ordered by the first character that differs, a proper prefix first |
| SkipLists.SkipList.constructor | cache/skiplist.go:31-37 | an empty list with a head of full height represents the empty map |
| SkipLists.SkipList.RandomLevel | cache/skiplist.go:40-46 | any height from 1 to 32, nothing more is assumed of it |
| SkipLists.SkipList.Descend | cache/skiplist.go:54-63 | every level's search ends at the last node taller than that level with a smaller key, and no link index is out of range |
| SkipLists.SkipList.Locate | cache/skiplist.go:49-66 | the recorded predecessors are exactly the nodes whose links cross the key's place; the node found has the key if and only if the map has it |
| SkipLists.SkipList.Set | cache/skiplist.go:49-99 | for every height drawn the list stays well formed and represents the old map with the key updated |
| SkipLists.SkipList.Get | cache/skiplist.go:102-124 | answers the map's value, or none |
| SkipLists.SkipList.Delete | cache/skiplist.go:127-163 | represents the old map without the key, tells whether it was there, and leaves `level` at the tallest tower or 1 |
| SkipLists.SkipList.Lower | cache/skiplist.go:156-159 | the loop brings `level` down to exactly the tallest remaining tower or 1 |
| SkipLists.SkipList.Range | cache/skiplist.go:166-193 | visits entries of the range in ascending key order and misses one only if the limit or the visitor cut it off |
| SkipListViews.RangeIsInclusive | cache/skiplist.go:166-193 | both ends belong to a range, and an empty end key leaves it open |
| SkipLists.SkipList.Len | cache/skiplist.go:196-200 | the length field is the size of the map |
| SkipLists.SkipList.ForEach | cache/skiplist.go:203-214 | visits the entries once, in key order, until the visitor refuses |
| Towers.NextAfterInsert | cache/skiplist.go:84-98 | inserting a tower redirects exactly the links that cross it and are lower than it |
| Towers.NextAfterDrop | cache/skiplist.go:142-154 | removing a tower redirects exactly the links that led to it to where it led |
| SkipListViews.InsertKeepsWf | cache/skiplist.go:78-98 | splicing level by level gives level-i links that join exactly the nodes taller than i, in key order |
| SkipListViews.DropKeepsWf | cache/skiplist.go:142-154 | bypassing level by level gives the same for the list without the node |
| ShardIndex.MaskIsRemainder | cache/skipmap.go:53-61 | masking with a power of two minus one is the remainder, for every hash |
| ShardIndex.RoundUpIsLeast | cache/skipmap.go:25-35 | the shard count is the least power of two that is at least the requested count |
| ShardedMaps.SkipShardedMap.constructor | cache/skipmap.go:25-50 | empty shards represent the empty map |
| ShardedMaps.SkipShardedMap.IndexInRange | cache/skipmap.go:53-61 | the shard index is the hash modulo the count and so in range |
| ShardedMaps.SkipShardedMap.Store | cache/skipmap.go:64-79 | the shards represent the old flat map with the key updated, and the counter follows |
| ShardedMaps.SkipShardedMap.Load | cache/skipmap.go:82-88 | answers the flat map's value |
| ShardedMaps.SkipShardedMap.Delete | cache/skipmap.go:91-100 | the flat map loses the key |
| ShardedMaps.SkipShardedMap.LoadAndDelete | cache/skipmap.go:103-119 | the old value is returned and the key is gone |
| ShardedMaps.SkipShardedMap.Snapshot | cache/skipmap.go:122-151 | a shard's snapshot holds each of its entries once |
| ShardedMaps.SkipShardedMap.RangeKeys | cache/skipmap.go:169-199 | reports entries of the range in shard and key order, at most limit; an entry is missed only behind a refusal of the visitor in its own shard or when the limit was used up before it |
| RangeQueries.ReportedIff | cache/skipmap.go:169-199 | a query whose visitor refuses nothing reports exactly the entries of the range with fewer than limit keys before them |
| RangeQueries.RefusalEndsQueryIff | cache/skipmap.go:169-199 | the first refusal ends a query if and only if it used up the limit or no later shard holds a key of the range |
| RangeQueries.RefusalDoesNotStop | cache/skipmap.go:194-197 | two shards with one entry each: both are visited although the first is refused |
| ShardedMaps.SkipShardedMap.Count | cache/skipmap.go:202-204 | the counter is the size of the flat map |
| ShardedMaps.SkipShardedMap.CountIsTotal | cache/skipmap.go:64-119 | the counter is the sum of the shards' sizes |
| MemoryCaches.MemoryCache.Set | cache/memcache.go:83-90 | one step of the flat TTL map |
| MemoryCaches.MemoryCache.Get | cache/memcache.go:93-112 | answers a live value only, drops an expired one and reports it to the callback |
| MemoryCaches.MemoryCache.GetRange | cache/memcache.go:115-143 | exactly the live entries of the range with fewer than limit keys, live or expired, before them; without a limit, or with the whole range within it, all live entries |
| MemoryCaches.CleaningIsObservedIff | cache/memcache.go:115-143 | a cleaning pass changes a limited answer if and only if some live key of the range has limit keys before it, but not without those the pass removes |
| MemoryCaches.CleaningObserved | cache/memcache.go:115-143 | one expired entry before a live one and limit 1: the live one is answered only after cleaning |
| MemoryCaches.MemoryCache.Del | cache/memcache.go:146-153 | removes the key and hands exactly the removed value to the callback |
| MemoryCaches.MemoryCache.CleanUp | cache/memcache.go:215-228 | exactly the expired entries of all shards are removed and reported |
| TtlMaps.CleaningIsUnobservable | cache/memcache.go:83-228 | in every run under a forward clock, cleaning steps anywhere change no answer of Get or unlimited GetRange |
| TtlMaps.GetAnswersLastSet | cache/memcache.go:83-112 | in every run Get answers the value last Set, during its lifetime and not longer, whatever was looked up, ranged over or cleaned before |
| Filters.SortIsOrderedPermutation | cache/consthash.go:98-100 | sorting the points gives an ordered permutation |
| ConsistentHashing.ConsistentHash.constructor | cache/consthash.go:41-59 | an empty ring; a count of replicas that is not positive becomes the default |
| ConsistentHashing.ConsistentHash.Add | cache/consthash.go:63-101 | returns normally if and only if an earlier registration can be removed; then the ring is the value ring with the node added, well formed; otherwise it is left half removed |
| Rings.ItoaIsDecimal | cache/consthash.go:83 | the index in a virtual node's name is its decimal numeral without leading zeros |
| Rings.VirtualNodesDiffer | cache/consthash.go:83 | different nodes or indexes have different names |
| Rings.AddedPlacesItsPoints | cache/consthash.go:63-101 | a node gets replicas times its weight points, a weight that is not positive counting as 1; point i is the hash of the name with index i; the node owns them all, and they differ if the hash function separates the names |
| ConsistentHashing.ConsistentHash.Remove | cache/consthash.go:104-143 | returns normally if and only if the node has no more different points than the list has entries (line 131 reserves the difference); then the ring is the value ring without the node's points, otherwise only the owners are deleted |
| ConsistentHashing.ConsistentHash.Search | cache/consthash.go:219-236 | the binary search finds where the clockwise order from the hash begins |
| ConsistentHashing.ConsistentHash.Get | cache/consthash.go:146-162 | answers the first owner of the preference list, or the empty string |
| ConsistentHashing.ConsistentHash.GetN | cache/consthash.go:165-202 | within one turn of the ring, the first distinct owners clockwise |
| Rings.RunsKeepInv | cache/consthash.go:63-143 | for every hash function and every run of Add and Remove up to the first panic: points sorted, the same set in list and map, every owner registered with the point |
| Rings.WholeRemovalsNeverPanic | cache/consthash.go:112-143 | runs in which every removed node's points are all still on the ring never panic, so they keep the invariant to the end |
| Rings.ApartNeverPanics | cache/consthash.go:63-143 | so no run panics when no two of its nodes share a hash |
| Rings.HalfRemovedKeepsInvIff | cache/consthash.go:120-131 | after a panic the ring is well formed if and only if none of the node's points was on it |
| Rings.SecondRemovalPanics | cache/consthash.go:131 | two nodes with the same only point: removing both panics |
| Rings.PanicBreaksTheRing | cache/consthash.go:120-131 | a run whose panic leaves a point without an owner |
| Rings.PrimaryOwnsSuccessor | cache/consthash.go:146-162 | Get answers the owner of the cyclic successor of the key's hash |
| Rings.JoiningMovesOnlyToNewNode | cache/consthash.go:63-101 | adding a fresh node changes a key's owner only to that node, collisions included |
| Rings.RemovalDeletesFromPreference | cache/consthash.go:112-202 | removing a node that owns its points deletes it from every clockwise owner list and changes nothing else in it |
| Rings.RemovalLeavesOthersAlone | cache/consthash.go:112-162 | keys of other nodes stay where they were |
| Rings.RemovalIsCleanIff | cache/consthash.go:112-202 | shared points included: removal only deletes the node from every owner list if and only if every point it takes from another node is followed clockwise by a surviving point of that node |
| Rings.AddThenRemove | cache/consthash.go:63-143 | adding a fresh node with fresh points and removing it returns normally and restores all four fields exactly |
| Rings.JoiningInsertsIntoPreference | cache/consthash.go:63-202 | a fresh node with fresh points only inserts itself into every owner list |
| Rings.SharedPointRemovalLosesANode | cache/consthash.go:112-143 | a ring on which the condition fails: removing one of two nodes that share their point takes the other off the ring |
| Rings.PreferenceIsOwners | cache/consthash.go:165-202 | the clockwise owner list holds each node that owns a point exactly once |
| Rings.PreferenceByFirstPoint | cache/consthash.go:188-199 | the j-th node of the list owns the first point clockwise that belongs to none of the nodes before it |
| Rings.ReplicasAreDistinctOwners | cache/consthash.go:165-202 | min(count, nodes) distinct registered nodes, led by Get, a smaller count giving a prefix |
| Rings.GetNEndsIff | cache/consthash.go:188-199 | the endless walk stops if and only if enough different nodes own points |
| Rings.SharedPointQueryNeverEnds | cache/consthash.go:188-199 | on the ring with a shared point a query for two nodes never gets past one |
| NodeShardedCaches.NodeShardedCache.AddNode | cache/nodesharding.go:90-110 | both errors leave everything alone; success registers the node in map and ring, which keep naming the same nodes |
| NodeShardedCaches.NodeShardedCache.RemoveNode | cache/nodesharding.go:113-129 | the node leaves map and ring together; if the ring's removal panics, exactly when it has fewer points than the node has different ones, the node stays registered |
| NodeShardedCaches.NodeShardedCache.GetNodeIDs | cache/nodesharding.go:328-333 | the ring's list names exactly the nodes whose caches are held |
| NodeShardedCaches.NodeShardedCache.NodesFor | cache/nodesharding.go:143-152 | the replicas of a key, or the owner alone when the factor is 1 |
| ReplicaSets.TargetsAreFirstOwners | cache/nodesharding.go:143-152 | the targets are the first distinct nodes clockwise, as many as the factor asks for and there are |
| NodeShardedCaches.NodeShardedCache.Get | cache/nodesharding.go:132-196 | answers v if and only if the first target that is registered, reachable and has the key holds v; otherwise not found |
| NodeShardedCaches.NodeShardedCache.Set | cache/nodesharding.go:199-280 | exactly the caches reached through the key's replicas are written; success if and only if one was reached |
| NodeShardedCaches.NodeShardedCache.Del | cache/nodesharding.go:283-325 | exactly the reached caches lose the key; failure if and only if there were targets and all of them failed |
| NodeShardedCaches.NodeShardedCache.WriteRemoveRead | cache/nodesharding.go:90-280 | a write that reached every replica, then any removals and failures that spare one replica, of nodes whose points are unshared and all on the ring, then a read: the read returns the written value |
| ReplicaSets.RemovalsDeleteFromPreference | cache/consthash.go:112-202 | any sequence of removals of nodes with unshared points deletes exactly these nodes from every owner list |
| ReplicaSets.RemovalsKeepAllOwn | cache/consthash.go:112-143 | and leaves every remaining node owning a point |
| ReplicaSets.RemovalsReturn | cache/consthash.go:112-143 | such removals of nodes whose points are all on the ring never panic |
| ReplicaSets.SurvivingReplicaAnswers | cache/nodesharding.go:90-196 | after the removals the first node asked is a surviving old replica, and the written value is answered for all failures that spare one of these |
| ReplicaSets.LookupAsksFirstHolder | cache/nodesharding.go:174-195 | a lookup finds exactly what the first reachable holder of the key has |
| ReplicaSets.SpareReplicaAnswers | cache/nodesharding.go:174-195 | if the first nodes asked all have the value and one of them is reachable, it is the answer |
| ElectionManagers.ElectionManager.StartElection | cache/cluster/election.go:222-270 | new term, own vote, request with the own log |
| ElectionManagers.ElectionManager.HandleVoteResponse | cache/cluster/election.go:316-370 | counts a vote only in the current candidacy; leads exactly from a majority on, with all other fields unchanged |
| ElectionManagers.ElectionManager.BecomeFollower | cache/cluster/election.go:373-394 | follows the given leader with term and vote unchanged |
| ElectionManagers.ElectionManager.HandleVoteRequest | cache/cluster/election.go:480-572 | the exact condition for a granted vote on terms, earlier vote and logs, and all fields afterwards |
| ElectionManagers.ElectionManager.HandleHeartbeat | cache/cluster/election.go:575-609 | accepted if and only if its term is not old; then term and leader are the sender's, the node follows and its vote stays; a refusal changes nothing |
| ElectionProtocol.StepKeepsInv | cache/cluster/election.go:222-609 | every critical section keeps: votes bind, messages speak the truth, counted votes belong to the current term, wins rest on majorities |
| ElectionProtocol.RunKeepsInv | cache/cluster/election.go:222-609 | the same over every run from the start |
| ElectionProtocol.ElectionSafety | cache/cluster/election.go:222-346 | no run elects two different leaders in one term |
| ElectionProtocol.OneLeaderAtATime | cache/cluster/election.go:316-370 | no moment of a run has two leaders of the same term |
| ElectionProtocol.VoteOncePerTerm | cache/cluster/election.go:480-609 | each voter grants at most one candidate per term in every run |
| ElectionProtocol.WinnerLogIsNewest | cache/cluster/election.go:242-270 | a winner's log at candidacy was at least as new as the log of each of a majority when it voted |
| ElectionProtocol.OwnTermHeartbeatNeverDemotes | cache/cluster/election.go:575-609 | no leader is demoted by a heartbeat of its own term |
| ElectionProtocol.HeartbeatLeadsToWinner | cache/cluster/election.go:575-609 | in every run a node that receives a heartbeat of its own or a later term follows the one winner of that term |
| ElectionProtocol.OneVoteElects | cache/cluster/election.go:316-346 | two or three members can elect a leader with one timeout and one vote |
| Replays.ReplayIsLastWrite | cache/replication/syncer.go:283-327 | after a replay a key holds what its last entry left, or what it held before |
| Replays.ReplaysAgreeIff | cache/replication/syncer.go:283-327 | two logs replay to the same cache if and only if every key's last writes leave the same |
| Replays.ReplayAfterPrefixes | cache/replication/syncer.go:283-327 | replaying a log over a state made by any chain of its prefixes equals replaying it once |
| ReplicationLogs.MemoryReplicationLog.Append | cache/replication/replication_log.go:26-56 | the entry gets the next index and the term counter becomes the larger of itself and the entry's term, which is the last entry's if and only if terms do not fall |
| ReplicationLogs.MemoryReplicationLog.Get | cache/replication/replication_log.go:59-80 | finds the entry with the index if and only if there is one |
| ReplicationLogs.MemoryReplicationLog.GetFrom | cache/replication/replication_log.go:83-114 | the page from an index on, with both error cases |
| ReplicationLogs.Page | cache/replication/replication_log.go:99-113 | a contiguous piece of the log, of min(max, remaining) entries, or all remaining when max is not positive |
| ReplicationLogs.MemoryReplicationLog.GetLastIndex | cache/replication/replication_log.go:117-126 | the last index is the length |
| ReplicationLogs.MemoryReplicationLog.Truncate | cache/replication/replication_log.go:137-169 | keeps exactly the entries up to the index, as a prefix, and the term counter follows |
| Catchups.AbsorbKeepsReplay | cache/replication/syncer.go:283-301 | whatever a replica is sent, its cache stays the replay of its own log |
| Catchups.AbsorbAppends | cache/replication/syncer.go:283-301 | entries that continue the log are copied unchanged |
| Catchups.PageAdvances | cache/replication/syncer.go:213-301 | a page advances by min(max, remaining), keeps the prefix and the replay, and changes nothing on a caught-up replica |
| Catchups.PagesFollow | cache/replication/syncer.go:213-280 | over a whole attempt the replica stays a prefix of the leader's log, however that grows between pages |
| Catchups.PagesConverge | cache/replication/syncer.go:213-280 | enough pages of a log at rest make log and cache equal to the leader's |
| Catchups.FullSyncCopiesIffEmpty | cache/replication/syncer.go:144-155 | a whole paged full sync replays the leader's log over the cache; the follower's log becomes the leader's if and only if it was empty, the cache is right whenever it was the replay of a prefix |
| Catchups.FullSyncDuplicates | cache/replication/syncer.go:144-155 | a one-entry log on which a full sync appends the entry again |
| Catchups.PushesReplayOnce | cache/replication/leader.go:271-299 | repeated pushes from index 1 while the log grows leave the replay of the first max entries |
| Catchups.PushesReachLeader | cache/replication/leader.go:271-299 | so logs of at most max entries are replicated completely |
| Catchups.PushesReachLeaderIff | cache/replication/leader.go:271-299 | for logs of any length: the follower's cache is the leader's replay if and only if no key's last write leaves something else than its last write among the entries sent |
| Catchups.BeyondMaxNeverArrives | cache/replication/leader.go:271-299 | a key first written after entry number max never reaches a follower |
| LeaderWrites.StepKeepsInv | cache/cluster/integration/leader_follower_cluster.go:613-676 | each fine-grained step of any number of writers and of the worker keeps: an idle key's value after draining the queue is the log's |
| LeaderWrites.IdleAgrees | cache/replication/syncer.go:132-141 | between writes the invariant says exactly that the drained cache is the replay of the log |
| LeaderWrites.QuiescentConsistency | cache/replication/syncer.go:132-141 | in every smooth run, applying the pending queue between writes gives the replay of the log, so an empty queue means equality |
| LeaderWrites.OneWriterIsSmooth | cache/cluster/integration/leader_follower_cluster.go:613-676 | any run of a single writer with encodable values and room in the queue is smooth |
| LeaderWrites.OneWriterConsistency | cache/cluster/integration/leader_follower_cluster.go:613-676 | so in every such run the drained cache is the replay of the log between writes, and the cache itself once the queue is empty |
| LeaderWrites.StepKeepsSent | cache/replication/syncer.go:330-392 | every step of overlapping writers keeps: an idle key will hold what was last sent for it |
| LeaderWrites.OverlappingWritersAgreeIff | cache/replication/syncer.go:330-392 | in every run of overlapping writers the drained cache is the replay of what was sent, hence of the log if and only if every key's last sent and last appended entries leave the same |
| LeaderWrites.OverflowHarmlessIff | cache/replication/syncer.go:350-358 | exactly when an entry dropped by a full queue does no harm |
| LeaderWrites.OverflowHappens | cache/replication/syncer.go:350-358 | whatever the capacity, filling the queue and writing once more leaves cache and log different |
| LeaderWrites.UnencodableHarmlessIff | cache/cluster/integration/leader_follower_cluster.go:625-639 | exactly when a value that cannot be marshalled does no harm, whatever ran since its local write |
| LeaderWrites.UnencodableAtOnceHarmlessIff | cache/cluster/integration/leader_follower_cluster.go:615-639 | without interruption: exactly if an entry for the key is queued |
| LeaderWrites.UnencodableHappens | cache/cluster/integration/leader_follower_cluster.go:625-639 | a first Set of such a value leaves cache and log different |
| LeaderWrites.OvertakingWritersDiverge | cache/replication/syncer.go:341-358 | a schedule on which the condition for overlapping writers fails |
| Syncers.MemorySyncer.ApplyEntryToLocal | cache/replication/syncer.go:304-327 | applies Set and Del, refuses other commands without effect |
| Syncers.MemorySyncer.ApplySync | cache/replication/syncer.go:283-301 | applies and appends up to the first refused entry |
| Syncers.MemorySyncer.HandleSyncRequest | cache/replication/syncer.go:540-574 | the page after the requested index with the index to continue from, and the one error |
| Syncers.MemorySyncer.RequestPage | cache/replication/syncer.go:213-280 | one request of an attempt is one page step |
| Syncers.MemorySyncer.ProcessOne | cache/replication/syncer.go:132-141 | one step of the worker; it keeps the leader's invariant, under which an empty queue means that the cache is the replay of the log |
| Syncers.MemorySyncer.Record | cache/replication/syncer.go:330-392 | appends always, queues only when running and not full, and reports the overflow |
| Syncers.LeaderFollowerCluster.Set | cache/cluster/integration/leader_follower_cluster.go:613-651 | local write first; on a leader the log, whose replay then holds the value as text with its lifetime, and the queue if the syncer runs; error if and only if encoding or queueing failed; a success keeps the leader's invariant, so the drained cache is the replay of the log |
| Syncers.LeaderFollowerCluster.Del | cache/cluster/integration/leader_follower_cluster.go:654-676 | the same for deletions: the replay of the log then lacks the key |
| Syncers.WriteReachesFollower | cache/replication/syncer.go:213-301 | a leader's write reaches every follower that copies enough pages, with its value and lifetime |
| Syncers.StoppedWriteKeepsInvIff | cache/replication/syncer.go:346-361 | with the syncer stopped a leader's write keeps the invariant if and only if the last entry queued for the key, or without one the local write, leaves what the recorded entry leaves |
| Syncers.StoppedByteWriteBreaksInv | cache/replication/syncer.go:346-361 | a byte value written with an empty queue breaks it |
| Syncers.LeaderNode.Replicate | cache/replication/leader.go:268-358 | one follower's turn: the first entries of the log are pushed unless the request is lost; its status is normal only if the reply arrived and nothing was refused |
| AccessLists.DoubleLinkedList.constructor | cache/cachememory.go:206-218 | two linked sentinels represent the empty order |
| AccessLists.DoubleLinkedList.Add | cache/cachememory.go:221-252 | the key comes first and nowhere else |
| AccessLists.DoubleLinkedList.Access | cache/cachememory.go:255-272 | a listed key moves to the front, any other changes nothing |
| AccessLists.DoubleLinkedList.Del | cache/cachememory.go:275-285 | the key leaves, the order of the rest stays |
| AccessLists.DoubleLinkedList.Evict | cache/cachememory.go:288-298 | the least recently used key, or the empty string |
| LruSpecs.ShrinkKeepsLongestFittingPrefix | cache/cachememory.go:162-174 | eviction keeps the longest prefix of the recency order that leaves room, or stops at the empty key |
| LruSpecs.EvictionFailsIffBlocked | cache/cachememory.go:162-174 | eviction makes room or empties the cache, except exactly when the empty key is stored and does not fit with the keys used after it |
| LruSpecs.BudgetAfterSet | cache/cachememory.go:156-183 | after a Set the live bytes are within the limit or the new key is alone, unless eviction was blocked |
| LruSpecs.BudgetFailsIff | cache/cachememory.go:156-183 | exactly when they are not: the empty key is stored, does not fit with the keys used after it, and the live bytes of these together with the new value exceed the limit |
| LruSpecs.StepKeepsInv | cache/cachememory.go:61-203 | every operation keeps: the recency order lists exactly the stored keys, and the counter is live bytes plus overwritten bytes |
| LruSpecs.StepOnItems | cache/cachememory.go:156-203 | apart from eviction an operation does to the items what the unbounded cache does |
| LruSpecs.KeysByLastUse | cache/cachememory.go:156-272 | in every run the keys are listed by their last Set or Get in the run, latest first |
| LruSpecs.EvictsLeastRecentlyUsed | cache/cachememory.go:162-174 | a Set evicts only keys last used before every key it keeps |
| LruSpecs.CounterIsLivePlusOverwritten | cache/cachememory.go:61-203 | in every run the counter is the live bytes plus the bytes overwritten in place, so exact without overwrites |
| LruSpecs.BoundedHoldsNothingElse | cache/cachememory.go:156-203 | in every run the bounded cache holds only what the unbounded one holds, with the same value and expiry |
| LruSpecs.EmptyKeyBreaksTheBudget | cache/cachememory.go:164-167 | with only the empty key stored, any value is stored beside it whatever the limit |
| MemoryBoundedCaches.MemCacheMemory.constructor | cache/cachememory.go:48-73 | an empty cache with a counter of 0 |
| MemoryBoundedCaches.MemCacheMemory.OnEvict | cache/cachememory.go:61-70 | the callback gives the bytes back and drops the key from the list |
| MemoryBoundedCaches.MemCacheMemory.MakeRoom | cache/cachememory.go:162-174 | the loop ends and has shrunk the cache as specified |
| MemoryBoundedCaches.MemCacheMemory.Set | cache/cachememory.go:156-183 | one Set step: shrink, count, move to front, store |
| MemoryBoundedCaches.MemCacheMemory.Get | cache/cachememory.go:186-193 | one Get step: a hit comes first and the others keep their order, an expired value is dropped and given back |
| MemoryBoundedCaches.MemCacheMemory.Del | cache/cachememory.go:196-203 | one Del step |
| MemoryBoundedCaches.MemCacheMemory.CleanUp | cache/memcache.go:215-228 | one cleaning pass with the callback for every expired entry |
| RedisLocks.RedisLock.TryLock | distributelock/lock.go:96-130 | when it succeeds, when it fails and how, and what the key then holds, under any network fault |
| RedisLocks.RedisLock.Unlock | distributelock/lock.go:133-157 | removes the key only under the own token; without an answer the client stays locked |
| RedisLocks.RedisLock.Refresh | distributelock/lock.go:160-178 | prolongs the key only under the own token; a refusal ends the lock |
| LeaseProtocol.StepKeepsInv | distributelock/lock.go:96-178 | every step keeps: an unexpired lease is backed by the key with the same expiry |
| LeaseProtocol.LeaseExclusion | distributelock/lua.go:3-26 | in every interleaving at most one client has an unexpired lease |
| LeaseProtocol.TwoLockedOneStale | distributelock/lock.go:96-157 | in every run, of two clients that think they are locked one has a lease that was given up or has run out |
| LeaseProtocol.SecondGrantIff | distributelock/lock.go:96-130 | while another client thinks it is locked, a client is granted the key if and only if its lifetime is positive and no client's token is in the key; the other's lease was then given up or has run out |
| LeaseProtocol.TwoLockedHappens | distributelock/lock.go:96-130 | a run in which two clients think so at once |
| LeaseProtocol.UninterruptedCalls | distributelock/lock.go:133-178 | what a whole Unlock and a whole Refresh do to client and key |
| LeaseProtocol.OthersLeaveLeaseAlone | distributelock/lua.go:12-26 | no step of another client alters an unexpired lease or its key |
| LeaseProtocol.PunctualRefreshKeepsLease | distributelock/lock.go:160-178 | refreshes at most the expiration apart keep the lease, all succeed, and nobody else acquires |
| LeaseProtocol.AcquiredAndRefreshedIsKept | distributelock/lock.go:96-178 | the same from any successful acquisition in any run |
| Suspicions.RunKeepsInv | cache/cluster/membership.go:149-361 | in every run each suspect has a timer and timers exist only for members |
| Suspicions.TimerIsStartOfSuspicion | cache/cluster/membership.go:211-263 | a suspect's timer holds the moment it last left Up, and it has been suspect ever since |
| Suspicions.DownByTimeoutIff | cache/cluster/membership.go:338-361 | a check takes a suspect down if and only if it has been suspect without a break for longer than the limit |
| Suspicions.OnlyTimeoutOrReportTakesDown | cache/cluster/membership.go:247-361 | nothing else takes a node down |
| Suspicions.ReportsTakeEffect | cache/cluster/membership.go:149-263 | what each report does to the node it names |
| Suspicions.UnaccusedStaysUp | cache/cluster/membership.go:149-361 | a node that is up is never suspect or down before it is reported, whatever timers run out |
| Suspicions.AliveInTimeIsSpared | cache/cluster/membership.go:226-361 | a suspect marked alive is not taken down by any later check before it is reported again |
| Memberships.Membership.AddMember | cache/cluster/membership.go:149-187 | a known node comes back up with merged metadata and its timer left alone |
| Memberships.Membership.RemoveMember | cache/cluster/membership.go:190-208 | member and timer go together |
| Memberships.Membership.MarkSuspect | cache/cluster/membership.go:211-223 | only a node that is up, with a fresh timer |
| Memberships.Membership.MarkAlive | cache/cluster/membership.go:226-244 | up again without a timer |
| Memberships.Membership.MarkFailed | cache/cluster/membership.go:247-263 | down, timer kept |
| Memberships.Membership.AddLocalNode | cache/cluster/membership.go:309-317 | the own node is up |
| Memberships.Membership.CheckSuspectedNodes | cache/cluster/membership.go:338-361 | visiting the timers in any order gives the checked view |

## Left out

- Goroutines, mutexes, tickers and timers: critical sections are atomic steps; nothing is said about liveness. `becomeLeader` calls `startHeartbeat`, which locks again (cache/cluster/election.go:349-403), so no claim is made that a leader sends heartbeats.
- HTTP, JSON, the API server, the remote cache client, metrics, events, hit rates and options: plumbing around the core.
- 64-bit overflow of counters, terms, indexes and times: these are unbounded here.
- CRC32, FNV and the reflection-based `sizeOf`: any hash function and any non-negative size; the floating-point rounding of the shard count is the least power of two.
- The `forward` and `update` slices of the skip list are sequences held in fields and locals rather than arrays, so sharing of their storage is not modelled.
- The async cleaner, which acts on a stale snapshot.
- MemoryCaches.MemoryCache.GetRange: does not model the background deletes of expired entries it meets, which act later and on whatever the key then holds.
- Visitors of the skip list and the sharded map are pure functions here. The visitor of the TTL cache's range query, which counts, never refuses before the limit that `RangeKeys` enforces itself.
- ConsistentHashing.ConsistentHash.GetN: requires that enough nodes own points, because otherwise the loop never ends, as `Rings.GetNEndsIff` states.
- A panic ends the call where the code raises it; that a deferred recover elsewhere might go on is not modelled beyond the ring it finds.
- `WithHashReplicas` and `WithCustomHashFunc`: the ring is configured when it is created.
- The caches behind `NodeShardedCache` hold plain maps without expiry, and a failing cache is one that neither answers nor changes.
- Election with membership views that differ or change: quorums come from each node's own list, so safety needs one fixed list. The priority rule is commented out in the code and has no effect.
- Whether `sendSyncRequest` stops (it goes on while the next index is positive, which stays true on a caught-up log), and retries, which start again from the first index of the attempt.
- `CleanupExpiredEntries`, `Serialize` and `Deserialize`: indexes start at 1 here.
- Clocks in replication: a replicated cell keeps the lifetime it was stored with, since nodes start it at different moments. Entry timestamps are left out with it.
- The fan-out of `ReplicateEntries` over followers: each follower's turn touches only that follower.
- MemoryBoundedCaches.MemCacheMemory.CleanUp: the callbacks come after the pass rather than inside it, which is the same without concurrency.
- `RedisLock.Lock`, whose loop does not return after acquiring, and the timing of the watchdog: a refresh may come at any moment. A script runs, if at all, before its call returns.
- Redis expiry is taken at millisecond resolution with the key present up to and including its expiry.
- Gossip, probing, `SyncManager`, consistency strategies and failover: too thin, or too easy to add much.
