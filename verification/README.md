# A verified model of the inference cluster

A Dafny model of the stateful parts of a small LLM-inference cluster, with proofs about whole runs of them:

- the paged KV cache: a fixed pool of blocks with reference counts, a prefix index and copy-on-write, and the
  block tables of many growing sequences on top of it;
- the consistent-hash ring, the heartbeat monitor whose callbacks change the ring, and the router's `route`;
- the token-bucket limiter, the priority queue and the batching scheduler;
- the PID controller and the autoscaler it drives.

Each component is modelled twice. A module of values (`KVPool`, `HashRing`, `RateLimiter`, `Heartbeat`, `Pid`, ...)
says what one call does as a function and proves laws about all runs of it. A module of classes (`KVCache`,
`ConsistentHashing`, `TokenBuckets`, ...) has the fields and in-place methods of the code, loops included; each
method is proved to do to the object's `View()` what the function says. Threads are modelled as steps: a step is one
locked section, or one read or write made without the lock. So `copy_on_write`, the write after it, a submission, the
resolving of a batch and a heartbeat transition with its callback are several steps each, between which other threads run.
Floats are reals; clock readings, probe results, spawn outcomes and model runs are parameters.

| file | source |
|---|---|
| `KVPool.dfy`, `KVCache.dfy`, `KVSteps.dfy`, `KVThreads.dfy` | `core/kv_cache.py`: the pool, its objects, threads sharing it |
| `Sequences.dfy`, `Paging.dfy`, `Capacity.dfy`, `Contents.dfy`, `CacheManager.dfy` | `core/cache_manager.py` |
| `HashRing.dfy`, `ConsistentHashing.dfy` | `router/hash_ring.py` |
| `Heartbeat.dfy` | `router/heartbeat.py` |
| `Router.dfy`, `Cluster.dfy`, `ClusterRuns.dfy`, `ClusterRouting.dfy`, `Routers.dfy` | `router/router.py`: `route`; ring, monitor and callbacks together; callbacks that pass each other; routing in a run; the objects |
| `RateLimiter.dfy`, `PriorityQueue.dfy`, `Scheduler.dfy`, `SchedulerRuns.dfy` | `scheduler/` |
| `Pid.dfy`, `Autoscaler.dfy` | `metrics/pid.py`, `metrics/autoscaler.py` |
| `Wrappers.dfy`, `Reals.dfy`, `Decimal.dfy`, `Bags.dfy`, `Seqs.dfy` | shared definitions |

`dafny verify --verification-time-limit 0 dfyconfig.toml` checks the whole project.

## Where the code and its documentation disagree

The model follows the code.

- `get_kv` says it returns `num_cached_tokens` columns. That is so exactly when every token that starts a block is
  appended once (`Paging.ShapeExactly`); one append per layer and head, as a real model would make, already breaks it
  at the first token (`Paging.ShapeFails`).
- `copy_on_write` says it gives a block safe to write to. Its unlocked test leaves a window: another thread can come
  to share the block before the write exactly when the block is prefix-registered (`KVThreads.WriteWindow`).
- The monitor says it acts on consecutive results. That holds exactly for thresholds of at most two; above that a net
  count over a window is enough (`Heartbeat.ConsecutiveExactly`). The router uses a failure threshold of three.
- Callbacks run in threads of their own. If two callbacks of one node pass each other, a healthy worker can end up
  off the ring with nothing pending, and stays off while it stays healthy (`ClusterRuns.PassingLosesWorker`).
- `route` says "no healthy workers available" when it fails. It looks at as many candidates as there are
  `WORKER_NODES`, so with autoscaled nodes on the ring it can fail while one is healthy (`Router.ServesExactly`).
- `get_nodes_for_key` says it returns n nodes; with `n` below one it returns all of them (`HashRing.AnswerSize`).
- The PID class comment gives the error as target less measured; the code computes measured less target.
- The autoscaler says it stops the least-busy worker; the code stops the oldest it owns.

## Model

| member | source | states |
|---|---|---|
| KVPool.TakeConsistent | core/kv_cache.py:56-66 | a block handed out was held by nobody, gets one reference and moves no other block; the pool is exhausted exactly when every block is held |
| KVPool.ReleaseConsistent | core/kv_cache.py:68-75 | giving up one handle keeps counts, free list and prefix index in agreement and touches no contents |
| KVPool.TakeThenRelease | core/kv_cache.py:56-75 | releasing the block just taken undoes the take completely, the order of the LIFO free list included |
| KVPool.PrefixConsistent | core/kv_cache.py:79-101 | a hit shares a block registered under that hash, a miss registers a fresh one; agreement is kept in both cases |
| KVPool.CopyOnWriteConsistent | core/kv_cache.py:105-135 | uninterrupted, copy-on-write trades the caller's handle for a block nobody else holds with the same contents, and leaves every other held block's contents alone; it fails only with every block held by others |
| KVPool.ReleaseAllConsistent | core/cache_manager.py:81-85 | releasing a whole table gives up one handle per entry and changes no contents |
| KVPool.UsedBlocks | core/kv_cache.py:139-148 | pool size less free-list length is the number of blocks somebody holds |
| KVPool.Drained | core/kv_cache.py:68-75 | with no handles left the whole pool is free and no prefix is registered |
| KVThreads.StepKeepsInv | core/kv_cache.py:105-135 | every step of every thread keeps reference counts equal to handle counts, the free list duplicate-free and exactly the zero-count blocks, and prefix index and prefix hashes mutual inverses |
| KVThreads.EveryRunAccounts | core/kv_cache.py:56-135 | that agreement over every schedule of any number of threads on a pool of num_blocks blocks; releasing all handles frees the pool and empties the index |
| KVThreads.CallsTakeEffect | core/kv_cache.py:56-101 | what allocate, free and a prefix lookup give to and take from the calling thread, the block handed out being one nobody held |
| KVThreads.CanDrain | core/kv_cache.py:56-135 | from every state of every schedule, threads in the middle of copy_on_write included, some continuation gives every handle back and ends with the whole pool free: no block is lost for good |
| KVThreads.OnlyRegisteredWritesLeak | core/kv_cache.py:105-135 | the only step that changes contents another thread's handle sees is a step of an in-place write to a block still registered under a prefix |
| KVThreads.UnregisteredStaysPrivate | core/kv_cache.py:79-135 | while a thread holds an unregistered block, no run of the others registers or shares it |
| KVThreads.WriteWindow | core/kv_cache.py:111-112 | while a thread holds a block, and so between the unlocked test and the write, each other thread, idle or busy, can come to share it if and only if the block is prefix-registered |
| KVThreads.RaceBreaksIsolation | core/kv_cache.py:105-112 | in every such state one prefix lookup makes the pending write show through another thread's handle |
| KVThreads.RegisterAndTest | core/kv_cache.py:79-112 | such states arise whenever a thread registers a new prefix and asks to write to its block |
| KVThreads.Uninterrupted | core/kv_cache.py:105-135 | run without interference, the seven steps of copy_on_write and the write after it are the single call of KVPool and one slot write |
| KVCache.PhysicalBlock.constructor | core/kv_cache.py:20-27 | a new block has no references, no prefix and zeroed tensors |
| KVCache.BlockAllocator.constructor | core/kv_cache.py:37-52 | the pool starts with every block free, the highest id on top of the stack |
| KVCache.BlockAllocator.Allocate | core/kv_cache.py:56-66 | the object's allocate is KVPool.Allocate; a failed call changes nothing |
| KVCache.BlockAllocator.Free | core/kv_cache.py:68-75 | the object's free is KVPool.Release |
| KVCache.BlockAllocator.GetOrCreatePrefixBlock | core/kv_cache.py:79-101 | the object's prefix lookup is KVPool.GetOrCreatePrefix, hit flag included; a failed call changes nothing |
| KVCache.BlockAllocator.CopyOnWrite | core/kv_cache.py:105-135 | the three parts run in sequence are KVPool.CopyOnWrite; a failed call changes nothing |
| Sequences.AppendIsolated | core/cache_manager.py:27-48 | an append leaves every block held through another handle and the writer's earlier entries unchanged, writes exactly one slot, fails exactly when it needs a block and none is free, and then changes nothing |
| Paging.AppendPages | core/cache_manager.py:27-48 | what one append does to the table's contents, through whichever of allocation, copy-on-write or in-place write it takes |
| Paging.GrowExactly | core/cache_manager.py:35-51 | a history of tokens fits if and only if the pool has as many free blocks as its appends take, and then takes exactly those |
| Paging.PagedLaw | core/cache_manager.py:17-79 | for every history of tokens with one or more appends each, and room for it: success, block count, width of get_kv, and the column where every write not overwritten within its own token reads back; other holders' blocks untouched |
| Paging.ShapeExactly | core/cache_manager.py:53-57 | get_kv has num_cached_tokens columns if and only if every token that starts a block is appended once |
| Paging.ShapeFails | core/cache_manager.py:53-57 | in a fresh pool one token appended to two heads takes two blocks and gives 1 + block_size columns |
| Paging.UniformLaw | core/cache_manager.py:22-37 | w appends per token use w * ceil(n / block_size) blocks and give width n + (w - 1) * ceil(n / block_size) * block_size |
| Paging.RoundTrip | core/cache_manager.py:17-79 | n tokens appended once each, into a pool with ceil(n / block_size) free blocks, read back as exactly the n K and V vectors in order, from that many blocks |
| Paging.RowIsTokens | core/cache_manager.py:53-79 | the same for any state so paged, whatever pool it grew in |
| Paging.GatherStep | core/cache_manager.py:66-78 | one more block extends every head's row by that block's tokens |
| Capacity.UsedIsDemand | core/cache_manager.py:81-118 | blocks in use are the sum of ceil(tokens / block_size) over the live sequences |
| Capacity.AddTokenRefused | core/cache_manager.py:35-51 | a token is refused if and only if its sequence needs a block and that sum equals num_blocks; a refusal changes nothing |
| Capacity.FreedExactly | core/cache_manager.py:81-118 | free_sequence takes exactly that sequence out, appends exactly its blocks to the free list and lowers the demand by ceil(tokens / block_size); an unknown id changes nothing |
| Capacity.CapacityLaw | core/cache_manager.py:81-118 | over every interleaving of create, token and free on num_blocks blocks: the live ids are those created and not freed since, used blocks are the sum of the ceilings, refusals are exact, and with no sequence left every block is free |
| Capacity.AllFreed | core/cache_manager.py:105-118 | a run that frees every id after creating it ends with no sequence and all num_blocks free |
| Contents.ContentsLaw | core/cache_manager.py:17-118 | after every such interleaving each live sequence has the paged layout of exactly the writes accepted for it since it was created, so they read back whatever the other sequences did |
| CacheManager.SequenceCache.TokensInLastBlock | core/cache_manager.py:17-20 | agrees with its definition on values |
| CacheManager.SequenceCache.LastBlockFull | core/cache_manager.py:22-25 | agrees with its definition on values |
| CacheManager.SequenceCache.AppendTokenKv | core/cache_manager.py:27-48 | the object's append is Sequences.Append; false stands for MemoryError |
| CacheManager.SequenceCache.IncrementTokenCount | core/cache_manager.py:50-51 | counts one token more and changes nothing else |
| CacheManager.SequenceCache.GetKv | core/cache_manager.py:53-79 | the loop over the table returns, head by head, Paging.GetKV |
| CacheManager.SequenceCache.Free | core/cache_manager.py:81-85 | releases every entry in order and leaves an empty sequence |
| CacheManager.CacheManager.CreateSequence | core/cache_manager.py:105-110 | a new id gets an empty sequence; null stands for ValueError, is given exactly for an id in use, and changes nothing |
| CacheManager.CacheManager.PopSequence | core/cache_manager.py:116-116 | takes one sequence out of the table, or finds none, and leaves the others as they are |
| CacheManager.CacheManager.FreeSequence | core/cache_manager.py:115-118 | the id leaves the table and its blocks go back to the free list; other sequences stay, an unknown id is ignored |
| HashRing.SortedUnique | router/hash_ring.py:54-54 | the sorted list is determined by its elements, ties included |
| HashRing.AddNodeInv | router/hash_ring.py:46-54 | add_node keeps the list the sorted multiset of all registered nodes' virtual nodes |
| HashRing.AddedEntries | router/hash_ring.py:46-54 | a new node brings exactly vnodes_per_node * weight entries, the i-th at the hash of node_id:vnode:i |
| HashRing.RemoveNodeInv | router/hash_ring.py:56-66 | so does remove_node |
| HashRing.RunInv | router/hash_ring.py:46-66 | so does every run of both, hash collisions included |
| HashRing.HistoryIndependence | router/hash_ring.py:46-66 | runs that leave the same nodes registered leave the same list |
| HashRing.AddThenRemove | router/hash_ring.py:46-66 | adding a new node and removing it restores the list exactly, and so does removing and re-adding |
| HashRing.EntriesRegistered | router/hash_ring.py:81-82 | no lookup misses the node table |
| HashRing.EntriesPerNode | router/hash_ring.py:13-13 | a node owns weight * vnodes_per_node entries, colliding ones included |
| HashRing.LookupIsLeast | router/hash_ring.py:68-82 | the bisect lookup finds the one entry least in position, then id, at or after the key's hash, or the least of all when there is none |
| HashRing.StringLeqIs | router/hash_ring.py:54-54 | ids that share a position are ordered as Python orders strings: a prefix first, otherwise by the first difference |
| HashRing.OwnerIsFirst | router/hash_ring.py:68-102 | get_node's answer heads get_nodes_for_key; it is None exactly on an empty list |
| HashRing.OrderIsAllNodes | router/hash_ring.py:84-102 | a key's preference order holds every registered node exactly once |
| HashRing.LimitLaw | router/hash_ring.py:84-102 | n at least one gives min(n, nodes) distinct nodes, owner first, each shorter answer a prefix of the longer |
| HashRing.AnswerSize | router/hash_ring.py:84-102 | how many nodes come back for every int n: n only if 1 <= n <= number of nodes, all of them for n below one |
| HashRing.RemoveDeletes | router/hash_ring.py:56-66 | remove_node deletes the node from every key's preference order and changes nothing else |
| HashRing.RemoveRemaps | router/hash_ring.py:29-30 | keys of a removed node go to the old second entry; every other key keeps its owner |
| HashRing.AddRemaps | router/hash_ring.py:29-30 | adding a node moves a key only to the added node |
| ConsistentHashing.ConsistentHashRing.constructor | router/hash_ring.py:38-42 | starts as the empty ring |
| ConsistentHashing.ConsistentHashRing.AddNode | router/hash_ring.py:46-54 | the insort loop is HashRing.AddNode and keeps the ring's invariant; the list gains the new node's entries and nothing else |
| ConsistentHashing.ConsistentHashRing.RemoveNode | router/hash_ring.py:56-66 | the removal set and filter are HashRing.RemoveNode and keep the invariant |
| ConsistentHashing.ConsistentHashRing.GetNode | router/hash_ring.py:68-82 | bisect with wraparound is HashRing.GetNode |
| ConsistentHashing.ConsistentHashRing.GetNodesForKey | router/hash_ring.py:84-102 | the walk returns the records of the first n of the key's preference order |
| Heartbeat.TransitionSettles | router/heartbeat.py:135-155 | a callback is raised exactly on a change of status; UNHEALTHY is entered only from HEALTHY |
| Heartbeat.ContraryIsMaxNet | router/heartbeat.py:135-155 | the streak counted against a status is the greatest net count of contrary results over the windows ending now |
| Heartbeat.TransitionLaw | router/heartbeat.py:135-155 | a HEALTHY node goes down if and only if some window ending with the result holds failure_threshold more failures than successes, and any other comes up if and only if one holds recovery_threshold more successes than failures |
| Heartbeat.ConsecutiveSuffices | router/heartbeat.py:20-21 | after any history, threshold consecutive failures leave a node not HEALTHY and threshold consecutive successes leave it HEALTHY |
| Heartbeat.ConsecutiveExactly | router/heartbeat.py:20-21 | transitions need threshold results in a row if and only if the threshold is at most two |
| Heartbeat.Dipped | router/heartbeat.py:135-155 | for any larger threshold, a run of results that fires without being in a row |
| Heartbeat.EventsAlternate | router/heartbeat.py:140-155 | callbacks of one registration alternate, starting with up, and tell the status |
| HeartbeatMonitors.HeartbeatMonitor.Register | router/heartbeat.py:47-56 | a registered node starts UNKNOWN with no streak and no counts, even if it was known |
| HeartbeatMonitors.HeartbeatMonitor.Check | router/heartbeat.py:109-155 | one check updates only that node, by the state machine, with its counters and callback; an unknown id changes nothing |
| Router.RouteIsHealthyOwner | router/router.py:125-134 | for one snapshot, route gives the key's owner in the ring without its unhealthy nodes whenever a candidate is healthy, and fails otherwise |
| Router.ServesExactly | router/router.py:130-134 | route answers every snapshot with a healthy ring node if and only if the ring holds at most as many nodes as candidates are asked for |
| Router.Affinity | router/router.py:204-205 | if w served a key in one snapshot, is healthy on the ring in another, and no node healthy on that ring is new, then the other answers w unless it sees no healthy candidate |
| Router.OwnerStays | router/hash_ring.py:68-82 | the owner of a key stays its owner on every smaller ring it is on |
| Router.RemoveAllOrder | router/hash_ring.py:56-66 | removing several nodes deletes exactly them from every preference order |
| Cluster.StartLaw | router/router.py:88-92 | start-up puts on the ring and registers exactly the configured ids, the first of several with one id |
| Cluster.WorkerHistory | router/heartbeat.py:109-155 | whatever else happens, a configured worker's record is its own probe results run through the state machine |
| Cluster.MembershipLaw | router/router.py:47-59 | in any delivery order: on the ring exactly when the last delivered callback is not Down, not UNHEALTHY exactly when the last raised is not Down |
| Cluster.InOrderLaw | router/router.py:47-59 | with each worker's callbacks in order and none pending, a configured worker is on the ring if and only if it is not UNHEALTHY, whatever autoscaler steps interleave |
| ClusterRuns.AgreeExactly | router/router.py:47-59 | in any delivery order membership and status agree if and only if the last callback delivered and the last raised are of the same kind |
| ClusterRuns.Frozen | router/router.py:47-59 | with no callback of a worker pending, its membership does not change while its status does not |
| ClusterRuns.PassingLosesWorker | router/router.py:51-58 | with the router's thresholds, two callbacks that pass each other leave a HEALTHY worker off the ring with nothing pending, and off it stays in every continuation in which it stays HEALTHY |
| ClusterRuns.JoinThenLeave | metrics/autoscaler.py:198-245 | a worker the autoscaler adds is on the ring and watched as UNKNOWN, and taking it off restores the ring; nothing else is touched |
| ClusterRouting.RingRecovers | router/router.py:47-59 | whatever failures, recoveries and autoscaler steps came before, the settled ring is the start-up ring of the workers not UNHEALTHY and the nodes the autoscaler added |
| ClusterRouting.ExtrasExist | metrics/autoscaler.py:198-214 | every ring of a run has such a list of added nodes |
| ClusterRouting.OrderFits | router/router.py:130-130 | without autoscaled workers a preference order is never longer than WORKER_NODES |
| ClusterRouting.RouteLaw | router/router.py:125-134 | in a settled run, autoscaled nodes included, a request goes where it would in a ring made of the HEALTHY nodes alone whenever a candidate is HEALTHY, and fails otherwise |
| ClusterRouting.ColdStart | router/router.py:125-134 | right after start-up, before any probe has succeeded, every request fails |
| ClusterRouting.RouteWhole | router/router.py:125-134 | with no proviso as long as the ring is not larger than WORKER_NODES |
| ClusterRouting.RouteServes | router/router.py:125-134 | it then fails exactly when no node, configured or added, has status HEALTHY |
| ClusterRouting.SessionAffinity | router/router.py:204-205 | over two moments of any two settled runs without autoscaled workers: a worker that served a session serves it again if it is HEALTHY and no worker HEALTHY now was not HEALTHY then |
| Routers.Router.constructor | router/router.py:39-92 | the objects after start-up are the model's start state; the autoscaler counts every worker and its next port is above all of theirs |
| Routers.Router.RegisterAll | router/router.py:88-92 | the start-up loop registers every worker with ring, monitor and autoscaler |
| Routers.Router.CheckNode | router/heartbeat.py:109-155 | a check is the model's Probe step, a raised callback becoming a pending thread |
| Routers.Router.OnNodeDown | router/router.py:51-54 | removes the node from the ring |
| Routers.Router.OnNodeUp | router/router.py:55-58 | re-adds the configured record; an id not in WORKER_NODES changes nothing |
| Routers.Router.RunCallback | router/heartbeat.py:142-155 | running a callback thread is the model's Deliver step |
| Routers.Router.AddToRing | metrics/autoscaler.py:198-214 | an autoscaled worker joins the ring and is then watched with a fresh record; no other node or record changes |
| Routers.Router.Route | router/router.py:125-134 | the early-return search returns the first candidate whose record has status HEALTHY, and none exactly when no candidate's has |
| RateLimiter.LevelIsLeastRoom | scheduler/rate_limiter.py:27-46 | the token count is the least that any window of past operations leaves of capacity + rate * elapsed, and some window attains it |
| RateLimiter.SlidingWindow | scheduler/rate_limiter.py:34-46 | an acquire is allowed if and only if for every earlier operation the cost admitted since plus its own is at most capacity + rate * elapsed |
| RateLimiter.BurstBound | scheduler/rate_limiter.py:12-15 | no stretch of calls is granted more than capacity + rate * elapsed |
| RateLimiter.StatsNeverDecide | scheduler/rate_limiter.py:48-61 | the refills made by stats() never change a decision |
| RateLimiter.GreedyIsAcquire | scheduler/rate_limiter.py:34-46 | unit acquires decide as the greedy policy does, call after call |
| RateLimiter.GreedyOptimal | scheduler/rate_limiter.py:34-46 | at every moment the bucket has admitted at least as many unit requests as any policy that never overdraws, and is one itself |
| TokenBuckets.TokenBucket.constructor | scheduler/rate_limiter.py:18-25 | starts full with zero counters |
| TokenBuckets.TokenBucket.Refill | scheduler/rate_limiter.py:27-32 | the level becomes min(capacity, level + rate * elapsed), which is RateLimiter.Refill |
| TokenBuckets.TokenBucket.Acquire | scheduler/rate_limiter.py:34-46 | after that refill the cost is taken if the level covers it and refused if not, with the counter of the outcome increased; it is RateLimiter.Acquire |
| TokenBuckets.TokenBucket.ReadStats | scheduler/rate_limiter.py:48-61 | refills and leaves both counters alone |
| Requests.NoOvertaking | scheduler/priority_queue.py:22-27 | when a request is popped, every request of a smaller priority number, or of the same one and an earlier arrival, pushed before has already left |
| Requests.TakeNext | scheduler/priority_queue.py:61-67 | popping one more smallest keeps a batch the smallest requests in order |
| Requests.BatchIsPops | scheduler/priority_queue.py:61-67 | what pop_batch takes is a run of single pops of a smallest request, so NoOvertaking covers batches |
| Requests.BatchKeys | scheduler/priority_queue.py:61-67 | a batch is in order of priority and then arrival, and so is every request of it before every one left behind |
| PriorityQueues.PriorityQueue.Push | scheduler/priority_queue.py:45-48 | the heap keeps its order and holds exactly one request more |
| PriorityQueues.PriorityQueue.Pop | scheduler/priority_queue.py:50-59 | takes a request of least priority number, and among those of earliest arrival, and nothing else, or finds the queue empty |
| PriorityQueues.PriorityQueue.PopBatch | scheduler/priority_queue.py:61-67 | returns the min(max_size, size) smallest in order, nothing lost or duplicated |
| PriorityQueues.RootIsSmallest | scheduler/priority_queue.py:59-59 | the root of a heap is a minimum of its contents |
| Scheduling.ProcessLaw | scheduler/scheduler.py:116-138 | the i-th future of a batch gets the i-th result, or all get the error; no other future changes; batch and requests are counted |
| SchedulerRuns.ResolvedOnce | scheduler/scheduler.py:75-138 | a settled future never changes again |
| SchedulerRuns.OwnAnswers | scheduler/scheduler.py:116-127 | in every interleaving, each future of the batch reached so far holds the result of its own position, or the error when the run raised |
| SchedulerRuns.ExactlyOnce | scheduler/scheduler.py:75-138 | in every interleaving each request is in exactly one of entering, queued, in the batch unresolved (once in all) and settled, a rate-limited one never queued; requests_processed counts the accepted requests resolved at every boundary of the loop; batches respect max_batch_size |
| SchedulerRuns.NeverStuck | scheduler/scheduler.py:94-138 | while a request is in hand some step for it is enabled |
| SchedulerRuns.DrainLaw | scheduler/scheduler.py:75-138 | once submissions stop at most a fixed number of steps remain, and when none is left every accepted request has its answer or its error |
| SchedulerRuns.AdmissionIsGreedy | scheduler/scheduler.py:80-90 | the limiter sees one unit acquire per submission and exactly those allowed are accepted |
| SchedulerRuns.AdmissionOptimal | scheduler/scheduler.py:80-90 | at every moment the scheduler has accepted at least as many requests as any non-overdrawing policy |
| Schedulers.Scheduler.constructor | scheduler/scheduler.py:29-55 | starts with an empty queue and a full bucket |
| Schedulers.Scheduler.SubmitRequest | scheduler/scheduler.py:75-90 | is the model's Admit step, followed by Enqueue when the limiter allows it |
| Schedulers.Scheduler.TakeRequest | scheduler/scheduler.py:98-112 | is the model's Take step of a smallest request, or finds none |
| Schedulers.Scheduler.CollectBatch | scheduler/scheduler.py:97-112 | the collecting loop takes the smallest queued requests in order, and stops only when the batch is full, the time is up or none is left |
| Schedulers.Scheduler.ProcessBatch | scheduler/scheduler.py:116-138 | gives the i-th future the i-th result, or every one the error, and leaves the others; it is the model's Answer, a Settle for every future in batch order, and Tally |
| Schedulers.Scheduler.SettleFuture | scheduler/scheduler.py:122-127 | is one Settle step: the future at that position gets the result at that position |
| Schedulers.Scheduler.CountBatch | scheduler/scheduler.py:130-132 | is the Tally step |
| Schedulers.Scheduler.WorkerTurn | scheduler/scheduler.py:94-114 | one turn of the worker loop resolves exactly the batch collected, each request with its own result of the model run |
| Schedulers.Scheduler.WorkerLoop | scheduler/scheduler.py:94-114 | with a turn for every request queued the loop empties the queue and leaves every accepted request resolved |
| Pid.IntegralInRange | metrics/pid.py:69-76 | the integral stays within plus or minus integral_max, and in [0, integral_max] while the depth never falls below target |
| Pid.IntegralWithinArea | metrics/pid.py:59-76 | over every run the integral is at most the area swept by the error, and on one never below target lies between zero and the area under it: clamp and leak only pull it towards zero |
| Pid.IntegralIsArea | metrics/pid.py:59-76 | the bound is attained while neither acts |
| Pid.IntegralExactly | metrics/pid.py:59-76 | after an update the integral is the value within plus or minus integral_max nearest to the old one plus error times dt, 95 percent of it for an error below a half |
| Pid.LowOutputExactly | metrics/pid.py:67-81 | the output is at or below a threshold if and only if the error fell by at least (kp * e + ki * integral - threshold) * dt / kd, and never leaves its limits |
| Pid.HighOutput | metrics/pid.py:57-93 | over every run, a depth that has not fallen and whose proportional term reaches a threshold gets an output that does |
| Pid.RisingLoadNeverLow | metrics/pid.py:57-93 | over every run, a negative threshold is reached only on a fall of the depth |
| Pid.QuietOutput | metrics/pid.py:73-81 | the n-th zero-error tick in a row outputs at most ki * integral_max * 0.95^n |
| Pid.TenQuietTicks | metrics/pid.py:73-81 | with the router's gains the tenth such tick and all later ones stay below 0.6 |
| PidControllers.PIDController.Update | metrics/pid.py:57-93 | is Pid.Update; the tick is recorded in a history of at most 200 |
| PidControllers.PIDController.Reset | metrics/pid.py:95-99 | back to the state at creation, at the current time |
| Autoscaler.FleetLaw | metrics/autoscaler.py:78-252 | over every run after start-up, spawn failures included: headcount keeps its limits, the stopped workers are a prefix of the started (oldest first), workers started elsewhere are never stopped |
| Autoscaler.TickDecides | metrics/autoscaler.py:110-252 | outside the cooldown a high output with room starts a worker on the next port, otherwise a low output with one to spare stops the oldest owned worker, each logged and stamped; in every other case nothing changes |
| Autoscaler.RisingLoadGrows | metrics/autoscaler.py:126-127 | over every run of load that never falls, a tick whose proportional term reaches the threshold starts a worker whenever there is room and no cooldown |
| Autoscaler.ThirdWorker | router/router.py:63-83 | with the router's settings, ten requests waiting five seconds after start-up bring worker-auto-8003 |
| Autoscaler.RegisterCounts | metrics/autoscaler.py:78-85 | a registered worker is counted once, the others keep their places, and the next port is above its own |
| Autoscaler.PacingLaw | metrics/autoscaler.py:110-147 | successive scale events are a cooldown apart, a span T holds at most floor(T / cooldown) + 1, spawned ports strictly increase above every registered port |
| Autoscaler.RisingLoadKeepsWorkers | metrics/autoscaler.py:110-129 | over a whole run, load that never falls never costs a worker |
| Autoscaler.ShrinkMeansDrop | metrics/autoscaler.py:128-129 | a tick that stops a worker saw the depth fall by at least (kp * e + ki * integral - threshold) * dt / kd |
| Autoscaler.QuietLoadNeverGrows | metrics/autoscaler.py:126-127 | with the router's settings, from the tenth tick in a row that finds the queue empty no tick adds a worker |
| Autoscalers.AutoscalerLoop.RegisterExisting | metrics/autoscaler.py:78-85 | a new id joins at the end, a known one keeps its place, and the next port moves past its port |
| Autoscalers.AutoscalerLoop.Tick | metrics/autoscaler.py:110-129 | takes exactly the decision of TickDecides on the output of the controller for this depth, and is one step of the model's loop |
| Autoscalers.AutoscalerLoop.ScaleUpNow | metrics/autoscaler.py:133-160 | uses up the port and logs the event before the spawn; a failed spawn adds no worker |
| Autoscalers.AutoscalerLoop.ScaleDownNow | metrics/autoscaler.py:224-252 | removes the first owned worker in insertion order; with none owned nothing happens |

## Left out

- HTTP endpoints, process spawning, logging and start-up scripts (`server/api.py`, `start_cluster.py`, `forward`): a
  probe is a boolean parameter and a spawn a success flag.
- `core/model.py`, `core/attention.py`, tokenising and tensor padding: `_run_batch` is only "one result per request,
  or raises".
- `metrics/collector.py`, `distribution()` and MD5: the hash is an arbitrary function onto 32-bit positions, and
  evenness is statistical.
- Rounded and derived figures of the stats dictionaries, total tokens and latency counters: reporting only.
- Rounding to the tensors' dtype: vectors are stored as given. A head_dim check on them is not modelled either.
- Tensors are value fields of a block, replaced whole on a write; nothing else in the code aliases a block's tensors.
- CacheManager.SequenceCache.AppendTokenKv: a layer or head index outside the tensor writes nothing and answers true, where the code raises IndexError after the block was already taken.
- KVThreads.StepKeepsInv: a thread gives up only handles it holds; freeing a block twice is a caller's error the code does not detect.
- KVThreads.StepKeepsInv: reading `ref_count` without the lock is one atomic read.
- Capacity.CapacityLaw: one append per token and no prefix clients of the pool, as its statement needs; KVThreads and Sequences cover shared blocks.
- Contents.ContentsLaw: the same; layers and heads of the writes exist.
- The `weight` and `vnodes_per_node` of a ring do not change while nodes are registered; both at least one is required
  only where a lemma says every registered node is present.
- Cluster.MembershipLaw: ids of autoscaled workers differ from the configured ones; `_register_when_ready` may add a node after scale-down removed it, which Join and Leave in any order allow, so nothing is claimed about autoscaled members.
- ClusterRouting.SessionAffinity: for runs without autoscaled workers; Router.Affinity is for any two snapshots.
- `heapq` is modelled with swaps instead of its hole-moving assignments; the resulting heap is a heap of the same contents.
- PriorityQueues.PriorityQueue.Pop: waiting and timeouts are not modelled; an empty queue answers at once.
- Schedulers.Scheduler.CollectBatch: submissions that arrive while a batch is collected are steps of module Scheduling, not of this method.
- Schedulers.Scheduler.WorkerTurn: likewise for submissions during a turn.
- Schedulers.Scheduler.WorkerLoop: likewise; SchedulerRuns.DrainLaw is for every interleaving.
- SchedulerRuns.ExactlyOnce: each request object is submitted once, and callers do not cancel futures.
- The clock of a scale event is the reading stored in `_last_scale`; the code reads it once more for the event's `ts`.
- Heartbeat.TransitionLaw: thresholds are at least one, being counts of checks; the code does not refuse zero, which acts as one.
- Autoscaler.FleetLaw: ids of workers started elsewhere are not of the form `worker-auto-<port>`.
- Retuning gains and cooldown at run time (`/autoscaler/config`): gains and limits are fixed during a run.
- Some long methods are split (`WriteLast`, `UnshareLast`, `CatRows`, `InsertVnodes`, `WalkFrom`, `SinkRoot`,
  `TakeFurther`, `ResolveBatch`, `SettleFuture`, `Remember`, ...); each part is a stretch of the code's own method.
