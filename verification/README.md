# UltraBalancer, verified in Dafny

A model of the hard core of UltraBalancer, a load balancer in C and C++, with proofs of what it keeps over
every run. Each component has a specification (datatypes, functions and lemmas; files ending in `Spec`)
and, where the source works by changing things in place, classes and loops proved to refine it.

| component | files |
|---|---|
| relay: one connection, the worker's event loop, deferred reclamation | `RelaySpec`, `RelayRun`, `RelayClose`, `RelayWorker`, `CleanupQueue` |
| response cache: hash chains and an LRU list over the same entries | `CacheSpec`, `CacheAnswers`, `CacheHash`, `CacheLists`, `CacheStore` |
| database: connection pool, session router, packet inspection | `DbPoolSpec`, `DbPool`, `DbUpkeep`, `DbLeak`, `DbRouterSpec`, `DbRouting`, `DbRouter`, `DbStray`, `DbProtocol` |
| memory pool: first fit over a free list threaded through freed blocks | `MemorySpec`, `MemoryPool` |
| HTTP/1 header and chunk parser | `HttpLines`, `HttpFields`, `HttpNumbers`, `HttpSpec`, `HttpResume`, `HttpCuts`, `HttpFraming`, `HttpMessage`, `HttpParser` |
| admission and selection: token buckets, weighted choice, round robin | `RateSpec`, `RateLimiter`, `WeightedSpec`, `RouteChoice`, `RoundRobinSpec`, `Balancer` |
| health: rise and fall of a server | `HealthSpec`, `HealthCheck` |

The world outside the code enters as parameters: what `recv`, `send`, `accept`, `connect` and `epoll_wait`
returned, the time of each call, random draws, whether a pooled connection still works, the keyword
classification of SQL text. Theorems quantify over all of them. Unsigned integers that wrap in the source
wrap in the model; signed sums and products that leave their range, whose overflow C++ leaves undefined, are
taken to wrap as well. Times are integers; the clock of the token buckets counts nanoseconds.

## Main results

- No lost wakeups, intact streams, exact statistics and single reclamation hold together at every wait of
  every run of one worker (`RelayRun.RunKeeps`). An event closes its connection exactly when it is a hang-up, a
  socket fails, memory or a backend is lacking, or the stream ends (`RelayClose.ClosesExactly`). A stream of
  distinct bytes stays in order in a handler call exactly when the call writes no new byte past a waiting one
  (`RelaySpec.OrderExactly`). Reclamation after a batch is safe for every run exactly when a batch has at most
  1024 events; the source asks for up to 10000 (`RelayRun.SafeBatchSize`).
- A cache lookup after any run is the newest stored insert of its key exactly while that one is cached and
  alive (`CacheSpec.NeverStale`), with exactly the key, value, size and lifetime it was given
  (`CacheAnswers.AnswerIsLastPut`). The published size is the sum of the entries in every run exactly when the
  two limits together fit 32 bits (`CacheSpec.BooksExactly`); with such limits the published count is their
  number in every run exactly when no insert is empty (`CacheSpec.CountExactly`). The eviction loop spins
  exactly when no number of evictions makes room (`CacheSpec.SpinsExactly`).
- Where every query goes follows from the session table, the health and load of the backends and their idle
  connections (`DbRouting.WithoutSession`, `DbRouting.WithSession`, `DbRouting.OpensSession`).
- A client with a session is pinned to one backend for a whole transaction whatever others do
  (`DbRouterSpec.TransactionPinning`). In a run with a single primary all sessions stay bound to it exactly
  when it can serve whenever a session is unbound or opened (`DbRouterSpec.SinglePrimary`), and then every
  connection handed out for a transaction is the primary's (`DbRouterSpec.TransactionsOnPrimary`). The pool's
  books balance in every run once the connections discarded inside an acquire are counted
  (`DbPoolSpec.PoolLedger`); those slots never come back (`DbPoolSpec.ExhaustedForever`), and some run loses
  all of them exactly when the pool keeps idle connections (`DbLeak.ExhaustsExactly`).
- Over every run of the allocator all blocks, live and free, are disjoint aligned ranges
  (`MemorySpec.AllocatorSafety`), a request is granted exactly when a chunk or the rest of the pool has room for
  it (`MemorySpec.GrantedExactly`), no call writes to a live block (`MemoryPool.Pool.Alloc`), and a granted
  request is safe and covered by its block exactly when nothing wraps (`MemorySpec.AllocKeepsExactly`).
- However an HTTP message is cut into pieces, parsing it piece by piece ends where one call ends
  (`HttpResume.Incremental`); where the one call never returns, the pieces do not either exactly when the last
  Content-Length line has a value (`HttpCuts.CuttingExactly`). Every chunked message, in any pieces, is passed
  through chunk by chunk and left just past its last line (`HttpFraming.ChunkedBody`,
  `HttpMessage.ChunkedMessage`). Which flags a header line sets follows from its bytes
  (`HttpFields.FlagsExactly`).
- In every window of every run a route admits at most its maximum plus what its rate yields, wrap-around
  included (`RateSpec.WindowBound`). Over as many draws as the stored total, weighted choice gives each target
  exactly its weight if and only if no weight is negative and their sum fits 31 bits
  (`WeightedSpec.ExactChoice`). A round-robin pick covers all backends exactly when the 32-bit counter does
  not pass its end during the pick or their number divides 2^32 (`RoundRobinSpec.CoverageExactly`).
- The server state kept by counting reports is the one read off the history (`HealthSpec.StateIsLookBack`).

## Where the code falls short of its intent

Each entry names a lemma that exhibits the shortfall and one that says exactly when it happens.

- A worker that takes more than 1024 events at once can reach a freed connection
  (`RelayRun.LargeBatchesAreUnsafe`, `RelayRun.SafeBatchSize`).
- New bytes can overtake waiting ones within one handler call, in both directions (`RelayRun.ReorderingRun`,
  `RelaySpec.OrderExactly`).
- The cache's 32-bit size can wrap (`CacheSpec.SizeWraps`, `CacheSpec.BooksExactly`), and so can its count of
  entries (`CacheSpec.CountWraps`, `CacheSpec.CountExactly`). Its eviction loop can spin
  (`CacheSpec.SpinHappens`, `CacheSpec.SpinsExactly`).
- Discarded idle connections keep their slot, down to a pool that lends nothing any more
  (`DbLeak.LeakHappens`, `DbPoolSpec.LeaksExactly`, `DbLeak.ExhaustsExactly`).
- A COMMIT that finds the pool exhausted leaves a session that the next read binds to a replica
  (`DbStray.StrayingHappens`, `DbRouterSpec.BoundExactly`).
- An allocation request near 2^64 is granted: it moves the bump pointer back, or gets an address without a
  block (`MemorySpec.HugeRequestIsGranted`, `MemorySpec.AllocKeepsExactly`). Freeing a block of fewer than 16
  bytes writes past it, into the next one (`MemorySpec.SmallFreeHappens`, `MemoryPool.SmallFreeOverwrites`,
  `MemorySpec.FreeKeepsExactly`).
- A Content-Length line without a value takes its number from later lines, so that cutting the message can
  change the outcome (`HttpResume.BlankLengthStrays`, `HttpCuts.CuttingExactly`). A message with a non-zero
  length that is not chunked is never returned from (`HttpResume.BlankLengthStrays`, `HttpSpec.SpinsExactly`).
  A header name that is a prefix of a known name is taken for it (`HttpResume.BareLength`,
  `HttpLines.MatchesPrefix`). A chunk size of 2^64 ends the message (`HttpFraming.SizeWraps`,
  `HttpFraming.SizeReadExactly`).
- A bucket that is idle for 2^31 ms refuses requests (`RateSpec.LongIdleDenies`, `RateSpec.RangeExactly`).
- A round-robin pick during which the counter wraps can leave a backend out (`RoundRobinSpec.MissesOne`,
  `RoundRobinSpec.CoverageExactly`).

## Model

| member | source | states |
|---|---|---|
| `CleanupQueue.Ring.constructor` | include/core/lb_types.h:169-180 | a new ring is empty |
| `CleanupQueue.Ring.Enqueue` | src/network/lb_net.c:19-40 | appends to a FIFO, and refuses exactly when 1023 connections wait |
| `CleanupQueue.Ring.Dequeue` | src/network/lb_net.c:43-62 | takes the oldest of the FIFO, or none exactly when it is empty |
| `RelaySpec.FlushKeeps` | src/network/lb_net.c:245-268 | flushing pending bytes, for any result of the send, keeps both streams intact, the open connection's shape and the statistics in step with what was delivered |
| `RelaySpec.EnsureBackendKeeps` | src/network/lb_net.c:275-310 | opening the backend connection on the first bytes keeps streams and statistics, whether it succeeds or not |
| `RelaySpec.ForwardKeeps` | src/network/lb_net.c:312-355 | one round of forwarding loses, duplicates and miscounts nothing, for every sequence of short, refused and failed sends |
| `RelaySpec.HandleKeeps` | src/network/lb_net.c:239-370 | one call of either handler, for every behaviour of the sockets, keeps both streams intact unless it reports an error, keeps the statistics exact, leaves the other direction alone and its own socket ready if it was |
| `RelayClose.OutcomeExactly` | src/network/lb_net.c:239-466 | a handler keeps the connection if and only if the sockets' answers show no failure, memory and backend are there and the stream goes on, and reports its end if and only if all that holds and the peer has closed |
| `RelayClose.RelaysExactly` | src/network/lb_net.c:239-466 | then every byte read is received in its own direction, and as many are delivered as the socket took |
| `RelayClose.ClosesExactly` | src/network/lb_net.c:709-848 | an event leaves its connection open if and only if it is no hang-up and the handler it calls for keeps it; otherwise both sockets close, the connection is queued or freed and the active count drops |
| `RelaySpec.ReadLoopKeeps` | src/network/lb_net.c:405-451 | the same through the whole read loop, for any number of rounds |
| `RelaySpec.OvertakenByCall` | src/network/lb_net.c:312-347 | a call that writes new bytes past waiting ones leaves that on record |
| `RelaySpec.InOrderExactly` | src/network/lb_net.c:239-370 | with distinct bytes a stream is in order if and only if none overtook a waiting one |
| `RelaySpec.OrderExactly` | src/network/lb_net.c:239-370 | a handler call keeps the order of the bytes if and only if no round writes while older bytes wait |
| `RelayRun.ReorderingRun` | src/network/lb_net.c:271-443 | for either direction, a run from the start in which the bytes of one connection arrive out of order |
| `RelayRun.DispatchKeeps` | src/network/lb_net.c:617-875 | dispatching any event in the middle of a batch keeps the invariant: balanced statistics, tidy queue, every socket ready or with its event still to come |
| `RelayRun.ProcessKeeps` | src/network/lb_net.c:617-875 | a whole batch keeps it |
| `RelayRun.DrainEmpties` | src/network/lb_net.c:65-104 | draining frees each queued connection exactly once and touches nothing else |
| `RelayRun.TurnKeeps` | src/network/lb_net.c:606-875 | so does one turn of the loop, from one wait to the next |
| `RelayRun.RunKeeps` | src/network/lb_net.c:591-883 | after every run of one worker the invariant of a waiting worker holds |
| `RelayRun.NoLostWakeups` | src/network/lb_net.c:849-874 | at every wait each open registered socket is armed for input, and for output exactly when its outgoing buffer holds bytes |
| `RelayRun.RelayedStreams` | src/network/lb_net.c:239-466 | over every run a connection without error has received exactly what it delivered and still holds, counts delivered bytes exactly, and is in order exactly when no byte overtook another |
| `RelayRun.StatisticsExact` | src/network/lb_net.c:649-848 | active connections, per-backend connections and byte counts equal the sums over the connections, so none underflows |
| `RelayRun.RunInOrder` | src/network/lb_net.c:405-451 | if sockets that shortened or refused a write take nothing more in that call, no stream of any run is out of order |
| `RelayRun.CourteousStreams` | src/network/lb_net.c:239-466 | and delivered followed by pending is the received sequence |
| `RelayRun.SafeReclamation` | src/network/lb_net.c:787-848 | with at most 1024 events or 1023 closes per batch no event reaches a freed connection |
| `RelayRun.LargeBatchesAreUnsafe` | src/network/lb_net.c:816-846 | a run in which every wait reports each descriptor at most once, and whose last wait reports 1025 events, reaches a freed connection |
| `RelayRun.SafeBatchSize` | src/network/lb_net.c:606-875 | reclamation is safe for every run with a given batch limit if and only if the limit is at most 1024 |
| `RelayWorker.SendLoop` | src/network/lb_net.c:313-325 | the inner send loop takes as many bytes as its results allow, as the specification says |
| `RelayWorker.Connection.FlushToBackend` | src/network/lb_net.c:245-268 | flushing in place refines the specified flush and moves the statistics accordingly |
| `RelayWorker.Connection.FlushToClient` | src/network/lb_net.c:379-402 | the same towards the client |
| `RelayWorker.Connection.OpenBackend` | src/network/lb_net.c:275-310 | refines the specified opening, in success and failure |
| `RelayWorker.Connection.ForwardToBackend` | src/network/lb_net.c:312-354 | refines one specified round: send, keep the rest, grow the buffer or fail |
| `RelayWorker.Connection.ForwardToClient` | src/network/lb_net.c:408-450 | the same towards the client |
| `RelayWorker.Connection.HandleClientToBackend` | src/network/lb_net.c:239-370 | the handler refines the specified handler call, result included |
| `RelayWorker.Connection.HandleBackendToClient` | src/network/lb_net.c:373-466 | the same for the other direction |
| `RelayWorker.Connection.Relay` | src/network/lb_net.c:746-785 | calls the handler of the event and refines the specified call |
| `RelayWorker.Stats.CountIn` | src/network/lb_net.c:351-354 | adds delivered bytes to the global and the backend's counter |
| `RelayWorker.Stats.CountOut` | src/network/lb_net.c:447-450 | the same in the other direction |
| `RelayWorker.Worker.Accept` | src/network/lb_net.c:622-706 | accepting refines the specified accept, for every outcome |
| `RelayWorker.Worker.Close` | src/network/lb_net.c:787-848 | closing refines the specified retirement: counters, queue, immediate free when the queue is full |
| `RelayWorker.Worker.Rearm` | src/network/lb_net.c:849-874 | re-arming asks for output exactly when bytes wait |
| `RelayWorker.Worker.Dispatch` | src/network/lb_net.c:709-874 | dispatching one event refines the specified dispatch |
| `RelayWorker.Worker.ProcessCleanupQueue` | src/network/lb_net.c:65-104 | refines the specified drain |
| `RelayWorker.Worker.ProcessEvents` | src/network/lb_net.c:617-875 | refines the specified processing of a batch |
| `RelayWorker.Worker.Turn` | src/network/lb_net.c:606-875 | one turn refines the specified turn, so the run theorems hold of the objects |
| `CacheHash.ComputeHash` | src/cache/cache.c:68-82 | the loop computes the specified 32-bit hash of the key |
| `CacheHash.HashVectors` | src/cache/cache.c:68-82 | the hash of four keys, one with a byte above 127 |
| `CacheSpec.EvictKeeps` | src/cache/cache.c:234-281 | eviction keeps chains and list in agreement, the books and the order of recency |
| `CacheSpec.LookupKeeps` | src/cache/cache.c:108-144 | so does a lookup, which moves a hit to the front of the list only |
| `CacheSpec.InsertKeeps` | src/cache/cache.c:148-206 | and an insert with all its evictions |
| `CacheSpec.InsertBounded` | src/cache/cache.c:155-198 | the published size never exceeds the limit after an insert |
| `CacheSpec.ExecKeeps` | src/cache/cache.c:108-281 | chains and list hold the same entries, with size and count in 32 bits, after every run of operations |
| `CacheSpec.NeverStale` | src/cache/cache.c:108-144 | after every run a lookup returns the newest stored insert of its key if and only if that one is cached and not expired, and otherwise misses |
| `CacheAnswers.AnswerIsLastPut` | src/cache/cache.c:108-206 | after every run a lookup finds only what the last stored put of its key brought, alive, and misses only when that is dead or nothing of the key is cached |
| `CacheAnswers.NothingFromNothing` | src/cache/cache.c:108-144 | a key that no put stored is never found |
| `CacheAnswers.PutThenGet` | src/cache/cache.c:148-206 | a put answered with success is found with its key, value, size and lifetime until that is over |
| `CacheAnswers.StoredExactly` | src/cache/cache.c:148-206 | a put is stored if and only if its object is admitted and some number of evictions makes room, and refused if and only if it is not admitted |
| `CacheAnswers.EvictsLeast` | src/cache/cache.c:155-158 | an insert keeps the longest most recently used part of the list that leaves room |
| `CacheSpec.VictimIsOldest` | src/cache/cache.c:234-270 | what an eviction removes was inserted or hit before everything that stays |
| `CacheSpec.ShadowedBehind` | src/cache/cache.c:208-232 | two entries of one key are in the same order in chain and list, after every run |
| `CacheSpec.ExactBooks` | src/cache/cache.c:197-198 | when the limits fit 32 bits together, the size is the exact sum after every run, and the count the number of entries after every run without empty inserts |
| `CacheSpec.BooksExactly` | src/cache/cache.c:156-198 | the size is the sum after every run if and only if the limits fit 32 bits together |
| `CacheSpec.SpinsExactly` | src/cache/cache.c:150-158 | the eviction loop never ends if and only if the object is within the object limit and finds no room however many entries are evicted |
| `CacheSpec.SpinsOnLargeObjects` | src/cache/cache.c:150-158 | it ends for every object no larger than the cache, and spins for every larger one within the object limit whose 32-bit sum does not wrap |
| `CacheSpec.SizeWraps` | src/cache/cache.c:156-198 | with limits that do not fit there is a run from the empty cache after which it holds 2^32 bytes and publishes 0 |
| `CacheSpec.CountWraps` | src/cache/cache.c:197-198 | whatever the limits, 2^32 inserts of size 0 into the empty cache leave 2^32 entries and a published count of 0 |
| `CacheSpec.CountExactly` | src/cache/cache.c:197-198 | with limits that fit, the count is the number of entries after every run of inserts of at least some size if and only if that size is positive |
| `CacheSpec.SpinHappens` | src/cache/cache.c:150-158 | where the object limit exceeds the cache, the first insert of the largest object spins |
| `CacheLists.LruList.PushFront` | src/cache/cache.c:183-194 | linking at the head of the doubly linked list prepends to its contents |
| `CacheLists.LruList.MoveToFront` | src/cache/cache.c:211-229 | relinking moves one entry to the head and keeps the others in order |
| `CacheLists.LruList.PopBack` | src/cache/cache.c:237-249 | unlinking the tail drops the last entry |
| `CacheLists.HashChains.Push` | src/cache/cache.c:177-181 | linking in front of a chain prepends to it and leaves other chains alone |
| `CacheLists.HashChains.Find` | src/cache/cache.c:115-139 | the walk finds the first entry of the key, or none |
| `CacheLists.HashChains.Remove` | src/cache/cache.c:257-264 | the walk by links takes out exactly that entry |
| `CacheStore.ResponseCache.constructor` | src/cache/cache.c:20-65 | a new cache is the specified empty one |
| `CacheStore.ResponseCache.UpdateLru` | src/cache/cache.c:208-232 | refines the specified move to the front |
| `CacheStore.ResponseCache.Lookup` | src/cache/cache.c:108-144 | refines the specified lookup: result and new state |
| `CacheStore.ResponseCache.EvictLru` | src/cache/cache.c:234-281 | refines the specified eviction in both structures |
| `CacheStore.ResponseCache.Insert` | src/cache/cache.c:148-206 | refines the specified insert: refusals, evictions, the spinning case |
| `CacheStore.ResponseCache.Store` | src/cache/cache.c:160-200 | refines the specified linking of a new entry into chain and list, books included |
| `DbPoolSpec.FirstPrimary` | src/database/db_pool.cpp:343-350 | the first healthy primary, or none when there is none |
| `DbPoolSpec.BestReplica` | src/database/db_pool.cpp:352-378 | a healthy replica with the lowest load, the first such, or none |
| `DbPoolSpec.Target` | src/database/db_pool.cpp:182-195 | without a session backend the selected one; with one, that backend and no other, and none exactly when it is unknown or down |
| `DbPoolSpec.AcquireExactly` | src/database/db_pool.cpp:177-228 | an acquire succeeds if and only if it has a backend with a usable idle connection, or there is room for a new one that connects |
| `DbPoolSpec.AcquireKeeps` | src/database/db_pool.cpp:177-228 | acquiring keeps the books, whichever idle connections prove dead and whether or not a new one can be made |
| `DbPoolSpec.ReleaseKeeps` | src/database/db_pool.cpp:230-256 | so does releasing |
| `DbPoolSpec.CleanKeeps` | src/database/db_pool.cpp:273-290 | and the cleanup of idle connections |
| `DbPoolSpec.PoolLedger` | src/database/db_pool.cpp:166-290 | in every run connections made minus closed are the idle and lent ones, the published total exceeds them by exactly the discarded ones and stays within the limit, each backend's active count is its lent connections, and each idle list is within its limit and holds only its own backend's connections outside transactions |
| `DbPoolSpec.DeadConnectionsLeak` | src/database/db_pool.cpp:199-216 | an acquire that meets dead idle connections at the limit fails and loses their slots |
| `DbPoolSpec.LeaksExactly` | src/database/db_pool.cpp:199-212 | an acquire loses slots if and only if its backend's most recently idled connection is dead |
| `DbPoolSpec.ExhaustedForever` | src/database/db_pool.cpp:177-228 | a pool that lost all its slots never lends again, in any run |
| `DbUpkeep.GiveThenTake` | src/database/db_pool.cpp:230-256 | a connection given back and kept is the next one its backend hands out while it works |
| `DbUpkeep.GiveCloses` | src/database/db_pool.cpp:230-256 | one that is not kept gives its slot back |
| `DbUpkeep.CleanupExactly` | src/database/db_pool.cpp:273-290 | cleaning leaves each idle list with exactly its working connections, in order, and gives back the slots of the others |
| `DbUpkeep.DownIsLeftAlone` | src/database/db_pool.cpp:177-271 | from the report that a backend is down until one that it is up no acquire of any run hands out its connections |
| `DbUpkeep.UpIsChosen` | src/database/db_pool.cpp:343-350 | a primary reported up is chosen unless an earlier one is up |
| `DbUpkeep.FreshIsChosen` | src/database/db_pool.cpp:352-375 | the only replica is chosen for reads if and only if it is at most 5000 ms behind |
| `DbUpkeep.TakesCounted` | src/database/db_pool.cpp:199-227 | acquired and created count exactly the connections handed out and the new ones |
| `DbUpkeep.GivesCounted` | src/database/db_pool.cpp:230-256 | every connection given back counts as released and idle, or as closed |
| `DbLeak.LeakHappens` | src/database/db_pool.cpp:199-216 | every new pool that keeps idle connections has a run that loses all its slots, however many |
| `DbLeak.ExhaustsExactly` | src/database/db_pool.cpp:177-256 | a pool with slots has such a run if and only if it keeps idle connections |
| `DbPool.DatabasePool.AddBackend` | src/database/db_pool.cpp:166-175 | appends a backend whose id is one more than the number before, so never 0 |
| `DbPool.DatabasePool.SelectPrimary` | src/database/db_pool.cpp:343-350 | the loop finds the specified primary |
| `DbPool.DatabasePool.SelectReplica` | src/database/db_pool.cpp:352-378 | the loop finds the specified replica |
| `DbPool.DatabasePool.Acquire` | src/database/db_pool.cpp:177-228 | refines the specified acquire: state and connection |
| `DbPool.DatabasePool.Release` | src/database/db_pool.cpp:230-256 | refines the specified release |
| `DbPool.DatabasePool.CleanupIdleConnections` | src/database/db_pool.cpp:273-290 | refines the specified cleanup of every list |
| `DbRouterSpec.Victim` | src/database/db_router.c:56-78 | the least recently active session outside a transaction, or none when all are inside one |
| `DbRouterSpec.StepKeeps` | src/database/db_router.c:45-186 | every step keeps session ids unique, their number within the limit and the pool's books |
| `DbRouterSpec.SessionTable` | src/database/db_router.c:8-186 | so they are after every run from the empty router |
| `DbRouterSpec.CreateEvicts` | src/database/db_router.c:54-98 | creating a session evicts only when full, only the least recently active outside a transaction, and fails exactly when there is none |
| `DbRouterSpec.EndKeepsOthers` | src/database/db_router.c:168-186 | ending a session removes exactly that one and keeps the others in order |
| `DbRouting.AcquireAnswers` | src/database/db_pool.cpp:177-228 | an acquire hands out the last idle connection that works, or a new one while there is room, or nothing |
| `DbRouting.LightestReplica` | src/database/db_pool.cpp:352-371 | the replica chosen has the fewest active connections, then the least lag, then the lowest place |
| `DbRouting.FirstHealthyPrimary` | src/database/db_pool.cpp:343-376 | without a fresh replica, and for everything but reads, the first healthy primary is chosen |
| `DbRouting.WithoutSession` | src/database/db_router.c:100-166 | a client that has no session and opens none is answered from the chosen backend for its query, and the table stays |
| `DbRouting.WithSession` | src/database/db_router.c:100-166 | a client with a session is answered from its bound backend in a transaction or when sticky, otherwise from the chosen one, and only its session changes, as stated |
| `DbRouting.OpensSession` | src/database/db_router.c:100-166 | a client that opens a session takes the next place or that of the least recently active session outside a transaction, and is answered from the chosen backend |
| `DbRouterSpec.OwnQueryStays` | src/database/db_router.c:127-161 | a query of a pinned client goes to its backend or fails, and leaves it pinned |
| `DbRouterSpec.OthersDoNotUnpin` | src/database/db_router.c:54-98 | no other client, eviction or pool event unpins it |
| `DbRouterSpec.HandingOutPins` | include/database/db_pool.hpp:193 | a connection handed out inside a transaction pins the client, because ids start at 1 |
| `DbRouterSpec.TransactionPinning` | src/database/db_router.c:127-161 | from then until the transaction ends every connection handed to the client has the same backend, in every run |
| `DbRouterSpec.PrimaryOnly` | src/database/db_router.c:129-161 | with one primary and all sessions bound to it, BEGIN through COMMIT or ROLLBACK go to the primary |
| `DbRouterSpec.HandedExactly` | src/database/db_router.c:129-161 | for a session it unbinds or opens, a query gets a connection if and only if the primary is healthy and has a usable idle connection or room for a new one that connects |
| `DbRouterSpec.BoundExactly` | src/database/db_router.c:129-161 | a step keeps all sessions bound to the primary if and only if the primary can serve so, where the step unbinds or opens a session |
| `DbRouterSpec.SinglePrimary` | src/database/db_router.c:100-166 | in every run that adds no other primary, all sessions are bound to the primary at every point if and only if it can serve whenever a session is unbound or opened |
| `DbRouterSpec.TransactionsOnPrimary` | src/database/db_router.c:100-166 | in every such run every connection handed out for BEGIN, COMMIT, ROLLBACK, SET or inside a transaction to a client with a session is the primary's |
| `DbRouterSpec.UnboundSessionStrays` | src/database/db_router.c:129-161 | an unbound session takes the replica of its next read into its next transaction |
| `DbStray.StrayingHappens` | src/database/db_router.c:100-166 | a run from the empty router over a pool of one slot in which a COMMIT finds the pool exhausted, after which BEGIN is handed the replica although the primary is healthy |
| `DbRouter.Router.FindSession` | src/database/db_router.c:45-52 | the loop finds the session of the id, or none |
| `DbRouter.Router.FindVictim` | src/database/db_router.c:56-78 | the loop finds the specified victim |
| `DbRouter.Router.CreateSession` | src/database/db_router.c:54-98 | refines the specified creation in the fixed array |
| `DbRouter.Router.RouteQuery` | src/database/db_router.c:100-166 | refines the specified routing of a query: sessions, pool and connection |
| `DbRouter.Router.EndSession` | src/database/db_router.c:168-186 | shifting the array refines the specified removal |
| `DbProtocol.OnlyRedisIsClassified` | src/database/db_protocol.c:5-22 | packets detected as PostgreSQL or MySQL are never classified, and stickiness is as the router's theorems assume |
| `DbProtocol.ParseRedis` | src/database/db_protocol.c:203-252 | the parser computes the specified kind and stickiness |
| `DbProtocol.CommandRoundTrip` | src/database/db_protocol.c:203-252 | the command comes back out of every encoded request |
| `DbProtocol.RequestKind` | src/database/db_protocol.c:203-252 | and determines kind and stickiness |
| `DbProtocol.RedisTransactions` | src/database/db_protocol.c:234-245 | MULTI and EXEC delimit a transaction, MGET opens one too and DISCARD ends none |
| `DbProtocol.KindExactly` | src/database/db_protocol.c:234-245 | the kind of every command, by its first letters in either case |
| `DbProtocol.RedisRequests` | src/database/db_protocol.c:203-252 | every request that starts with SET is a write and every one that starts with GET a read |
| `DbProtocol.DetectExactly` | src/database/db_protocol.c:5-22 | which first bytes make a packet PostgreSQL, MySQL or Redis |
| `MemorySpec.AlignRoundsUp` | src/utils/memory.c:7 | a size is rounded up to the next multiple of 8 if and only if adding 7 does not wrap, and to zero if it does |
| `MemorySpec.FirstFit` | src/utils/memory.c:14-32 | the first chunk large enough, all before it being too small |
| `MemorySpec.GrantedExactly` | src/utils/memory.c:10-44 | a request that does not wrap is granted if and only if some free chunk has the rounded size or the pool has it left; the first such chunk or the old bump offset is returned, and a refusal changes nothing |
| `MemorySpec.AllocKeeps` | src/utils/memory.c:9-44 | an allocation that does not wrap keeps all blocks disjoint, aligned and inside, and hands out a new block of the aligned size that covers the request |
| `MemorySpec.AllocKeepsExactly` | src/utils/memory.c:9-44 | a granted request leaves the arena safe and is covered by its block if and only if neither the rounding nor, without a fitting chunk, the sum wraps |
| `MemorySpec.FreeKeepsExactly` | src/utils/memory.c:46-58 | freeing what an allocation returned, a block or the address of an empty one, is safe if and only if there is room for the 16-byte header |
| `MemorySpec.SmallFreeHappens` | src/utils/memory.c:46-58 | from a pool in use a block of 8 bytes and one of none are granted whose freeing leaves it unsafe |
| `MemorySpec.BumpOnlyWhenNeeded` | src/utils/memory.c:14-40 | the bump pointer moves only when no free chunk fits, and only up |
| `MemorySpec.FreeThenAlloc` | src/utils/memory.c:10-58 | the next request that fits a freed block gets its address, and the list is as before |
| `MemorySpec.HugeRequestIsGranted` | src/utils/memory.c:10-40 | from a pool in use a request of 2^64-8 is granted and moves the bump offset back, and one of 2^64-1 is granted without a block |
| `MemorySpec.RunSafe` | src/utils/memory.c:9-58 | every run in which blocks are freed once with their size keeps all blocks disjoint, aligned and below the bump pointer |
| `MemorySpec.AllocatorSafety` | src/core/lb_core.c:61-64 | in particular from the empty pool |
| `MemoryPool.Pool.constructor` | src/core/lb_core.c:61-64 | a new pool is the empty arena |
| `MemoryPool.Pool.Search` | src/utils/memory.c:14-32 | the walk with two pointers finds the first fit and the chunk before it |
| `MemoryPool.Pool.Unlink` | src/utils/memory.c:20-24 | takes the chunk out of the list in memory and changes no live block |
| `MemoryPool.Pool.Alloc` | src/utils/memory.c:9-44 | refines the specified allocation and changes no word of a live block |
| `MemoryPool.SmallFreeOverwrites` | src/utils/memory.c:46-58 | the header of a freed block of 8 bytes changes a word of the live block behind it |
| `MemoryPool.Pool.Free` | src/utils/memory.c:46-58 | refines the specified free for any address, a null pointer changing nothing; the list stays intact and no word of another live block changes when it is a live block with room for a header |
| `MemoryPool.Pool.Store` | src/utils/memory.c:9-44 | what an owner writes into its block never disturbs the allocator's list |
| `HttpLines.MatchesPrefix` | src/http/http_parser.c:186-207 | a name matches a known name if and only if it is a prefix of it, letter case aside, or, ended by a NUL byte, all of it |
| `HttpLines.FieldIsTrimmed` | src/http/http_parser.c:165-184 | name and value are the text before and after the colon without the white space around them |
| `HttpFields.FlagsExactly` | src/http/http_parser.c:160-207 | a line, however padded, sets each of the seven flags if and only if its name is a prefix of that header's and of none tried before, letter case aside, and its value starts with the token |
| `HttpFields.SaysExactly` | src/http/http_parser.c:144-207 | a header block sets a flag if and only if one of its lines is spelled so |
| `HttpFields.ChunkedAnnounced` | src/http/http_parser.c:189-192 | the line `Transfer-Encoding: chunked` announces chunks |
| `HttpNumbers.LengthRoundTrip` | src/http/http_parser.c:186-188 | a length written in decimal is read back, or as 2^63-1 if larger |
| `HttpNumbers.HexRoundTrip` | src/http/http_parser.c:222-247 | a number written in hexadecimal, in either case, is read back |
| `HttpSpec.Chunks` | src/http/http_parser.c:292-306 | the chunk loop always ends, waiting inside the body or done |
| `HttpSpec.ParseCollects` | src/http/http_parser.c:144-215 | the parser completes exactly when the lines end with the empty one, and collects the flags they set and the last length |
| `HttpSpec.SpinsExactly` | src/http/http_parser.c:278-290 | the analyzer never returns if and only if the header lines are complete, none says chunked, one says Content-Length, and the last such value is not zero |
| `HttpFraming.SizeLineReads` | src/http/http_parser.c:217-250 | a size line with any digits and extensions is read as its value in 64 bits, up to just past its newline |
| `HttpFraming.SizeReadExactly` | src/http/http_parser.c:222-226 | the size is right if and only if it fits in 64 bits |
| `HttpFraming.SizeWraps` | src/http/http_parser.c:222-247 | a size of 2^64 is read as zero |
| `HttpFraming.Framing` | src/http/http_parser.c:217-306 | any encoded chunks, closed by a line of size zero, take the machine from the first size line to done through exactly the data of those chunks in order, stopping just past that line |
| `HttpFraming.EndIs` | src/http/http_parser.c:238-241 | that place is the length of the encoding and of the last line past the start |
| `HttpFraming.EncodedWhole` | src/http/http_parser.c:217-250 | every buffer that contains the bytes of encoded chunks and a last line, with anything around them, is such a buffer |
| `HttpFraming.ChunkedBody` | src/http/http_parser.c:217-306 | so a body of encoded chunks and its last line is gone through chunk by chunk and left right behind that line |
| `HttpMessage.ChunkedMessage` | src/http/http_parser.c:144-306 | header lines of which one is spelled as chunked transfer encoding and such a body, fed in any pieces and followed by anything, end in the done state right behind the last line with the headers of the header lines alone |
| `HttpMessage.LengthExactly` | src/http/http_parser.c:186-188 | a Content-Length line with a decimal value is read as that value |
| `HttpMessage.HeadersExactly` | src/http/http_parser.c:144-212 | the headers recorded are those of the lines passed, in order, with the bytes of name and value |
| `HttpMessage.VerdictExactly` | src/http/http_parser.c:144-215 | parsing completes if and only if the header lines come to a blank line, fails if and only if they come to a line without a colon, and waits otherwise |
| `HttpMessage.PlainMessage` | src/http/http_parser.c:252-313 | header lines that announce neither chunks nor a length, in any pieces, are a message that ends at the blank line |
| `HttpMessage.FinishedStays` | src/http/http_parser.c:252-313 | a message that is done or in error is left alone |
| `HttpResume.ChunksResume` | src/http/http_parser.c:292-303 | chunks cut short anywhere and taken up again end where chunks read in one go end |
| `HttpResume.HeadersResume` | src/http/http_parser.c:144-215 | so do headers, with the same flags, headers and offset |
| `HttpResume.Resume` | src/http/http_parser.c:252-313 | and the whole analyzer, from every state |
| `HttpResume.Incremental` | src/http/http_parser.c:252-313 | any number of calls on growing prefixes ends in the same state, flags, headers, chunk length and, outside errors, offset as one call on the whole buffer |
| `HttpResume.BareLength` | src/http/http_parser.c:186-188 | a header named `c` is taken for Content-Length |
| `HttpResume.BlankLengthStrays` | src/http/http_parser.c:186-188 | with a Content-Length line without a value one call spins while two calls complete |
| `HttpCuts.CuttingExactly` | src/http/http_parser.c:186-188 | every cutting returns or not as the one call does, if and only if the header lines do not announce a plain body of some length or the last Content-Length line has a value |
| `HttpCuts.CutReturns` | src/http/http_parser.c:186-188 | otherwise a cut behind that line lets the message complete |
| `HttpParser.ReadHeader` | src/http/http_parser.c:165-207 | the trimming loops compute the specified field |
| `HttpParser.TakeLine` | src/http/http_parser.c:149-163 | reads the specified line |
| `HttpParser.Message.ParseHeaders` | src/http/http_parser.c:144-215 | the loop refines the specified header parser |
| `HttpParser.Message.ParseChunkSize` | src/http/http_parser.c:217-250 | the loops refine the specified size line, changing nothing while it is incomplete |
| `HttpParser.Message.PassChunk` | src/http/http_parser.c:297-304 | moves past a chunk once all of it is there, without changing how the message ends |
| `HttpParser.Message.Analyze` | src/http/http_parser.c:252-313 | the state machine refines the specified analyzer |
| `RateSpec.CheckKeeps` | src/core/request_router.cpp:269-292 | a check never leaves more tokens than the maximum |
| `RateSpec.RangeExactly` | src/core/request_router.cpp:294-305 | a refill leaves tokens within 0..max if and only if the sum, in 32 bits, is not negative |
| `RateSpec.RunInRange` | src/core/request_router.cpp:294-305 | without overflow tokens stay within 0..max through every run |
| `RateSpec.LongIdleDenies` | src/core/request_router.cpp:294-305 | after 2^31 idle milliseconds a full bucket refuses |
| `RateSpec.RefillBound` | src/core/request_router.cpp:294-305 | a refill never adds more than has accrued, wrapped around or not |
| `RateSpec.WindowBound` | src/core/request_router.cpp:269-305 | in every window of every run admissions are at most the maximum plus the rate over the window, which starts less than a millisecond before its first check |
| `RateSpec.WindowBoundInTicks` | src/core/request_router.cpp:269-305 | on a millisecond clock the window is exactly the time between its checks |
| `RateSpec.TicksAreNeeded` | src/core/request_router.cpp:294-305 | between ticks one more may pass |
| `RateSpec.FullBurst` | src/core/request_router.cpp:269-292 | of any number of checks within one millisecond a full bucket admits exactly the first `rate` |
| `RateSpec.FullAgain` | src/core/request_router.cpp:294-305 | a second without checks fills any bucket while nothing overflows |
| `RateSpec.UnlimitedRoutes` | src/core/request_router.cpp:269-275 | a route without a limiter admits everything |
| `RateSpec.LimitedBurst` | src/core/request_router.cpp:257-292 | a limiter just set admits exactly its rate within a millisecond, whatever other routes do |
| `RateSpec.RoutesAreIndependent` | src/core/request_router.cpp:257-292 | what a route admits depends on its own bucket and checks only |
| `RateLimiter.Limiter.RefillTokens` | src/core/request_router.cpp:294-305 | refines the specified refill |
| `RateLimiter.RequestRouter.EnableRateLimiting` | src/core/request_router.cpp:257-267 | sets a full bucket for the route and leaves the others |
| `RateLimiter.RequestRouter.CheckRateLimit` | src/core/request_router.cpp:269-292 | refines the specified check; a route without a limiter always passes |
| `WeightedSpec.NoFallback` | src/core/request_router.cpp:124-133 | with non-negative weights the final fallback is never reached |
| `WeightedSpec.ExactChoice` | src/core/request_router.cpp:98-134 | over as many draws as the stored total, each target is chosen by exactly its weight if and only if no weight is negative and the sum fits 31 bits |
| `WeightedSpec.CacheIsTransparent` | src/core/request_router.cpp:82-115 | in any order of additions and selections a route chooses as one that adds up its weights each time |
| `WeightedSpec.SelectsExactly` | src/core/request_router.cpp:98-134 | a selection yields a target if and only if there is one, the breaker is closed and the 32-bit total is not zero |
| `WeightedSpec.ExactWeighted` | src/core/lb_core.c:207-231 | each backend that is up gets exactly its weight in draws, and the others none, if and only if the weights fit 32 bits together |
| `RouteChoice.RouteTargets.AddTarget` | src/core/request_router.cpp:82-86 | appends and forgets the total |
| `RouteChoice.RouteTargets.Search` | src/core/request_router.cpp:124-133 | the loop finds the specified choice |
| `RouteChoice.RouteTargets.SelectTarget` | src/core/request_router.cpp:98-134 | chooses as a route without a cache would, keeping a valid total equal to the sum |
| `RoundRobinSpec.CoverageExactly` | src/core/lb_core.c:163-174 | from a given counter value a pick finds a backend that is up, whichever those are, if and only if the attempts do not take the counter past 2^32 or the number of backends divides 2^32 |
| `RoundRobinSpec.MissesOne` | src/core/lb_core.c:163-174 | otherwise there is a backend that is up and not found |
| `RoundRobinSpec.PickExactly` | src/core/lb_core.c:163-174 | a pick returns the first backend that is up among those the counter goes through and moves the counter just past it, or by all of them when it finds none |
| `RoundRobinSpec.Fairness` | src/core/lb_core.c:163-174 | with all n backends up any k·n picks in a row return each exactly k times |
| `Balancer.LoadBalancer.RoundRobin` | src/core/lb_core.c:163-174 | the loop refines the specified pick, counter included |
| `Balancer.LoadBalancer.WeightedRandom` | src/core/lb_core.c:207-231 | the two loops refine the specified weighted choice |
| `HealthSpec.CountersAreRuns` | src/health/checks.c:354-381 | the counters are the lengths of the last runs of passes and failures, in 32 bits |
| `HealthSpec.StateIsLookBack` | src/health/checks.c:340-386 | for every history the state is the one that looking back at runs of reports gives; wrap-around never shows |
| `HealthSpec.ResultsDecide` | src/health/checks.c:354-381 | enough of the four good results in a row bring a server up, enough of the fourteen others bring it down |
| `HealthSpec.FlipExactly` | src/health/checks.c:362-379 | the state changes if and only if a run of the opposite kind reaches exactly its threshold |
| `HealthSpec.FlipsAreSpaced` | src/health/checks.c:362-379 | two successive changes are at least the second one's threshold apart |
| `HealthSpec.FlipsArePaidFor` | src/health/checks.c:340-386 | changes up times rise plus changes down times fall never exceed the number of reports |
| `HealthSpec.FlipsAlternate` | src/health/checks.c:362-379 | changes up and down alternate |
| `HealthCheck.ServerCheck.Tally` | src/health/checks.c:354-381 | refines the specified report |
| `HealthCheck.ServerCheck.SetStatus` | src/health/checks.c:340-386 | after every report the server runs if and only if looking back says so |

## Left out

- Sockets, epoll, DNS, threads, mutexes, spinlocks, atomics and memory ordering: only their outcomes are modelled, with one worker; races between workers on one connection are not.
- What happens after an event reaches a freed connection: the model only records that it did.
- Counters that no property speaks of: failed connections and requests, cache hits and misses, access counts and times, totals of served requests.
- The entry passed to `cache_insert` is created inside `CacheStore.ResponseCache.Insert` from its key, size, lifetime and value.
- `cache_build_key`, storing and serving responses, compression: not modelled.
- Locking inside the pool: `get_backend_by_id` asks for a shared lock on the mutex its callers already hold exclusively; the model computes its result and drops this self-locking.
- File descriptors of pooled connections, their protocol and age, and the C wrappers around the pool: a connection is its id and backend; whether it still works is a parameter.
- Null pointers in the pool: a connect that fails (`src/database/db_pool.cpp:452`) and a selection without a healthy backend (`src/database/db_pool.cpp:194-197`) are taken as plain failures, although the source dereferences the null connection and the null backend there.
- SQL keyword classification (`src/database/db_protocol.c:24-147`): a parameter of `DbProtocol.Inspect`, since no packet that passes detection reaches it.
- MemoryPool.Pool.Alloc: keeps the list intact only for requests that do not wrap, because past that no block is safe (MemorySpec.AllocKeepsExactly); its result and new state are specified for every request.
- MemoryPool.Pool.Free: requires the two header words to lie in the pool's memory; a write outside it is undefined in the source.
- HTTP request and status lines, message states before the first header, bodies of known length: the analyzer is modelled from the first header on.
- HTTP value lookup beyond the data in the buffer: where `strtoll` would run past it the model stops at its end.
- Trailers after the last chunk: the source stops just past the zero-size line, and so does the model.
- Route matching, priorities, the circuit breaker (whether it is open is a parameter) and the default-target cache.
- The random draw itself: it is a parameter, in 0..total-1 by the distribution's contract; for a negative total, where the distribution is undefined, the model takes any draw.
- Balancer.LoadBalancer.WeightedRandom: counts draws over 0..total-1, not the bias of `rand()` modulo the total.
- Least-connections, response-time and source-hash selection: each is one pass for a minimum or a first match, without state between calls.
- HealthCheck.ServerCheck.SetStatus: works on reports, not probes, and leaves out descriptions and time stamps; a check without a server, whose reports change nothing, is not modelled.
- Lower bounds on admission under steady traffic: the source drops part of the accrued time at each refill, so none holds beyond a burst from a full bucket.
- Consistent hashing, stick tables, metrics, the generic connection pool, configuration, ACLs and SSL.
