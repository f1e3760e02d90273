# QuarkCache, verified

QuarkCache is an in-memory key-value cache: a C++ engine (LRU eviction, per-key TTL, byte
accounting), a locked store facade shared by an event-loop thread and an expiry thread, a
line-oriented TCP protocol, and a Python client with a metrics service on top of it. This project
models those layers in Dafny and proves what they promise, over every input, every run and every
interleaving. `dafny verify dfyconfig.toml` checks all of it.

## How it is laid out

| files | what they hold |
|---|---|
| `Sequences`, `CacheModel` | the cache as a value: a recency order and a map of entries; each operation takes the clock readings it makes |
| `RecencyList`, `LruCache` | the same cache as heap nodes with `prev`/`next`, a map of positions and a byte counter; every method refines the value |
| `Runs`, `LastUse`, `Freshness`, `Inclusion`, `Retention`, `SweepTransparency` | laws of whole runs of operations |
| `StoreModel`, `KvStore` | the store facade, as a value and as an object |
| `CriticalSection`, `Concurrency`, `Completion`, `ConcurrentRuns` | lock acquisition, single mutations of containers and counters, and release as steps of two threads; linearizability, completion, and what follows from them |
| `Framing`, `Text`, `Protocol`, `Connections`, `TcpServer`, `ServedLines`, `ServerClock` | cutting the byte stream into lines, words and numbers, dispatch and answers, read buffers and the connection gauge, the server object and its clock |
| `Client`, `ReadOutcomes`, `KeysListing`, `EndToEnd`, `Refusals` | the Python client's printing and parsing, how reading ends, and whole calls through wire, server and cache and back, for words and for any other text |
| `Metrics` | the metrics service's bounded history and rolling window |

Main results, hardest first:

* Every interleaving of the two threads linearizes in lock-acquisition order, respects real time,
  gives consistent snapshots and never deadlocks (`Concurrency`). From every moment at which the lock
  is free, each idle thread can make each of its calls, which comes to its end with the effect, the
  reply and the clock readings of the request executed alone (`Completion`). Each hit, whatever the
  interleaving, is the latest value set and not expired (`ConcurrentRuns`). The unsigned byte counter,
  updated in steps of its own, never wraps around and is exact whenever the lock is free.
* The linked structure refines the sequence model for every operation, and the byte counter is the
  sum of the resident sizes at all times (`LruCache`).
* LRU inclusion across capacities, so hits are monotone in capacity (`Inclusion`).
* An exact retention law: a key that nobody writes, deletes or expires is lost if and only if at
  some point as many other keys as the capacity had been used since, and not dropped again
  (`Retention`).
* However a stream is cut into pieces, the same lines are dispatched; clients do not influence each
  other's lines, not even through a reused descriptor (`Framing`, `Connections`).
* What a client call asks for is what the cache does, if and only if its arguments are words and the
  TTL is a 64-bit number; what it returns is what the cache answered, unless that is too long for the
  client's stream reader, as long as the server keeps the connection open (`EndToEnd`). What is read
  when it does not is stated for every stream and every cut (`ReadOutcomes`).

Some promises hold only under a condition. The exact ones proved here, each with an input at which
the promise fails:

* `set_key`, `get_key` and `delete_key` deliver their own request if and only if key and value are
  non-empty and free of whitespace, and the TTL is in the 64-bit range (`EndToEnd.SetDelivered`,
  `EndToEnd.KeyDelivered`; `SpaceIsMisread`, `BreakIsMisread`, `KeyIsMisread`, `TtlIsRefused`).
* For all other keys and values: `set_key` raises if and only if its text up to the first line feed
  has fewer than three words, or a fourth one that is no 64-bit number; `get_key` and `delete_key` if
  and only if there is no word in the key before its first line feed. A refused line changes nothing,
  but what follows a line feed is executed all the same, so a call can raise and yet have stored
  something (`Refusals.SetExchanged`, `GetExchanged`, `DelExchanged`; `SpacedValueIsRefused`,
  `EmptyIsRefused`, `RefusedAndStored`).
* A positive TTL is honoured if and only if the clock plus the TTL fits into 64-bit nanoseconds. A
  larger one, from about 9.2 billion seconds, overflows; the model takes that to wrap around
  (`EndToEnd.TtlIsKept`, `CacheModel.TtlIsHonoured`; `EndToEnd.HugeTtlIsLost`).
* A value that the cache still holds is returned by `get_key` if and only if its answer is within the
  64 KiB that the stream reader allows a line: values up to 65529 bytes (`EndToEnd.GetCall`;
  `EndToEnd.LongValueIsNotRead`).
* `list_keys` recovers the printed rows if and only if no live key or value contains a character at
  which Python's `splitlines` cuts, such as U+001C or U+2028, and no row is longer than the stream
  reader's 64 KiB (`EndToEnd.ListKeysRecoversLive`; `BrokenValueIsLost`,
  `LongRowIsNotRead`).
* Reading a listing comes to an end, unless the server has closed the connection and nothing that it
  has sent is END or over the limit: then, and only then, the client's loop never ends
  (`ReadOutcomes.NeverEndsExactly`; `CutListingNeverEnds`).
* An answer cut off by the end of the connection is noticed, except a found value cut behind its
  prefix, and a listing of which the last line is cut to END (`ReadOutcomes.CutFound`,
  `ReadOutcomes.CutListing`; `CutValueIsReturned`, `CutRowPassesForEnd`).
* A sweep cannot be noticed by GETs and listings until the next SET. A DEL notices it if and only if
  the sweep found its key expired and nothing has come to that key since, because `del` ignores
  expiry (`SweepTransparency.SweepIsInvisible`; `DelNoticesSweep`). STATS does if and only if such a
  key has a size (`SweepTransparency.BytesAfterSweep`; `StatsNoticesSweep`). The next SET makes it noticeable
  if and only if its key is new, the unswept cache is full, something found expired is still there,
  and the key evicted is alive (`SweepTransparency.SetAfterSweep`; `SetNoticesSweep`).
* The rolling window is negative if and only if the total has fallen below the one it is measured
  against, as after a server restart or when polls are answered out of order
  (`Metrics.RateIsNegative`; `FallenTotalIsNegative`).

Facts of the code that the model follows, where a reader might expect something else:

* `del` returns true for a resident key that has expired.
* `set` on a resident but expired key updates it in place, with no eviction.
* A GET that misses fills nothing, so a larger cache may order its keys differently.
* A read loop that ends in end-of-file or in an error discards what it has just read. The
  repository's README sketches `handle_read` as parsing after such an end; the code returns first.
* The repository's README shows a `get` without byte accounting and calls STATS lock-free; the code
  adjusts the byte counter on lazy expiry and takes the lock.
* A sweep and a listing read the clock once for each key they meet, and printing a listing reads it
  again for each row.

## Model

| member | source | states |
|---|---|---|
| `CacheModel.SetKeepsWellFormed` | cpp_core/src/lru_cache.cpp:10-41 | SET keeps the order duplicate-free, listing exactly the resident keys, within capacity |
| `CacheModel.GetKeepsWellFormed` | cpp_core/src/lru_cache.cpp:43-56 | GET keeps the same, on a hit, a miss and a lazy expiry |
| `CacheModel.UpdateThenFront` | cpp_core/src/lru_cache.cpp:14-24 | overwriting the entry first and moving the key afterwards is one move of the new entry to the front |
| `CacheModel.WithoutLast` | cpp_core/src/lru_cache.cpp:100-109 | removing the back of the order leaves the most recently used others |
| `CacheModel.SweepOneMore` | cpp_core/src/lru_cache.cpp:68-82 | a sweep may be taken key by key, in any order, each at its own clock reading; the count grows by one per expired key |
| `CacheModel.ListOneMore` | cpp_core/src/lru_cache.cpp:84-93 | a listing may be collected key by key, in any order, each at its own clock reading |
| `CacheModel.GetAlone` | cpp_core/src/lru_cache.cpp:43-56 | a GET finds a resident key before its expiry and moves it to the front; else it finds nothing, and removes the key if it is there |
| `CacheModel.BytesWithout` | cpp_core/src/lru_cache.cpp:60-65 | removing a key takes exactly the lengths of key and value off the total, so the unsigned subtraction cannot underflow |
| `CacheModel.BytesAtFront` | cpp_core/src/lru_cache.cpp:16-21 | writing a key replaces the lengths of its old key and value, if any, by the new ones in the total |
| `RecencyList.List.PushFront` | cpp_core/src/lru_cache.cpp:31 | a new node at the front of the linked list; all others stay and keep their order |
| `RecencyList.List.Erase` | cpp_core/src/lru_cache.cpp:49 | unlinking a node removes its key and nothing else |
| `RecencyList.List.SpliceToFront` | cpp_core/src/lru_cache.cpp:96 | splicing keeps the nodes, also when the node is the front already, and moves its key to the front |
| `RecencyList.List.PopBack` | cpp_core/src/lru_cache.cpp:108 | the last node goes, the rest stays |
| `RecencyList.UnlinkedNode` | cpp_core/src/lru_cache.cpp:63 | what unlinking a node does to the set of nodes and to the keys in order |
| `LruCache.Make` | cpp_core/src/lru_cache.cpp:6-8 | a capacity of zero is refused; any other gives the empty cache |
| `LruCache.Cache.constructor` | cpp_core/src/lru_cache.cpp:6-8 | a new cache represents the empty one |
| `LruCache.Cache.Touch` | cpp_core/src/lru_cache.cpp:95-98 | the key comes first, the others keep their order, and every stored position is still the node of its own key |
| `LruCache.Cache.EvictLru` | cpp_core/src/lru_cache.cpp:100-109 | removes the last key of the order, its entry and its bytes; does nothing on an empty order |
| `LruCache.Cache.MakeRoom` | cpp_core/src/lru_cache.cpp:27-29 | the eviction loop ends with room for one key, and what stays are the most recent ones |
| `LruCache.Cache.Set` | cpp_core/src/lru_cache.cpp:10-41 | the linked structure after SET represents the sequence model's SET; list, index, capacity and byte counter stay consistent |
| `LruCache.Cache.Get` | cpp_core/src/lru_cache.cpp:43-56 | likewise for GET, including the lazy removal of an expired key, and the value returned |
| `LruCache.Cache.Del` | cpp_core/src/lru_cache.cpp:58-66 | likewise for DEL, which does not look at expiry |
| `LruCache.Cache.EvictExpired` | cpp_core/src/lru_cache.cpp:68-82 | for any hash order and any clock readings, the sweep represents the model's sweep and counts the expired keys |
| `LruCache.Cache.AllEntries` | cpp_core/src/lru_cache.cpp:84-93 | for any hash order, each entry that is live at its own reading is listed once, and no other |
| `Runs.RunKeepsWellFormed` | cpp_core/src/lru_cache.cpp:10-109 | every reachable state is well formed: index and order agree, no duplicates, never over capacity |
| `Runs.StepOrder` | cpp_core/src/lru_cache.cpp:10-109 | every operation's effect on the order in one shape: the used key first, the survivors in the order they had |
| `Runs.UnusedStep` | cpp_core/src/lru_cache.cpp:43-82 | a GET miss, a DEL, a listing and a sweep only remove the keys they drop and reorder nothing |
| `LastUse.LastUseMeans` | cpp_core/src/lru_cache.cpp:22-54 | a key's last use is the last SET of it or GET that found it |
| `LastUse.OrderIsLastUseOrder` | cpp_core/src/lru_cache.cpp:22-54 | after any run the order is strictly decreasing in the step of each key's last SET or hit |
| `LastUse.EvictionTakesOldest` | cpp_core/src/lru_cache.cpp:100-109 | a new key in a full cache evicts exactly one key, the one unused for longest |
| `Freshness.IdealIsLatestWrite` | cpp_core/src/lru_cache.cpp:17-20 | the unbounded reference store holds exactly the latest SET of each key not followed by a DEL, with that SET's own expiry |
| `Freshness.CacheWithinIdeal` | cpp_core/src/lru_cache.cpp:13-66 | at every reachable state the cache is a sub-map of that store |
| `CacheModel.TtlIsHonoured` | cpp_core/src/lru_cache.cpp:18-20 | with 64-bit nanoseconds an entry expires when its TTL runs out, at every later reading, if and only if the sum of clock and TTL fits, or is a past one that wraps to another past one |
| `Freshness.HitIsFresh` | cpp_core/include/quarkcache/lru_cache.hpp:17-20 | a hit returns the value of the latest SET with no later DEL, strictly before that SET's expiry, which is when its TTL runs out unless that is beyond 64 bits |
| `Freshness.SmallKeyspaceIsIdeal` | cpp_core/src/lru_cache.cpp:26-56 | with no more distinct keys written than the capacity, every GET answers exactly as the unbounded store, misses included |
| `Inclusion.EvictTogether` | cpp_core/src/lru_cache.cpp:26-29 | when the larger cache must evict so must the smaller, and the victim, if shared, is the smaller's as well |
| `Inclusion.StepKeepsInclusion` | cpp_core/src/lru_cache.cpp:10-93 | every operation keeps the smaller cache's order a subsequence of the larger's, with equal entries and at most the difference in capacity of extra keys |
| `Inclusion.RunInclusion` | cpp_core/src/lru_cache.cpp:10-109 | the same after any run |
| `Inclusion.HitCarriesOver` | cpp_core/src/lru_cache.cpp:43-56 | a hit at the smaller capacity is the same hit at the larger |
| `Inclusion.HitsMonotone` | cpp_core/src/lru_cache.cpp:43-56 | the number of hits of a run grows with the capacity |
| `Inclusion.RoomForTwo` | cpp_core/src/lru_cache.cpp:43-56 | three operations that hit once with room for two keys and not at all with room for one |
| `Inclusion.FewExtraKeys` | cpp_core/src/lru_cache.cpp:26-29 | the larger cache has at most as many extra keys as extra room |
| `Retention.RetentionLaw` | cpp_core/src/lru_cache.cpp:26-29 | a used key that is then not written, deleted or expired is resident, with its entry, if and only if it never had as many rivals as the capacity |
| `Retention.RetentionGuarantee` | cpp_core/src/lru_cache.cpp:43-56 | with fewer distinct other keys used than the capacity, such a key is a hit with its own value |
| `Retention.ReachableRetention` | cpp_core/src/lru_cache.cpp:95-109 | the same from the empty cache, counted from the SET or hit that last used the key |
| `Retention.RetentionIsTight` | cpp_core/src/lru_cache.cpp:26-29 | as many other keys as the capacity written, and none of those removed by `del` or expiry after it was written, leave an unused key not resident, whatever else happens |
| `Retention.FloodLaw` | cpp_core/src/lru_cache.cpp:26-29 | after SETs of other keys only, the key used last before them is resident, with its own entry, if and only if fewer distinct keys were written than fit |
| `SweepTransparency.SweepRemovesExactlyTheExpired` | cpp_core/src/lru_cache.cpp:68-82 | a sweep removes exactly the keys expired at their own readings, keeps the others' entries and relative order, and counts what went |
| `SweepTransparency.SweepIsInvisible` | cpp_core/src/lru_cache.cpp:43-93 | until the next SET no GET or listing can tell a swept cache from an unswept one; a DEL can if and only if the sweep found its key expired and no GET, DEL or sweep has come to that key since |
| `SweepTransparency.DelNoticesSweep` | cpp_core/src/lru_cache.cpp:58-66 | a concrete cache in which a DEL notices the sweep |
| `SweepTransparency.BytesAfterSweep` | cpp_core/src/lru_cache.cpp:73 | until the next SET the byte counter that STATS shows differs if and only if some key that the sweep found expired, and that nothing has come to since, has a size |
| `SweepTransparency.StatsNoticesSweep` | cpp_core/src/lru_cache.cpp:73 | a concrete cache of which a sweep takes half the bytes |
| `SweepTransparency.AlikeMeansSameAlive` | cpp_core/src/lru_cache.cpp:43-93 | two caches answer every later run of GETs and listings alike if and only if the same entries are alive in both |
| `SweepTransparency.SetAfterSweep` | cpp_core/src/lru_cache.cpp:26-29 | the next SET makes the sweep noticeable if and only if its key is new, the unswept cache is full, some key found expired has not been come to since, and the key then evicted is alive |
| `SweepTransparency.SetNoticesSweep` | cpp_core/src/lru_cache.cpp:26-29 | a concrete cache and SET after which a GET notices the sweep |
| `StoreModel.ApplyKeepsWellFormed` | cpp_core/src/kv_store.cpp:12-52 | every request to the store keeps its cache well formed |
| `KvStore.KVStore.constructor` | cpp_core/src/kv_store.cpp:6-7 | a new store is empty, all counters zero |
| `KvStore.KVStore.Set` | cpp_core/src/kv_store.cpp:12-18 | SET on the cache and one more request |
| `KvStore.KVStore.Get` | cpp_core/src/kv_store.cpp:20-30 | GET on the cache, one more request, and one more hit or one more miss as the answer is |
| `KvStore.KVStore.Del` | cpp_core/src/kv_store.cpp:32-36 | DEL on the cache and one more request |
| `KvStore.KVStore.EvictExpired` | cpp_core/src/kv_store.cpp:38-41 | a sweep of the cache that touches no counter |
| `KvStore.KVStore.GetStats` | cpp_core/src/kv_store.cpp:43-52 | the counters, the gauge and the total size of the resident entries |
| `KvStore.KVStore.DecrementConnections` | cpp_core/src/kv_store.cpp:55-57 | the gauge goes down by one and stops at zero |
| `CriticalSection.OneEviction` | cpp_core/src/lru_cache.cpp:27-29 | the eviction loop of a SET runs at most once |
| `CriticalSection.MicroTracks` | cpp_core/src/kv_store.cpp:12-52 | each mutation of a container or of the byte counter, and each counter access, leads from one stage's picture of the store to the next one's, for all six requests |
| `CriticalSection.MicroBytes` | cpp_core/src/lru_cache.cpp:16-21 | each subtraction from and addition to the byte counter, at its own step, leads to the counter of the next stage without wrapping around |
| `CriticalSection.DoneIsApply` | cpp_core/src/kv_store.cpp:12-52 | at the last stage store and reply are those of the request executed alone |
| `CriticalSection.MicroReadings` | cpp_core/include/quarkcache/lru_cache.hpp:17-28 | all clock readings of an operation lie between its entry to and its exit from the critical section |
| `CriticalSection.MicroProgress` | cpp_core/src/lru_cache.cpp:26-93 | every micro-step brings the holder of the lock closer to releasing it |
| `Concurrency.NextKeepsInv` | cpp_core/src/kv_store.cpp:12-57 | every step of either thread keeps mutual exclusion, lock order, time stamps, legality and the picture of the store |
| `Concurrency.Linearizable` | cpp_core/src/main.cpp:28-33 | for every interleaving, all replies and the store are those of the sequential run in lock-acquisition order; whenever the lock is free the byte counter is the size of what is resident |
| `Concurrency.CounterNeverWraps` | cpp_core/src/lru_cache.cpp:105 | in every reachable state no step takes more off the unsigned byte counter than is on it |
| `Concurrency.RealTimeOrder` | cpp_core/src/kv_store.cpp:12-52 | a call finished before another is invoked comes first in that run |
| `Concurrency.CountersAreCounts` | cpp_core/src/kv_store.cpp:15-36 | hits is the number of GETs answered with a value, misses that of GETs answered without, requests that of SETs, GETs and DELs |
| `Concurrency.SnapshotIsConsistent` | cpp_core/src/kv_store.cpp:43-52 | the numbers of a STATS reply belong to one moment: each counts the calls before it, and the byte counter it read is the size of what was then resident |
| `Concurrency.HolderProgress` | cpp_core/src/kv_store.cpp:38-41 | the holder of the lock can always step, with fewer steps to go |
| `Completion.ClockIsElapsed` | cpp_core/include/quarkcache/lru_cache.hpp:17-20 | in every interleaving the clock shows the sum of the times that have passed |
| `Completion.LoopAtRest` | cpp_core/src/server.cpp:188-219 | between two commands the event loop can take and release the buffer lock and move the gauge up and, not below zero, down, whatever the expiry thread is doing |
| `Completion.CallCompletes` | cpp_core/src/kv_store.cpp:12-52 | in any execution that has come to a free lock, an idle event loop holding the buffers can make every request but a sweep, and an idle expiry thread a sweep: exactly this call is then added to the log, store and reply are those of the request executed alone, all readings are the time elapsed by then, and the lock is free again |
| `Completion.FirstCall` | cpp_core/src/lru_cache.cpp:31-39 | a first SET from the start: the key is resident with its value, one call is logged, and six bytes are counted for a key of one and a value of five |
| `Concurrency.NoDeadlock` | cpp_core/src/server.cpp:270-293 | the buffer lock is always taken before the store lock, and some thread can always go on |
| `ConcurrentRuns.ReplayIsRun` | cpp_core/src/kv_store.cpp:12-52 | the calls of an interleaved execution, in lock order, are a run of the cache |
| `ConcurrentRuns.ConcurrentHitIsFresh` | cpp_core/src/kv_store.cpp:20-30 | in any interleaving a hit has the value of the latest SET in lock order, with no DEL since, before that SET's expiry |
| `ConcurrentRuns.ConcurrentSmallKeyspace` | cpp_core/src/kv_store.cpp:20-30 | in any interleaving that has written no more distinct keys than fit, every GET answers as the unbounded store, misses included |
| `Framing.SplitReassembles` | cpp_core/src/server.cpp:277-285 | lines and residual put together again give the stream, and contain no line feed |
| `Framing.SplitIsUnique` | cpp_core/src/server.cpp:277-285 | no other cut has that property |
| `Framing.FirstOfStream` | cpp_core/src/server.cpp:279-283 | a stream's first line, ended by CR LF or by LF, is its first command, unless it is empty; one CR goes with the line end and no more |
| `Framing.SplitConcat` | cpp_core/src/server.cpp:270-285 | the residual is all that needs remembering between two pieces of a stream |
| `Framing.ChunkingInvariance` | cpp_core/src/server.cpp:268-293 | for every way of cutting a stream into pieces the same lines are dispatched in the same order, and the same residual is left |
| `Text.TokensAreWords` | cpp_core/src/server.cpp:49-55 | tokens are non-empty and free of whitespace |
| `Text.TokensOfPadded` | cpp_core/src/server.cpp:49-55 | words separated by any whitespace are tokenized into exactly those words |
| `Text.TokensCover` | cpp_core/src/server.cpp:49-55 | every string is its tokens with some whitespace around them |
| `Text.TokensJoin` | cpp_core/src/server.cpp:49-55 | cutting a string at a space, or at one of the controls 9 to 13, leaves the tokens of the two sides |
| `Text.TokensOfWord` | cpp_core/src/server.cpp:49-55 | a text without such a character is one token |
| `Text.StollOfNumeral` | cpp_core/src/server.cpp:309-312 | an optional sign, the digits behind it and what follows them: nothing without a digit, or when the number spelled does not fit into 64 bits; else that number |
| `Text.NumeralOf` | cpp_core/src/server.cpp:309-312 | every string can be seen that way |
| `Text.ValueOfOneMore` | cpp_core/src/server.cpp:310-311 | the number that decimal digits spell, digit by digit |
| `Text.SomeTtls` | cpp_core/src/server.cpp:309-312 | three tokens that are taken for a TTL and two that are not |
| `Text.StollOfIntText` | cpp_core/src/server.cpp:310-311 | a printed integer is read back if and only if it fits into 64 bits; otherwise it is refused |
| `Protocol.SurplusIgnored` | cpp_core/src/server.cpp:306-337 | tokens after those a command reads do not matter |
| `Protocol.SetLine` | cpp_core/src/server.cpp:306-314 | what a line does whose first word is SET in any case: refused with which text, or the store's SET and OK |
| `Protocol.GetLine` | cpp_core/src/server.cpp:316-319 | the same for GET: refused, the value, or NOT_FOUND |
| `Protocol.DelLine` | cpp_core/src/server.cpp:321-323 | the same for DEL |
| `Protocol.StatsLine` | cpp_core/src/server.cpp:325-335 | STATS changes nothing and prints each counter under its own name |
| `Protocol.KeysLine` | cpp_core/src/server.cpp:337-348 | KEYS changes nothing and prints the rows of its listing, then END |
| `Protocol.OtherLine` | cpp_core/src/server.cpp:350-352 | any other first word changes nothing and is answered with an error that names it in upper case |
| `Protocol.EmptyLine` | cpp_core/src/server.cpp:301 | a line without words changes nothing and is answered with an error |
| `Protocol.ParsedWords` | cpp_core/src/server.cpp:299-323 | a line only ever asks for requests about words, and never for a sweep |
| `Protocol.ExecuteKeepsWords` | cpp_core/src/server.cpp:299-353 | executing any line keeps a store of words a store of words |
| `Protocol.ErrorIsOneLine` | cpp_core/src/server.cpp:299-351 | every error text is one line, also with the unknown command's name in it |
| `Protocol.ResponseFraming` | cpp_core/src/server.cpp:285-353 | every line gets exactly one CRLF-terminated line as its answer, and a KEYS one line per live entry and END |
| `Protocol.CrlfSplits` | cpp_core/src/server.cpp:342-348 | cutting an answer at its line feeds gives back its lines |
| `Connections.ClientIsolation` | cpp_core/src/server.cpp:221-293 | in any history of accepts, drains and closes the lines dispatched for a connection, and the bytes kept for it, depend only on what it sent |
| `Connections.SameBytesSameLines` | cpp_core/src/server.cpp:270-293 | two histories in which a client sent the same bytes dispatch the same lines for it |
| `Connections.GaugeCountsClients` | cpp_core/src/server.cpp:198-263 | the gauge is the number of open clients, which is the number of read buffers |
| `Connections.CloseFindsPositiveGauge` | cpp_core/src/server.cpp:240-245 | so at every close the guarded decrement finds a positive gauge |
| `Connections.WhatCanFollow` | cpp_core/src/server.cpp:188-263 | any descriptor that is not open can be accepted next, any open one drained or closed |
| `Connections.ReusedDescriptor` | cpp_core/src/server.cpp:240-245 | a line begun by one client and finished by the next one on its descriptor is not put together |
| `TcpServer.Tokenize` | cpp_core/src/server.cpp:49-55 | the extraction loop yields the tokens |
| `TcpServer.Drain` | cpp_core/src/server.cpp:222-228 | pieces of any size up to 4096 bytes add up to what arrived |
| `TcpServer.PrintRows` | cpp_core/src/server.cpp:341-345 | the rows printed for a listing, each with its own clock reading |
| `TcpServer.Server.AcceptClient` | cpp_core/src/server.cpp:188-219 | the gauge goes up, the client gets an empty buffer, nothing else changes |
| `TcpServer.Server.Disconnect` | cpp_core/src/server.cpp:240-245 | the gauge goes down, the client's buffer goes, nothing else changes |
| `TcpServer.Server.ProcessSet` | cpp_core/src/server.cpp:306-314 | too few tokens and a bad TTL are refused without effect; else the store's SET, and the answer's text |
| `TcpServer.Server.ProcessGet` | cpp_core/src/server.cpp:316-319 | too few tokens are refused without effect; else the store's GET, and the answer's text |
| `TcpServer.Server.ProcessDel` | cpp_core/src/server.cpp:321-323 | too few tokens are refused without effect; else the store's DEL, and the answer's text |
| `TcpServer.Server.ListKeys` | cpp_core/src/server.cpp:337-348 | a row for each live entry, in any hash order, then END, each key and each row with the reading that the clock shows for it; the store is unchanged |
| `TcpServer.Server.ProcessCommand` | cpp_core/src/server.cpp:299-353 | a line has on the store the effect, and gives the text, that the protocol specifies, for the readings that its clock shows |
| `TcpServer.Server.DispatchLines` | cpp_core/src/server.cpp:277-293 | the framing loop executes exactly the buffered command lines in order, each with the readings of its own clock, gives one answer each, leaves the residual, and touches no other buffer |
| `TcpServer.Server.HandleRead` | cpp_core/src/server.cpp:221-293 | a drain that ends in EAGAIN feeds and dispatches, each line with the readings of its own clock; one that ends in end-of-file or an error disconnects and discards |
| `ServedLines.AnswersAreFramed` | cpp_core/src/server.cpp:281-292 | serving any lines keeps the store a store of words and answers each line exactly once, well framed |
| `ServedLines.LinesAreCounted` | cpp_core/src/server.cpp:299-353 | well-formed SET, GET and DEL lines, and no others, count as requests; well-formed GET lines, and no others, as a hit or a miss |
| `ServedLines.ReachableWordsOnly` | cpp_core/src/server.cpp:281-292 | whatever is sent and however the threads interleave, only words are ever stored |
| `ServedLines.ReachableAnswersAreFramed` | cpp_core/src/server.cpp:325-348 | and every reply is printed as complete lines: one, or the live entries and END |
| `ServedLines.LineIsServed` | cpp_core/src/server.cpp:279-292 | at any point of an interleaving with the lock free and the event loop idle, every well-formed line can be served, with the effect and the answer of executing it then |
| `ServerClock.TtlOnTheServer` | cpp_core/src/server.cpp:306-319 | a SET with a TTL and a GET in one stream: the GET finds the value if and only if its reading is before the SET's reading plus the TTL |
| `ServerClock.TtlOfFive` | cpp_core/src/server.cpp:306-319 | a TTL of five seconds, set at the first second, asked for at the sixtieth |
| `ServerClock.ListedOnTheServer` | cpp_core/src/server.cpp:337-348 | a SET with a TTL and a KEYS in one stream: listed if and only if the reading at the key is before the end of the TTL, with the whole seconds left at the reading for the row |
| `ServerClock.ListingOfFive` | cpp_core/src/server.cpp:337-348 | the same TTL of five seconds in two listings, one with three seconds left and one too late |
| `Client.ReceiveResponse` | backend/app/services/cache_client.py:49-60 | the reading code returns the response, or fails, as specified; when, is stated by `ReadOutcomes` |
| `ReadOutcomes.ReadingEnds` | backend/app/services/cache_client.py:51-57 | reading until END, for every stream: the first line that is END or over the limit decides; with none, an open connection times out and a closed one is read from for ever |
| `ReadOutcomes.NeverEndsExactly` | backend/app/services/cache_client.py:51-56 | the loop never ends if and only if the connection is closed and nothing that was sent is END or over the limit |
| `ReadOutcomes.TimesOutExactly` | backend/app/services/cache_client.py:52 | it times out if and only if the connection is open and neither END nor a line over the limit has come |
| `ReadOutcomes.CutListingNeverEnds` | backend/app/services/cache_client.py:51-56 | a listing cut off after its first row, with which the loop never ends |
| `ReadOutcomes.OneLineEnds` | backend/app/services/cache_client.py:58-60 | a one-line response, for every stream: what stands before the first line feed decides, and at end of file part of a line passes for a line |
| `ReadOutcomes.CutFound` | backend/app/services/cache_client.py:83-88 | a found value cut off by the end of the connection is returned shortened if and only if the cut is behind the prefix; before it, it raises |
| `ReadOutcomes.CutValueIsReturned` | backend/app/services/cache_client.py:84-85 | a value of three letters of which two are returned |
| `ReadOutcomes.CutNotFound` | backend/app/services/cache_client.py:86-98 | the answer that a key was not found, cut off, raises if and only if a letter is missing |
| `ReadOutcomes.CutOk` | backend/app/services/cache_client.py:77-95 | the answer of success, cut off, raises if and only if a letter is missing |
| `ReadOutcomes.CutListing` | backend/app/services/cache_client.py:50-57 | a listing cut off at any place: it is taken for a listing, of the rows before, if and only if what is left of its last line reads END |
| `ReadOutcomes.CutRowPassesForEnd` | backend/app/services/cache_client.py:54 | a row cut off to the letters END, for which the client returns an empty listing |
| `Client.RStripCuts` | backend/app/services/cache_client.py:53-60 | `rstrip` cuts off line ends and nothing else, and leaves none |
| `Client.ListingCommands` | backend/app/services/cache_client.py:49 | a command is read until END if and only if it begins, behind any whitespace, with KEYS in any case |
| `Client.SingleLineResponse` | backend/app/services/cache_client.py:58-60 | a one-line answer reaches the caller, without its line end, if and only if it is not over the limit |
| `Client.ReadStopsAtEnd` | backend/app/services/cache_client.py:50-57 | reading until END returns exactly the lines before it, whatever follows on the stream, unless one is over the limit |
| `KeysListing.ListKeys` | backend/app/services/cache_client.py:116-130 | the parsing loop yields the items of the lines |
| `KeysListing.SplitOfJoin` | backend/app/services/cache_client.py:57-117 | `splitlines` undoes the join when no line is empty or has a cut inside |
| `KeysListing.CutAtBreak` | backend/app/services/cache_client.py:117 | `splitlines` cuts at each of its ten characters, given by code point, and takes CR LF for one |
| `KeysListing.OtherLines` | backend/app/services/cache_client.py:118-129 | lines that the server does not print: without a space skipped, with two fields or a third that is no number or negative without TTL |
| `KeysListing.SomeFields` | backend/app/services/cache_client.py:124-128 | which third fields are numbers |
| `KeysListing.RowIsRead` | backend/app/services/cache_client.py:118-129 | a printed row is parsed into its key, its value and its TTL, -1 becoming None |
| `KeysListing.ListingIsReceived` | backend/app/services/cache_client.py:49-57 | a printed listing is read up to its END line, for no row can equal END, unless a row is over the limit |
| `KeysListing.ListingRoundTrip` | backend/app/services/cache_client.py:113-130 | the printed rows are recovered, each once and in order, if and only if no key or value holds a cut |
| `KeysListing.PrintableIsUnbroken` | backend/app/services/cache_client.py:117 | printable ASCII words never hold one |
| `EndToEnd.WireIsOneCommand` | backend/app/services/cache_client.py:44 | a command without a line feed gets one line end, and is cut by the server out of the wire text as exactly one line |
| `EndToEnd.SetDelivered` | backend/app/services/cache_client.py:71-76 | `set_key` delivers exactly its own SET if and only if key and value are words and the TTL fits into 64 bits |
| `EndToEnd.KeyDelivered` | backend/app/services/cache_client.py:81-93 | `get_key` and `delete_key` deliver exactly their own request if and only if the key is a word |
| `EndToEnd.SpaceIsMisread` | backend/app/services/cache_client.py:73 | a value with a space that is delivered as another value and a TTL |
| `EndToEnd.KeyIsMisread` | backend/app/services/cache_client.py:83-93 | a key with a space for which another key is read, and deleted |
| `EndToEnd.TtlIsRefused` | cpp_core/src/server.cpp:309-312 | a TTL outside the 64-bit range raises, and stores nothing |
| `EndToEnd.BreakIsMisread` | backend/app/services/cache_client.py:73 | a value with a line break that is delivered as two commands |
| `EndToEnd.SetCall` | backend/app/services/cache_client.py:71-78 | `set_key` succeeds and stores its entry, with the expiry that 64-bit nanoseconds give |
| `EndToEnd.GetCall` | backend/app/services/cache_client.py:81-88 | `get_key` returns what the cache's GET returns, unless the value is too long for a line |
| `EndToEnd.LongValueIsNotRead` | backend/app/services/cache_client.py:59 | the longest value that is read back, and one byte more, which is stored but not read |
| `EndToEnd.DelCall` | backend/app/services/cache_client.py:91-98 | `delete_key` returns whether the key was resident, expired or not, and removes it |
| `EndToEnd.SetThenGet` | backend/app/services/cache_client.py:71-88 | `get_key` directly after `set_key` finds the value if and only if the entry has not expired, which is when the TTL has run out unless that is beyond 64 bits |
| `EndToEnd.TtlIsKept` | cpp_core/src/lru_cache.cpp:34-36 | a positive TTL is honoured by every later `get_key` if and only if the sum of clock and TTL fits into 64-bit nanoseconds |
| `EndToEnd.HugeTtlIsLost` | cpp_core/src/lru_cache.cpp:34-36 | a TTL of ten billion seconds that is accepted and loses its value at once |
| `EndToEnd.SetSweepGet` | cpp_core/src/main.cpp:28-33 | the same with any sweep of the expiry thread between the two calls |
| `EndToEnd.DelThenGet` | backend/app/services/cache_client.py:81-98 | `get_key` directly after `delete_key` finds nothing |
| `EndToEnd.StatsCall` | backend/app/services/cache_client.py:103-106 | `get_stats` changes nothing and finds, behind the prefix it cuts off, the JSON text with each counter under its own name, which 64-bit counters keep short enough |
| `Refusals.SetExchanged` | backend/app/services/cache_client.py:71-78 | `set_key` for every key, value and TTL: with which text it raises, or that it returns; a refused SET has done nothing; what follows a line feed is executed |
| `Refusals.GetExchanged` | backend/app/services/cache_client.py:81-88 | `get_key` for every key: it raises if and only if no word comes before the first line feed, else it asks for the first word |
| `Refusals.DelExchanged` | backend/app/services/cache_client.py:91-98 | the same for `delete_key` |
| `Refusals.SetOnOneLine` | backend/app/services/cache_client.py:71-78 | `set_key` for every key and value without a line feed: refused with which text and nothing stored, or the second of all words stored under the first, the third being the TTL |
| `Refusals.GetOnOneLine` | backend/app/services/cache_client.py:81-88 | `get_key` for every key without a line feed |
| `Refusals.DelOnOneLine` | backend/app/services/cache_client.py:91-98 | `delete_key` for every key without a line feed |
| `Refusals.SpacedValueIsRefused` | cpp_core/src/server.cpp:309-312 | a value of two words for which `set_key` raises, and nothing is stored |
| `Refusals.EmptyIsRefused` | cpp_core/src/server.cpp:307-322 | an empty value and an empty key, for which the calls raise |
| `Refusals.RefusedAndStored` | cpp_core/src/server.cpp:278-292 | a value with a line feed for which `set_key` raises and yet stores another key |
| `EndToEnd.TtlRemainingMeaning` | cpp_core/include/quarkcache/lru_cache.hpp:23-28 | the TTL shown is the whole seconds left, rounded down and never negative, if the distance to the expiry fits into 64 bits; none without an expiry |
| `EndToEnd.ListedTtl` | cpp_core/src/server.cpp:341-345 | which holds for every entry that a listing found alive |
| `Concurrency.ReplayStampsFit` | cpp_core/src/lru_cache.cpp:34-36 | in every reachable store the expiries are 64-bit numbers |
| `EndToEnd.ListKeysRecoversLive` | backend/app/services/cache_client.py:113-130 | `list_keys` recovers the live entries, each once, if and only if none holds a cut and no row is over the limit; each with its value and the whole seconds it has left, never below zero, or None |
| `EndToEnd.BrokenValueIsLost` | backend/app/services/cache_client.py:117 | a value with a U+001C that is delivered and stored, and never listed |
| `EndToEnd.LongRowIsNotRead` | backend/app/services/cache_client.py:52 | a value that is stored and makes every listing unreadable |
| `Metrics.MetricsService.GetMetrics` | backend/app/services/metrics_service.py:38-46 | after any polls, the recent operations are the new total minus the total recorded just before the first poll counted, and zero if there is none before it; counted are the polls made at most 1.0 second ago that are among the last sixty |
| `Metrics.MetricsService.SumRecent` | backend/app/services/metrics_service.py:44-46 | the loop adds up the counts whose timestamps are at most a second old |
| `Metrics.RecentIsSuffix` | backend/app/services/metrics_service.py:44-46 | the recent entries are the last ones |
| `Metrics.OneSecondIsCounted` | backend/app/services/metrics_service.py:45 | a poll made exactly a second ago is counted, one a thousandth of a second earlier is not |
| `Metrics.SixtyAreCounted` | backend/app/services/metrics_service.py:20 | of any number of polls at one moment, the last sixty are counted |
| `Metrics.HistoryGrows` | backend/app/services/metrics_service.py:20-41 | the bounded history is that of the last 60 polls |
| `Metrics.WindowTelescopes` | backend/app/services/metrics_service.py:38-46 | the recent counts telescope, also when the bounded history has dropped entries |
| `Metrics.InOrderTotalsAreSane` | backend/app/services/metrics_service.py:39-46 | totals that arrive in order give neither a negative rate nor more than all requests |
| `Metrics.RateIsNegative` | backend/app/services/metrics_service.py:39-46 | the rate is negative if and only if the total has fallen below the one recorded just before the first poll counted |
| `Metrics.FallenTotalIsNegative` | backend/app/services/metrics_service.py:39-46 | two polls for which it is |

## Left out

- Sockets, epoll and kqueue registration, `errno`, partial writes: a drain is the bytes that arrived and how it ended, and a new connection's descriptor is one that is not open.
- Signals, environment variables, process start-up and the five seconds between sweeps: the expiry thread may sweep at any time.
- `std::list`, `std::unordered_map`, `std::mutex` and atomics as libraries: list nodes are modelled, the hash map is a finite map with an arbitrary iteration order, the mutex is a lock step.
- Integer widths: the request counters, the gauge and sizes in memory are unbounded. The range of a TTL, the 64-bit nanoseconds of an expiry, the wrap-around of the byte counter's subtraction and the stream reader's limit are modelled. Signed overflow, which C++ leaves undefined, is taken to wrap around.
- Bytes and characters: UTF-8 encoding and decoding are left out. On the server's side a character stands for a byte, in sizes, limits and whitespace; on the client's side, after decoding, for a code point, in what `splitlines` cuts. The two agree for ASCII.
- KvStore.KVStore.Set: does not take the lock itself, nor do the other methods of the object; locking is the subject of the `Concurrency` state machine, whose steps are tied to the same specification functions.
- Client.ReceiveResponse: does not model errors in opening the connection, nor the five seconds of a timeout: what has not arrived when reading starts does not arrive. `strip` and `upper` are modelled for ASCII.
- KeysListing.ListKeys: Python's `int` is modelled for an optional minus sign and digits, which is all the server prints; signs, underscores and spaces that `int` also accepts are not modelled.
- EndToEnd.StatsCall: does not decode the JSON payload, which is library behaviour.
- Metrics.MetricsService.GetMetrics: does not model the hit ratio, its rounding, the defaults for missing fields or the other fields that are passed through; times are real numbers.
- `benchmark_service.py`, `ai_service.py`, the routers and schemas, the frontend and the container files: plumbing, canned text and configuration.
