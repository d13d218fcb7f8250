# A verified model of the DHT crawler's in-memory cores

The crawler finds torrents on the BitTorrent DHT and fetches their metadata. This project models the parts
of it that keep state and make promises: the metadata request scheduler and its hash conversion, the
query rate limiter, the Kademlia routing table, the two thread pools, the request life cycle, peer-message
framing, the configuration file and the metadata piece store.

`dafny verify dfyconfig.toml` checks everything.

## How it is organised

| module | models |
|---|---|
| `HashFormat` | info-hash formats and their conversion to hex and back to bytes |
| `RequestQueue`, `Downloader`, `DownloaderRuns`, `DownloaderCalls` | the metadata request scheduler: queue, turns, every run, what each call does |
| `RateLimiter` | the sliding-window limiter, with the whole send history beside it |
| `Kademlia`, `Closest`, `RoutingTable`, `RoutingTableRuns`, `RoutingTableManager` | ids, distances, closest nodes, the two indexes, every run, the node objects |
| `WorkerPool`, `WorkerPoolHistory`, `DhtWorkers`, `DhtWorkersHistory` | the thread pools, as interleavings of atomic steps, and what their histories determine |
| `RequestId`, `RequestCache`, `RequestLives` | request identifiers, the four-map life cycle, and the life of a single request it amounts to |
| `PeerWire`, `ConfigFile` | two printer/parser pairs |
| `PieceStore`, `PieceLives` | metadata pieces, their integrity check, and the life of a single piece |
| `Machine`, `Digits`, `Strings`, `Sequences`, `Totals`, `Wrappers` | C++ integer and clock conventions, positional numbers, search, lists without repetitions, sums, optional values |

Code that updates an object is a class whose methods are proved against a specification function on values
(`Model()` gives the value); runs of calls are sequences of events over those functions, and the main
results are about every run. Invariants bound what a run may do; beside them stand results that say exactly
what it does do: which queries go through, which requests start, which ids are registered, what is pending,
and how each request and each piece lives. The pools are step machines: one step for each locked region and each atomic
counter update, in any order the threads allow. The clock, the session's answers, random hashes and map
iteration order are arbitrary inputs. Times are counted in nanoseconds.

## Where the code does less than it says

Each of these is proved as an exact condition, so the table of members below says when the promise holds.

- The burst limit looks back over a window but only one second of time stamps is kept. The promise "at most
  `limit` sends in any window" holds on all runs exactly for the settings `BurstSettingsSafe` names; the
  shipped 10 / 50 / 5000 ms are among them, 100 / 50 / 5000 ms are not. A negative rate is no rate limit.
- `getClosestNodes` takes a target and ignores it: it sorts by distance to our own id
  (`ServesOnlyOurself`). Distance bytes are compared as `char`, so where `char` is signed the order is the
  numeric one exactly for the pairs `CloserIsNumericExactly` names.
- The bucket index of a foreign node is 24 above its common-prefix length, while only buckets 0 to 7 are
  made at the start; so no foreign node ever enters a bucket unless splitting is on with bucket size 0
  (`BucketsHoldOnlySelfExactly`).
- Three operations can make registry and buckets disagree. Splitting bucket b replaces bucket b+1 by an
  empty one, and breaks the integrity check exactly when a registered node has index b+1
  (`SplitIntegrity`). The monitor thread expires nodes from the bucket lists only, and breaks it exactly when
  an expired node is listed and registered (`CleanupIntegrity`). `clearExpiredNodes` and
  `optimizeRoutingTable` drop nodes from the registry only, and leave unregistered nodes in buckets under the
  same condition (`ForgetIntegrity`). Over whole runs the check never fails exactly when splitting is off or
  the bucket size is positive, and our own id is never added or the monitor's expiry never acts
  (`IntegrityHoldsExactly`): with the default configuration, adding our own id and waiting for the node
  timeout makes it fail.
- `getRequestStatus` looks into two of the four maps and reports completed and failed requests as not found
  (`StatusAgreesExactly`).
- The worker pool counts every receipt, and every timeout that `cleanup_timeouts` sweeps, once per worker
  (`ReportedTotals`). Timeouts collected by a bare `get_timed_out_requests`, as the crawler does in its main
  loops, are not counted at all, so the report covers all timeouts exactly when no bare call ever removed one
  (`TimeoutsReportedExactly`).
- A declared message length within 4 of 2^32 passes the 32-bit bounds check of `parseMessage` and leads to a
  read past the data; the model calls that outcome `Undefined` and `RejectsTruncatedExactly` bounds it. The
  message kinds are positions in the program's own enumeration, not the identifiers of BEP 3.
- `repairPieceManager` divides by `max_piece_size`; with 0 the model's outcome is `None`.
- Where a `.cpp` file and its header disagree on a name or a type, the model follows the `.cpp` file.

## Model

| member | source | states |
|---|---|---|
| `RateLimiter.RateLimitedDHTManager.constructor` | src/smart_dht_crawler.hpp:36-46 | starts with 10 queries a second, 50 per 5000 ms, no time stamps and zero counters |
| `RateLimiter.RateLimitedDHTManager.SendQuery` | src/smart_dht_crawler.hpp:49-101 | the pruning, counting and sending loops compute `Sending`: refused and counted when the rate or burst limit is reached, stamped only when the session call succeeds |
| `RateLimiter.RateLimitedDHTManager.SetRateLimit` | src/smart_dht_crawler.hpp:103-106 | changes the rate and nothing else |
| `RateLimiter.RateLimitedDHTManager.SetBurstLimit` | src/smart_dht_crawler.hpp:108-113 | changes the burst limit and window and nothing else |
| `RateLimiter.PruneIsSuffix` | src/smart_dht_crawler.hpp:53-56 | pruning keeps a suffix, drops only stamps more than a second old, and stops at the first younger one |
| `RateLimiter.QueryKeepsInv` | src/smart_dht_crawler.hpp:49-101 | a query, sent or refused, keeps the queue equal to the last sends, everything forgotten more than a second old, and every send spaced from the one `rate` (and `burst limit`) places before |
| `RateLimiter.RunKeepsInv` | src/smart_dht_crawler.hpp:49-113 | the same in every state of every run of queries and setting changes |
| `RateLimiter.QueryExactly` | src/smart_dht_crawler.hpp:49-101 | a query goes through if and only if the last second of the whole history holds fewer sends than the rate and the burst window, as far as it lies in that second, fewer than the burst limit; it is then appended and counted, a refused one counted as blocked, one the session fails not counted |
| `RateLimiter.SecondWindowBound` | src/smart_dht_crawler.hpp:53-63 | every closed one-second window of the whole send history holds at most the rate limit in force at the window's last send |
| `RateLimiter.BurstWindowBound` | src/smart_dht_crawler.hpp:65-83 | however the settings change, a window whose last send saw a burst window of at most 1000 ms, and no shorter than it, holds at most that send's burst limit |
| `RateLimiter.ManySecondsBound` | src/smart_dht_crawler.hpp:53-63 | with rates never above r, every closed window of k seconds holds at most k * r sends |
| `RateLimiter.DefaultBurstHolds` | src/smart_dht_crawler.hpp:40-42 | the shipped settings keep 50 per 5000 ms on every run |
| `RateLimiter.BurstBranchUnreachable` | src/smart_dht_crawler.hpp:65-83 | with burst limit at least the rate, the burst check never refuses what the rate check let through |
| `RateLimiter.BurstSafe` | src/smart_dht_crawler.hpp:65-83 | under safe settings no window of any run exceeds the burst limit; with a limit of 0 or below nothing is ever sent |
| `RateLimiter.BurstBroken` | src/smart_dht_crawler.hpp:65-83 | under any other settings a run of full batches just over a second apart exceeds it |
| `RateLimiter.BurstPromiseExactly` | src/smart_dht_crawler.hpp:65-83 | for all int settings, negative ones included: the burst promise holds on all runs if and only if the window or the limit is not positive, or min(rate, limit) times the seconds a window touches is at most the limit |
| `RateLimiter.BurstSafeCases` | src/smart_dht_crawler.hpp:65-83 | windows of at most 1000 ms are always safe; longer ones never are when the rate (none, if negative) exceeds a positive limit; 10 / 50 / 5000 is safe |
| `HashFormat.ConvertHashToHex` | src/enhanced_metadata_manager.hpp:42-110 | the format checks and loops of `convert_hash_to_hex` compute `HexOf` |
| `HashFormat.ConvertBase32` | src/enhanced_metadata_manager.hpp:60-96 | the 32-character branch: empty for a bad character, otherwise hex by way of the bit string |
| `HashFormat.Base32ToBinary` | src/enhanced_metadata_manager.hpp:69-81 | fails exactly when some character is outside the alphabet, otherwise yields the bit string |
| `HashFormat.FiveBits` | src/enhanced_metadata_manager.hpp:77-80 | the five bits of a position, most significant first |
| `HashFormat.BinaryToHex` | src/enhanced_metadata_manager.hpp:83-94 | four bits to each hex digit, over the whole bit string |
| `HashFormat.NibbleValue` | src/enhanced_metadata_manager.hpp:86-91 | the or-loop computes the nibble's positional value |
| `HashFormat.DigitAgreesWithRfc` | src/enhanced_metadata_manager.hpp:64-74 | the upper-cased table search is the digit value of section 6 of RFC 4648 for either case, -1 for all else |
| `HashFormat.BitsValue` | src/enhanced_metadata_manager.hpp:70-81 | the bit string denotes the number the base32 digits denote |
| `HashFormat.NibblesValue` | src/enhanced_metadata_manager.hpp:84-94 | grouping bits by four keeps the number |
| `HashFormat.ByteNibblesValue` | src/enhanced_metadata_manager.hpp:99-107 | two hex digits to each byte keep the number |
| `HashFormat.ConversionKeepsValue` | src/enhanced_metadata_manager.hpp:42-110 | the result is empty if and only if the input is in none of the three formats, and otherwise 40 hex digits denoting the same 160-bit number |
| `HashFormat.ConversionIdempotent` | src/enhanced_metadata_manager.hpp:42-56 | converting twice is converting once, for every string |
| `HashFormat.SameHexIffSameHash` | src/enhanced_metadata_manager.hpp:42-110 | two accepted hashes in any formats denote one number if and only if their hex forms agree up to letter case |
| `HashFormat.DecodeTarget` | src/smart_dht_crawler.hpp:335-339 | the byte loop over 40 characters, failing at the first pair `stoi` rejects |
| `HashFormat.DecodeKeepsValue` | src/smart_dht_crawler.hpp:335-339 | decoding hex digits never fails and keeps the number |
| `HashFormat.DecodedTargetIsHash` | src/smart_dht_crawler.hpp:335-339 | converting any accepted hash to hex and decoding it gives the 20 bytes of the number it names; for a 20-byte hash, those very bytes |
| `RequestQueue.MetadataRequestQueue.constructor` | src/enhanced_metadata_manager.hpp:263-265 | an empty queue with an empty look-up set |
| `RequestQueue.MetadataRequestQueue.Enqueue` | src/enhanced_metadata_manager.hpp:267-275 | appends unless the hash is queued; hashes stay distinct and the set stays equal to them |
| `RequestQueue.MetadataRequestQueue.Dequeue` | src/enhanced_metadata_manager.hpp:277-297 | removes and returns the first entry of highest priority, from vector and set alike |
| `RequestQueue.MetadataRequestQueue.Contains` | src/enhanced_metadata_manager.hpp:307-309 | true exactly when an entry with that hash is in the vector |
| `RequestQueue.Best` | src/enhanced_metadata_manager.hpp:282-288 | no entry has a higher priority and every earlier one has a lower |
| `RequestQueue.FindBest` | src/enhanced_metadata_manager.hpp:282-288 | the scan finds that entry |
| `RequestQueue.RemovalKeepsIndex` | src/enhanced_metadata_manager.hpp:294-295 | removing one entry removes exactly its hash from the set of hashes |
| `RequestQueue.DrainPermutes` | src/enhanced_metadata_manager.hpp:277-297 | draining hands out exactly the queued entries |
| `RequestQueue.DrainIsStableSort` | src/enhanced_metadata_manager.hpp:277-297 | draining yields descending priority, first in first out within each priority |
| `RequestQueue.StableSortUnique` | src/enhanced_metadata_manager.hpp:277-297 | that description fixes the order completely |
| `Downloader.PersistentMetadataDownloader.constructor` | src/enhanced_metadata_manager.hpp:358-370 | limit 1000, timeout 20 s, everything else empty or zero |
| `Downloader.PersistentMetadataDownloader.RequestMetadata` | src/enhanced_metadata_manager.hpp:373-398 | refused only without a session; a hash already active or queued changes nothing; otherwise queued, counted and processed |
| `Downloader.PersistentMetadataDownloader.ProcessQueue` | src/enhanced_metadata_manager.hpp:401-436 | the loop terminates for every sequence of session answers and computes `Process` |
| `Downloader.PersistentMetadataDownloader.TakeTurn` | src/enhanced_metadata_manager.hpp:411-428 | one turn: started, re-queued one priority lower with a marked source, or dropped and counted as a failure |
| `Downloader.PersistentMetadataDownloader.ProcessSingleRequest` | src/enhanced_metadata_manager.hpp:439-486 | succeeds exactly when the hash converts and the session takes it, and only then becomes active |
| `Downloader.PersistentMetadataDownloader.HandleMetadataReceived` | src/enhanced_metadata_manager.hpp:488-495 | removes the active request, counts a success whether or not there was one, then processes the queue |
| `Downloader.PersistentMetadataDownloader.GetTimedOutRequests` | src/enhanced_metadata_manager.hpp:228-240 | exactly the active hashes whose age in whole seconds reaches the timeout, each once |
| `Downloader.RemoveRequests` | src/enhanced_metadata_manager.hpp:607-621 | the clean-up loop removes and counts each listed hash |
| `Downloader.PersistentMetadataDownloader.CleanupTimedOutRequests` | src/enhanced_metadata_manager.hpp:603-629 | removes and counts the timed-out requests; processes the queue only if there were any |
| `Downloader.PersistentMetadataDownloader.AdjustConcurrentLimit` | src/enhanced_metadata_manager.hpp:662-675 | moves the limit and nothing else |
| `Downloader.PersistentMetadataDownloader.SetMaxConcurrentRequests` | src/enhanced_metadata_manager.hpp:651-654 | sets the limit and nothing else |
| `Downloader.TurnUsesWork` | src/enhanced_metadata_manager.hpp:411-428 | the sum of max(1, priority) over the queue falls strictly with every turn, whatever the session answers |
| `DownloaderCalls.TurnExactly` | src/enhanced_metadata_manager.hpp:411-428 | the entry of highest priority leaves the queue and becomes active if and only if its hash names a 160-bit number and the session takes it; otherwise it goes to the end one priority lower with a marked source, or at priority 1 or below counts as a failure |
| `DownloaderCalls.RoundGoesOn` | src/enhanced_metadata_manager.hpp:403-409 | a round starts at most 50 requests, and fewer only if it leaves the queue empty or no slot free |
| `DownloaderCalls.RoundStartsFirst` | src/enhanced_metadata_manager.hpp:401-436 | with nothing refused, a round starts exactly the first min(50, free slots, queue length) requests of the drained queue and leaves the rest |
| `DownloaderCalls.ProcessFrame` | src/enhanced_metadata_manager.hpp:401-436 | a round leaves active requests as they are, starts only queued hashes and queues none anew |
| `DownloaderCalls.ProcessAccounts` | src/enhanced_metadata_manager.hpp:401-436 | every queued request ends the round queued, active, or with all max(1, priority) attempts used; each given up counts as one failure |
| `DownloaderCalls.RequestExactly` | src/enhanced_metadata_manager.hpp:373-398 | ignored without a session or while queued or active; otherwise counted, and then queued, active or out of attempts |
| `DownloaderCalls.ReceiptExactly` | src/enhanced_metadata_manager.hpp:488-495 | ends exactly the active request it names and counts one success |
| `DownloaderCalls.CleanupExactly` | src/enhanced_metadata_manager.hpp:603-629 | ends and counts exactly the active requests at least as old as the timeout; younger ones stay |
| `DownloaderCalls.AdjustExactly` | src/enhanced_metadata_manager.hpp:662-675 | the limit rises by 100 up to 1000, falls by 50 down to 200, or stays, under conditions stated by multiplication instead of division |
| `DownloaderRuns.TurnKeepsInv` | src/enhanced_metadata_manager.hpp:411-428 | one turn keeps queue and active disjoint, the counters balanced and every request within its attempts |
| `DownloaderRuns.DropMeansBudgetSpent` | src/enhanced_metadata_manager.hpp:420-428 | a request is dropped for good only when max(1, priority) attempts have failed |
| `DownloaderRuns.ProcessKeepsInv` | src/enhanced_metadata_manager.hpp:401-436 | a whole `process_queue` call keeps the same |
| `DownloaderRuns.DirectCallExactly` | src/enhanced_metadata_manager.hpp:439-486 | a direct call of the public `process_single_request` keeps the invariant if and only if it is refused or its hash is already active |
| `DownloaderRuns.ReachableInv` | src/enhanced_metadata_manager.hpp:373-436 | in every state reachable by public calls, short of such a breaking direct call: queued hashes distinct and none active, total_queued = queue + processed + drops, total_processed = active + received + timeouts, every accepted request of priority p attempted at most max(1, p) times |
| `DownloaderRuns.ActiveNeverExceedsCap` | src/enhanced_metadata_manager.hpp:651-675 | active requests never outnumber the largest limit ever in force, a negative limit being none; with only `adjust_concurrent_limit` moving it, the limit stays in [200, 1000] |
| `Kademlia.CalculateXorDistance` | src/routing_table_manager.cpp:157-168 | byte-wise XOR, empty for ids of different lengths |
| `Kademlia.CalculateBucketIndex` | src/routing_table_manager.cpp:170-185 | the loop over the distance bytes with a 32-bit count of leading zeros |
| `Kademlia.ClzOfByte` | src/routing_table_manager.cpp:180-180 | a promoted byte has 24 more leading zeros than the byte |
| `Kademlia.IndexMeaning` | src/routing_table_manager.cpp:170-185 | for another id of our length the index minus 24 is the common-prefix length p, and the XOR distance lies in [2^(bits-1-p), 2^(bits-p)) |
| `Kademlia.IndexSpecialCases` | src/routing_table_manager.cpp:170-185 | -1 exactly for ids that cannot be compared, 0 exactly for our own |
| `Kademlia.LargerIndexIsCloser` | src/routing_table_manager.cpp:170-185 | a larger index is a strictly smaller distance |
| `Kademlia.BucketMatesAreClose` | src/routing_table_manager.cpp:170-185 | two nodes of equal index are within 2^(bits-1-p) of each other |
| `Closest.IsNodeCloser` | src/routing_table_manager.cpp:902-920 | the first differing distance byte decides, compared as `char`; false when an id cannot be compared |
| `Closest.CloserIsStrictTotalOrder` | src/routing_table_manager.cpp:902-920 | on ids of our length the comparator is irreflexive, transitive and decides every pair, as `std::sort` demands |
| `Closest.UnsignedOrderIsNumeric` | src/routing_table_manager.cpp:910-917 | with unsigned bytes the order is the numeric order of distances |
| `Closest.CloserIsNumericExactly` | src/routing_table_manager.cpp:910-917 | for either signedness: the numeric order if and only if bytes are unsigned or the first differing bytes lie in the same half |
| `Closest.SortByCloseness` | src/routing_table_manager.cpp:385-389 | a sorted permutation of the given ids |
| `Closest.GetClosestNodes` | src/routing_table_manager.cpp:377-397 | the sorted ids, cut to a positive count smaller than their number |
| `Closest.ClosestAreClosest` | src/routing_table_manager.cpp:377-397 | strictly sorted, duplicate-free, of the asked size, and every id left out is farther than every id returned |
| `Closest.ClosestUnique` | src/routing_table_manager.cpp:377-397 | there is only one such list, whatever the sorting algorithm and enumeration order |
| `Closest.ServesOnlyOurself` | src/routing_table_manager.cpp:377-389 | the answers are sorted for a target if and only if the target is our own id |
| `RoutingTable.AddKeepsIntegrity` | src/routing_table_manager.cpp:203-256 | adding keeps lists duplicate-free with nodes under their own index, every placed node listed, and every listed node registered |
| `RoutingTable.RemoveKeepsIntegrity` | src/routing_table_manager.cpp:281-304 | so does removing, and evicting |
| `RoutingTable.MergeKeepsIntegrity` | src/routing_table_manager.cpp:954-979 | so does merging, although it changes node indices |
| `RoutingTable.MergeExactly` | src/routing_table_manager.cpp:954-979 | done exactly when due: bucket b goes, its nodes stand in order at the end of b-1 under that index, nothing else changes |
| `RoutingTable.SplitEffect` | src/routing_table_manager.cpp:930-952 | from a sound table a split moves no node and empties bucket b+1 |
| `RoutingTable.SplitExactly` | src/routing_table_manager.cpp:922-952 | from a sound table, done exactly when the bucket is full and splitting is on |
| `RoutingTable.SplitIntegrity` | src/routing_table_manager.cpp:930-952 | a performed split keeps every placed node listed if and only if no registered node has index b+1; lists stay sound and registered regardless |
| `RoutingTable.CleanupIntegrity` | src/routing_table_manager.cpp:60-75 | expiry from the lists keeps them sound and registered, and keeps every placed node listed if and only if no expired node is both listed and registered |
| `RoutingTable.CleanupExactly` | src/routing_table_manager.cpp:60-75 | each list loses exactly the expired nodes; registry and nodes stay |
| `RoutingTable.ForgetIntegrity` | src/routing_table_manager.cpp:648-664 | forgetting from the registry keeps lists sound and placed nodes listed, and keeps listed nodes registered if and only if no forgotten node is both |
| `RoutingTableRuns.ReachableSound` | src/routing_table_manager.cpp:203-304 | bucket lists are duplicate-free with nodes under their own index in every table reachable by adds, removals, evictions, splits, merges, both kinds of expiry and clearing |
| `RoutingTableRuns.RegisteredExactly` | src/routing_table_manager.cpp:203-304 | in every run an id is registered if and only if it was added with a valid address and since then neither removed, evicted, forgotten nor cleared, whether or not a bucket took it |
| `RoutingTableRuns.ReachableUnplaced` | src/routing_table_manager.cpp:858-863 | in all those runs, with a positive bucket size or splitting off, only buckets 0..7 exist, only bucket 0 holds anything, and no foreign node has an index among them |
| `RoutingTableRuns.BucketsHoldOnlySelfExactly` | src/routing_table_manager.cpp:170-256 | no foreign node enters a bucket in any run if and only if splitting is off or the bucket size is positive |
| `RoutingTableRuns.ReachableComplete` | src/routing_table_manager.cpp:803-821 | under that condition the integrity check succeeds in every run in which our own id is not added or the monitor's expiry does not act |
| `RoutingTableRuns.IntegrityHoldsExactly` | src/routing_table_manager.cpp:803-821 | and only then: for each choice of whether runs may add our own id and whether they may expire listed nodes, the check succeeds in all of them if and only if the configuration condition holds and not both are allowed |
| `RoutingTableRuns.ListsRegisteredExactly` | src/routing_table_manager.cpp:648-743 | every listed node is registered in all runs if and only if nothing is forgotten from the registry alone, or the configuration condition holds and our own id is not added |
| `RoutingTableRuns.ClosestOfReachable` | src/routing_table_manager.cpp:377-397 | in every reachable table the nodes offered are registered, strictly sorted, and closer than every registered node left out |
| `RoutingTableManager.InitialBuckets` | src/routing_table_manager.cpp:858-863 | empty buckets 0 to 7 |
| `RoutingTableManager.Manager.constructor` | src/routing_table_manager.cpp:9-13 | an empty registry and the initial buckets |
| `RoutingTableManager.Manager.ClearRoutingTable` | src/routing_table_manager.cpp:641-646 | back to the initial table |
| `RoutingTableManager.Manager.AddNode` | src/routing_table_manager.cpp:203-256 | adds exactly when id, address and port are valid and the id is new: then the registry gains exactly that id, its node has the index of its distance and was seen now, and stands last in the bucket of its index if there is one; other nodes and lists stay |
| `RoutingTableManager.Manager.RemoveNode` | src/routing_table_manager.cpp:281-304 | exactly that id leaves the registry and exactly its node the list of its index |
| `RoutingTableManager.Manager.TakeFromBucket` | src/routing_table_manager.cpp:291-299 | takes exactly that node object, and no other of the same id, out of the bucket of its index |
| `RoutingTableManager.Manager.ForceNodeEviction` | src/routing_table_manager.cpp:780-790 | marks the node object evicted and removes it like `removeNode` |
| `RoutingTableManager.Manager.UpdateNode` | src/routing_table_manager.cpp:306-328 | refreshes a registered node's time last seen and its judged status; the table stays |
| `RoutingTableManager.Manager.UpdateNodeStatus` | src/routing_table_manager.cpp:330-340 | sets a registered node's status; the table stays |
| `RoutingTableManager.Fresh` | src/routing_table_manager.cpp:67-73 | the erase loop over one list keeps exactly the unexpired nodes, in order |
| `RoutingTableManager.FreshLists` | src/routing_table_manager.cpp:65-74 | and does so for every bucket |
| `RoutingTableManager.Manager.CleanupExpiredNodes` | src/routing_table_manager.cpp:60-75 | nodes not seen for the timeout leave the bucket lists and stay registered |
| `RoutingTableManager.Remaining` | src/routing_table_manager.cpp:654-661 | the erase loop over the registry, with its count |
| `RoutingTableManager.Manager.ClearExpiredNodes` | src/routing_table_manager.cpp:648-664 | nodes not seen for the timeout leave the registry and stay in their buckets |
| `RoutingTableManager.Manager.OptimizeRoutingTable` | src/routing_table_manager.cpp:721-743 | bad nodes leave the registry and stay in their buckets |
| `RoutingTableManager.Manager.MergeBucket` | src/routing_table_manager.cpp:768-778 | performs a due merge on the shared node objects; reports whether the bucket exists |
| `RoutingTableManager.Manager.MergeIntoParent` | src/routing_table_manager.cpp:954-979 | appends the nodes to bucket b-1, re-indexes them in place, removes bucket b |
| `RoutingTableManager.Manager.Reindex` | src/routing_table_manager.cpp:969-971 | gives exactly the listed node objects the new index |
| `RoutingTableManager.Manager.SplitBucket` | src/routing_table_manager.cpp:756-766 | performs a due split; reports whether the bucket exists |
| `RoutingTableManager.Manager.Partition` | src/routing_table_manager.cpp:941-948 | separates the nodes with the new index, keeping the order of both parts |
| `RoutingTableManager.Manager.ValidateRoutingTableIntegrity` | src/routing_table_manager.cpp:803-821 | true exactly when every registered node whose bucket exists is in it |
| `WorkerPool.StepKeepsFlow` | src/metadata_worker_pool.hpp:93-319 | every atomic step keeps accepted = queued + in hands + processed + failed |
| `WorkerPool.StepKeepsTickets` | src/metadata_worker_pool.hpp:154-185 | every step keeps the open tickets in one-to-one correspondence with the pending entries |
| `WorkerPool.StepKeepsCredited` | src/metadata_worker_pool.hpp:154-167 | every step keeps each worker's success count equal to the receipts, up to the one in progress |
| `WorkerPool.StepKeepsCharged` | src/metadata_worker_pool.hpp:170-199 | every step, bare `get_timed_out_requests` calls included, keeps each worker's timeout count equal to the entries swept by `cleanup_timeouts`, less what running sweeps still owe |
| `WorkerPool.ReachableInv` | src/metadata_worker_pool.hpp:93-319 | all of these at every step of every interleaving of callers, workers, alerts, sweeps, bare collections and shutdown |
| `WorkerPool.EndingsMove` | src/metadata_worker_pool.hpp:154-222 | each step ends exactly the entries it removes, in the way it removes them |
| `WorkerPool.FatesAreFinal` | src/metadata_worker_pool.hpp:154-222 | an entry that has left by receipt, sweep, collection, overwrite or shutdown never leaves again |
| `WorkerPool.ReportedTotals` | src/metadata_worker_pool.hpp:138-151 | reported successes and timeouts are num_workers times the receipts and the entries swept by `cleanup_timeouts` |
| `WorkerPool.CollectedCount` | src/metadata_worker_pool.hpp:170-185 | entries have ended uncounted if and only if some bare call found an expired entry |
| `WorkerPool.TimeoutsReportedExactly` | src/metadata_worker_pool.hpp:138-199 | with no sweep in progress, reported timeouts are num_workers times all entries that left by timing out if and only if no bare call ever removed one |
| `WorkerPool.AfterShutdown` | src/metadata_worker_pool.hpp:202-222 | nothing pending, nothing in hands: every accepted request is processed, failed, or left in the queue |
| `WorkerPoolHistory.FirstInFirstOut` | src/metadata_worker_pool.hpp:109-113 | the hashes handed to workers, followed by the queue, are exactly the hashes accepted from callers, in order |
| `WorkerPoolHistory.OnlyQueuedIsProcessed` | src/metadata_worker_pool.hpp:231-319 | whatever a worker holds and whatever is pending was accepted from a caller and handed over |
| `WorkerPoolHistory.CheckedBeforeQueued` | src/metadata_worker_pool.hpp:94-113 | a call reaches the queue only after a check that found its hash not pending |
| `WorkerPoolHistory.RefusalStep` | src/metadata_worker_pool.hpp:93-123 | a call is refused exactly when it finds the pool stopping, and told "already active" exactly when it finds its hash pending |
| `WorkerPoolHistory.PendingExactly` | src/metadata_worker_pool.hpp:154-222 | an entry is pending if and only if it was tracked and since then neither received, swept or collected more than the timeout later, tracked again nor cleared by shutdown |
| `WorkerPoolHistory.WorkersCountTheirOwn` | src/metadata_worker_pool.hpp:260-319 | each worker's failed and processed counters count its own failures and its own requests |
| `WorkerPoolHistory.WorkerNeverStuck` | src/metadata_worker_pool.hpp:231-258 | a worker can always go on, unless it waits on the empty queue of a running pool |
| `WorkerPoolHistory.ShutdownFinishes` | src/metadata_worker_pool.hpp:202-258 | once shutdown has begun each worker stops within four steps of its own |
| `DhtWorkers.StepKeepsInv` | src/concurrent_dht_manager.hpp:167-239 | every atomic step keeps the counters balanced and all issued and in-flight hashes different |
| `DhtWorkers.ReachableInv` | src/concurrent_dht_manager.hpp:97-239 | so does every interleaving, over any number of stops and restarts |
| `DhtWorkers.ReachableGuarantees` | src/concurrent_dht_manager.hpp:97-239 | no hash is issued twice, generated <= queried <= generated + workers, queries sent is even and at most twice generated, and no worker is counted after `stop` has joined |
| `DhtWorkers.StopBoundsIssues` | src/concurrent_dht_manager.hpp:114-133 | after a stop request, issued plus committed queries never grow |
| `DhtWorkers.AtMostOneMoreEach` | src/concurrent_dht_manager.hpp:114-133 | each worker issues at most one more query after a stop request |
| `DhtWorkersHistory.DrawnIsIssued` | src/concurrent_dht_manager.hpp:192-239 | the queried hashes are exactly those ever drawn, and each is issued or in some worker's hands |
| `DhtWorkersHistory.AllIssuedAfterStop` | src/concurrent_dht_manager.hpp:114-133 | after `stop` has joined, exactly the drawn hashes have been issued, each once |
| `DhtWorkersHistory.SentCountsAccepted` | src/concurrent_dht_manager.hpp:216-230 | two queries are counted for each hash the session took and none for one it refused |
| `DhtWorkersHistory.RoundsAreFive` | src/concurrent_dht_manager.hpp:190-196 | a worker draws five hashes a round, fewer only when told to stop |
| `DhtWorkersHistory.WorkerNeverStuck` | src/concurrent_dht_manager.hpp:167-188 | a worker that has not finished can always take a step |
| `DhtWorkersHistory.StopFinishes` | src/concurrent_dht_manager.hpp:114-133 | once stop is requested each worker finishes within six steps of its own |
| `RequestId.CountersTellApart` | src/request_cache_manager.cpp:281-289 | equal identifiers have equal counters, whatever their timestamps |
| `RequestCache.RequestCacheManager.constructor` | src/request_cache_manager.cpp:7-9 | four empty maps |
| `RequestCache.RequestCacheManager.AddRequest` | src/request_cache_manager.cpp:72-96 | a pending record under a new identifier, due one timeout from now |
| `RequestCache.RequestCacheManager.CheckExpiredRequests` | src/request_cache_manager.cpp:41-57 | moves exactly the overdue active requests, marked expired |
| `RequestCache.MoveOverdue` | src/request_cache_manager.cpp:45-56 | the erase-while-iterating loop, in any order |
| `RequestCache.RequestCacheManager.CleanupExpiredRequests` | src/request_cache_manager.cpp:59-70 | drops exactly the expired requests older than the interval |
| `RequestCache.DropStale` | src/request_cache_manager.cpp:63-69 | the loop of that sweep, in any order |
| `RequestCache.RequestCacheManager.MarkRequestComplete` | src/request_cache_manager.cpp:115-132 | moves an active request to completed; otherwise changes nothing and says so |
| `RequestCache.RequestCacheManager.MarkRequestFailed` | src/request_cache_manager.cpp:134-160 | counts the failure, then either re-arms the request or moves it to failed |
| `RequestCache.StepKeepsFits` | src/request_cache_manager.cpp:41-160 | every call keeps each identifier in at most one map with the status that map implies and its failures counted |
| `RequestCache.StepConserves` | src/request_cache_manager.cpp:41-160 | every call keeps adds = active + completed + failed + expired + swept + cleared |
| `RequestCache.ReachableInv` | src/request_cache_manager.cpp:41-160 | both in every run; in particular a request is in failed after exactly max(1, max_retries) failures |
| `RequestCache.TerminalStatesAbsorb` | src/request_cache_manager.cpp:115-160 | completed and failed records never change short of clearing; an expired one stays or goes; none becomes active again |
| `RequestCache.LookupOrderIrrelevant` | src/request_cache_manager.cpp:182-209 | any order of consulting the maps gives the same answer |
| `RequestCache.StatusAgreesExactly` | src/request_cache_manager.cpp:98-113 | the status call agrees with the record if and only if the request is neither completed nor failed |
| `RequestLives.CacheTellsLives` | src/request_cache_manager.cpp:41-160 | in every run the four maps tell exactly the life of each request: expired exactly by a check at least one timeout after it was added or last failed, forgotten exactly by a sweep more than the interval later, with the result or error passed in |
| `RequestLives.MapsByStage` | src/request_cache_manager.cpp:41-209 | each map holds exactly the requests at its stage of life |
| `PeerWire.SerializedParses` | src/bittorrent_protocol.cpp:40-93 | parsing a serialized well-formed message, whatever follows, gives it back |
| `PeerWire.ParsesExactly` | src/bittorrent_protocol.cpp:40-72 | data parses to a message if and only if the message is well formed and its serialization is how the data begins |
| `PeerWire.RejectsTruncatedExactly` | src/bittorrent_protocol.cpp:43-61 | rejected if and only if shorter than the header or the declared length, below the 32-bit wrap; past it undefined |
| `PeerWire.HeaderIsBigEndian` | src/bittorrent_protocol.cpp:48-49 | the length is the number its four bytes denote, most significant first |
| `PeerWire.FrameLayout` | src/bittorrent_protocol.cpp:74-93 | a frame is its length, one byte of kind and the payload; a keep-alive is four zero bytes |
| `PeerWire.SameHead` | src/bittorrent_protocol.cpp:74-93 | no frame is a proper prefix of another |
| `PeerWire.StreamsDecodeUniquely` | src/bittorrent_protocol.cpp:74-93 | concatenated frames come from only one list of messages |
| `PeerWire.ExtensionWellFormedExactly` | src/bittorrent_protocol.cpp:135-140 | the extension message is well formed if and only if its length fits in 32 bits |
| `PeerWire.ExtensionArrives` | src/bittorrent_protocol.cpp:118-143 | sent exactly when the extension is enabled for the peer, and then received as that message |
| `ConfigFile.PerformanceConfig.LoadConfigFromFile` | src/performance_config.cpp:42-74 | reading line by line folds the lines into the settings |
| `ConfigFile.PerformanceConfig.ParseLine` | src/performance_config.cpp:51-70 | blank lines, comments and lines without '=' change nothing; others set the trimmed key to the trimmed value |
| `ConfigFile.PerformanceConfig.SaveConfigToFile` | src/performance_config.cpp:76-92 | the header and then one line for each setting, each once, in some visiting order |
| `ConfigFile.TrimExactly` | src/performance_config.cpp:62-66 | trimming cuts off both ends all blanks and nothing else |
| `ConfigFile.LinesExactly` | src/performance_config.cpp:49-50 | the lines are the text cut at its newlines, the last one possibly unterminated |
| `ConfigFile.LineExactly` | src/performance_config.cpp:51-59 | empty lines, comments and lines without '=' change nothing |
| `ConfigFile.BlankedEntryLoads` | src/performance_config.cpp:57-69 | a line sets its key to its value, whatever blanks surround either |
| `ConfigFile.SaveLoadMerges` | src/performance_config.cpp:42-92 | loading a saved clean configuration over settings is the merge that prefers the file |
| `ConfigFile.EntriesLoad` | src/performance_config.cpp:42-92 | of trimmed one-line settings exactly those whose key starts with '#' are lost |
| `ConfigFile.RoundTripExactly` | src/performance_config.cpp:42-92 | saving then loading restores the configuration if and only if no key or value has a newline or outer blanks and no key has '=' or starts with '#' |
| `PieceStore.MetadataPieceManager.constructor` | src/metadata_piece_manager.cpp:9-11 | an empty store |
| `PieceStore.MetadataPieceManager.Add` | src/metadata_piece_manager.cpp:229-255 | stores a received piece with full score exactly when hash, index and data are valid |
| `PieceStore.MetadataPieceManager.Request` | src/metadata_piece_manager.cpp:257-294 | refused while already requested; otherwise re-requested or created empty |
| `PieceStore.MetadataPieceManager.Received` | src/metadata_piece_manager.cpp:296-319 | updates and judges an existing piece; a missing one leaves an empty shelf and fails |
| `PieceStore.MetadataPieceManager.MarkAs` | src/metadata_piece_manager.cpp:321-383 | sets the status, judging invalid and corrupted pieces but not duplicates |
| `PieceStore.MetadataPieceManager.Force` | src/metadata_piece_manager.cpp:894-908 | validates or invalidates a piece with data |
| `PieceStore.MetadataPieceManager.ValidateIntegrity` | src/metadata_piece_manager.cpp:937-954 | true exactly when every piece is within the size and every score within [0, 1] |
| `PieceStore.MetadataPieceManager.UpdateConfig` | src/metadata_piece_manager.cpp:690-692 | replaces the configuration; stored pieces stay |
| `PieceStore.CallKeepsGood` | src/metadata_piece_manager.cpp:179-383 | every call keeps successes + failures = attempts, the score their ratio, and data within any size bound on the configuration |
| `PieceStore.ReachableGood` | src/metadata_piece_manager.cpp:179-383 | so does every run, sweeps, clearing and reconfiguration included |
| `PieceStore.IntegrityAlwaysHolds` | src/metadata_piece_manager.cpp:894-985 | with a fixed configuration, or one whose piece size only grows, the check succeeds in every reachable state, repair never clears the store, and forced validation never invalidates a piece |
| `PieceStore.IntegrityExactly` | src/metadata_piece_manager.cpp:894-985 | in every run, reconfiguration at any point included: the check succeeds if and only if every stored piece fits the size now in force, forced validation accepts exactly those that fit, and repair clears the store exactly when one does not |
| `PieceLives.StoreTellsLives` | src/metadata_piece_manager.cpp:179-383 | in every run a piece is stored exactly while it lives, with the data, status and deadlines of its life; successes count receipts and successful validations, failures count invalid and corrupted marks and failed validations, and the score is their ratio |
| `PieceLives.ScoreMoves` | src/metadata_piece_manager.cpp:179-191 | a receipt never lowers a score and a bad mark never raises it |
| `PieceLives.ReportsExactly` | src/metadata_piece_manager.cpp:229-383 | exactly when each call reports success |

## Left out

- libtorrent, sockets and MySQL: only whether a session call succeeded is kept, as an input.
- Logging, statistics printers, health reports and exports: nothing to prove; log callbacks are taken not to throw.
- Sleeps and condition variables: a waiting thread is one whose next step is not yet enabled, and no fairness is assumed, so progress is said only in steps of the worker's own.
- WorkerPool: the pool is a state machine on values, not a class with threads; aliasing inside one locked region is not captured. Its own `convert_hash_to_hex` (which passes 32 characters through unchanged) counts only as accept or reject, and one thread at a time calls `shutdown`.
- DhtWorkers: likewise on values; one thread calls `start` and `stop`, and callbacks may do anything but re-enter.
- Counters: unbounded, so wrap-around of an `int` counter after 2^31 events, including the one in request identifiers, is not modelled.
- `RateLimiter`: `adjust_rate_based_on_success` reads a total as a rate; any rate change is covered as an arbitrary `set_rate_limit` call, and the passive observer is not modelled.
- `RequestQueue`: entries carry no `queued_time`, which only statistics read.
- `Closest.SortByCloseness`: an insertion sort stands for `std::sort`; `ClosestUnique` shows that the choice cannot be observed.
- `Closest.GetClosestNodes`: takes the registered ids as an enumeration and returns ids instead of node pointers; ids whose length differs from 20 never get registered.
- `RoutingTable`: the monitor loop, which may erase buckets while iterating, is covered only as single splits and merges; in runs, which nodes an expiry call drops is an arbitrary set (the class computes it from last-seen times and statuses).
- `RoutingTableManager`: node fields other than id, index, status and the time last seen (the quality score that decides the status is an input), and `calculateBucketDistance`, whose shift overflows an `int`.
- `RequestCache`: `completed_at` and `failed_at` time stamps and the look-up lists built from the maps.
- `PeerWire`: the handshake and the table of enabled extensions are inputs.
- `ConfigFile`: the range warnings printed after loading, and a file that cannot be created when saving.
- `DownloaderRuns`: a direct `process_single_request` call on a hash that is not active is shown to break the invariant and is not followed further; nothing in the repository makes one.
- `PieceStore`: checksums, creation and update times and assemblies; the timed sweeps and `repairPieceManager` are functions on values, and quality scores are exact ratios over `real`, without rounding.
- Characters at or above 0x80 are taken not to be hex digits or letters, as in the C locale.
- `src/timeout_manager.cpp` and `src/dht_token_manager.cpp`: smaller versions of the request life cycle.
- Performance monitoring, node quality tracking, bootstrap and connection code: bounded logs and scores with no invariant beyond their size.
