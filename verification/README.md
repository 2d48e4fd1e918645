# A verified model of the p2papp relay, cloud store and replicated state machine

This project models, in Dafny 4.11, five stateful parts of the p2papp peer-to-peer
application and proves what they guarantee over whole runs.

* **The byte-bounded LRU cache** (`internal/relay/cache.go`). `LruCaches.LRUCache` keeps a
  pointer-linked recency list, a lookup table and a running byte count in place. Each method
  is proved against the value model in `LruSpec`, the sequence of items in recency order.
  `StackDistance`, `CacheInclusion`, `CacheExpiry` and `CacheLifetime` prove what any run of
  those operations amounts to.
* **The token bucket and the per-peer rate limiter** (`internal/relay/limiter.go`).
  `TokenBuckets.TokenBucket` and `RateLimiters.RateLimiter` update their fields, their maps
  and shared bucket objects in place. `BucketRuns` and `LimiterRuns` prove bounds,
  optimality and run equivalences.
* **The store-and-forward queue and its delivery loops** (`internal/relay/queue.go`,
  `internal/relay/node.go`). `MessageQueues.MessageQueue` keeps slices over shared arrays,
  with append in place, removal by shifting the live array and a Peek that hands out the live
  slice. It also keeps the files that mirror them. `DeliveryPasses` and `DeliveryAccounts` say
  exactly what a pass over the live slice leaves. `RelayProtocol` lets forwards, announces, ticks, cleanups and
  restarts interleave with the individual steps of any number of delivery loops, and
  `RelayConservation` proves that none is lost whose ID is its own. `RelayHistory` tells
  what became of each forwarded message by the events alone, and `RelayRefinement` proves that a
  loop left to run is the relay node's own pass. The state machine and the queue object share one
  definition of the in-place operations, `QueueSpec.Buffer`.
* **The content-addressed chunk store and downloads** (`internal/cloud/storage.go`,
  `transfer.go`, `service.go`). `ChunkStores.FileStorage` runs the read, write and delete
  loops over the chunk and metadata directories. `StoreRuns` and `FileTransfers` prove that
  neither retrieval nor a download from such nodes ever yields wrong bytes, and when files
  stay retrievable.
* **The replicated key-value state machine** (`internal/consensus/raft.go`).
  `StateMachines.FSM` applies entries, copies itself and is restored. `Replication` runs any
  number of replicas over one committed log, with snapshots persisted later, log compaction,
  restarts and installed snapshots.

## What the model takes as given

* Clock readings are nanosecond counts that never go back, one reading per call (a Fetch reads
  the clock again when an answer arrives). Token counts are reals: rounding is not modelled.
* Locks make each method atomic. Between a delivery loop's read of a message, its send and its
  report to the queue anything else may run. A read of one slice element is atomic, although the
  Go code races there.
* A send, a request over the network and a write to a snapshot sink succeed or fail arbitrarily;
  the outcomes are parameters. A queue file is always written, and a single file write in the
  chunk store happens entirely or not at all.
* SHA-256 has no collisions: the hash is any injective function. JSON and peer-ID encodings are
  any codecs that read back what they wrote.
* No message ID is used twice: what is forwarded, under the ID the sender chose or the relay's own
  stamp, bears a new one.
* Hashes in requests are plain file names, with no path separators in them.
* Raft delivers one committed log in order to every replica.
* Capacities, sizes and indices do not overflow their machine integers.

## Where the code falls short of its documentation or its evident purpose

* `docs/ARCHITECTURE.md:130` promises a transfer protocol with verification. The receiver compares
  no hash: `FileTransfers.DownloadTrustsProvider` shows that a node not running this code can make
  a download yield any bytes for any hash. From nodes running it, `DownloadNeverWrong` holds.
* One delivery pass does not drain a queue of more than two messages, because removal shifts the
  array the loop reads by index (`DeliveryPasses.PassesDrain`, with one pass).
* The queue takes message IDs from the wire unchecked. If queued messages for one peer share an ID, a
  pass that sends only a later one loses the first and keeps the one it sent
  (`DeliveryPasses.SharedIdLosesMessage`). Each queued message is the one taken out or marked on its
  account if and only if no two share an ID (`QueueSpec.FirstUnderItsIdIff`).
* `WaitTime` returns a finite wait even for more tokens than the bucket can hold, which are never
  granted (`BucketRuns.WaitTimeIsTight`).
* `RateLimiter.Cleanup` drops a byte bucket by the age of the request bucket, so even a cleanup that
  no request can notice lets a peer exceed its byte allowance (`LimiterRuns.CleanupBreaksByteBound`).
  It leaves a peer's byte answers alone over a later run if and only if it finds the request bucket
  recently used, or no byte bucket, or that one refilled, and no later cleanup then drops a byte
  bucket, not yet refilled, with the first cleanup but not without it or the other way round
  (`LimiterRuns.CleanupKeepsBytesIff`, with the run `LimiterRuns.LaterCleanupParts`). It also forgets the open
  connections of the peers it drops, so that a peer limited to one can have two open
  (`LimiterRuns.CleanupBreaksConnectionLimit`; `LimiterRuns.OpenConnectionsBalance` says how many).
* `FileStorage.Delete` removes chunks other files share. `StoreRuns.DeleteKeepsCompleteIff` says
  exactly which files survive; of any two files that start with the same chunk, deleting the one
  breaks the other (`StoreRuns.DeleteBreaksSharedFile`). The service then keeps failing on the local
  record without asking a provider (`FileTransfers.ServiceStuckAfterDelete`);
  `FileTransfers.ServedIff` says exactly when it serves what another node could send.
* A bare Get breaks cache inclusion when it moves to the front of the larger cache a key that the
  smaller one lacks while holding something else (`CacheInclusion.InclusionIff`, with the run
  `CacheInclusion.BareGetBreaksInclusion`).
* A Put that evicts can push out an unexpired item to the benefit of an expired one, and so tell
  whether there was a cleanup: exactly when the cleaned cache has room for more unexpired items than
  the other one keeps (`CacheExpiry.PutHidesNothingIff` for one Put, `CacheExpiry.CleanupIsInvisible`
  for a whole run, with the run `CacheExpiry.EvictionRevealsCleanup`).

## Model

| member | source | states |
|---|---|---|
| LruSpec.EvictToIsLongestFittingPrefix | internal/relay/cache.go:89-92 | eviction keeps the longest prefix of the recency list that fits: never more is evicted from the back than needed |
| LruSpec.WithoutIsSplice | internal/relay/cache.go:136-141 | with no key twice, removing an element is removing its key, and the byte count drops by its size |
| LruSpec.LiveProperties | internal/relay/cache.go:211-216 | what a cleanup leaves is exactly the unexpired items, and no more bytes than before |
| LruSpec.PutKeepsWellFormed | internal/relay/cache.go:75-111 | a Put, oversized or not, leaves no key twice and no more bytes than the capacity |
| LruSpec.GetKeepsWellFormed | internal/relay/cache.go:42-67 | a Get keeps both, whether it hits, misses or drops an expired item |
| LruCaches.LinkedList.PushFront | internal/relay/cache.go:108 | the linked list's contents gain the element in front, all links consistent |
| LruCaches.LinkedList.Remove | internal/relay/cache.go:138 | the linked list's contents lose exactly this element, all links consistent |
| LruCaches.LinkedList.MoveToFront | internal/relay/cache.go:62 | the element comes first and the others keep their order |
| LruCaches.LRUCache.constructor | internal/relay/cache.go:33-39 | a new cache is empty and satisfies the representation invariant |
| LruCaches.LRUCache.Get | internal/relay/cache.go:42-67 | serves the bytes of the item under the key if its TTL is not positive or not over, and only then; drops it if it is over, puts it first if not; list, table and counters follow |
| LruCaches.LRUCache.PutWithTTL | internal/relay/cache.go:75-111 | list, table and byte count represent the sequence after drop, eviction and oversize test, in that order; the eviction loop terminates |
| LruCaches.LRUCache.Put | internal/relay/cache.go:70-72 | the same without a TTL |
| LruCaches.LRUCache.MakeRoom | internal/relay/cache.go:89-92 | the eviction loop ends with the longest prefix that leaves room for the new item |
| LruCaches.LRUCache.EvictOldest | internal/relay/cache.go:128-133 | exactly the last item goes |
| LruCaches.LRUCache.RemoveElement | internal/relay/cache.go:136-141 | exactly this element goes from list, table and byte count |
| LruCaches.LRUCache.Delete | internal/relay/cache.go:114-125 | reports whether the key was there and removes it, the others keeping their order |
| LruCaches.LRUCache.Clear | internal/relay/cache.go:144-151 | empties the cache, its counters of hits and misses left alone |
| LruCaches.LRUCache.CollectExpired | internal/relay/cache.go:208-216 | the backward walk notes each expired element once and no other |
| LruCaches.LRUCache.CleanupExpired | internal/relay/cache.go:204-223 | leaves exactly the items whose TTL is not positive or not over, keeps their order and returns how many went |
| CacheLifetime.PutServes | internal/relay/cache.go:54-58 | right after PutWithTTL a lookup finds the data up to the end of the TTL, that moment included, and for ever if the TTL is not positive; an oversized item never |
| CacheLifetime.ServedUntilTtl | internal/relay/cache.go:42-111 | so it does after any run that neither puts, deletes nor evicts the item, and no longer |
| LruRuns.RunIsWellFormed | internal/relay/cache.go:42-223 | in every run of Puts, Gets, Deletes, cleanups and Clears from an empty cache no key is held twice and the bytes never exceed the capacity |
| StackDistance.CacheIsFittingPrefixOfRecency | internal/relay/cache.go:42-111 | for any run of read-through accesses the cache lists exactly the longest prefix of the recency order of all keys accessed that fits the capacity, oversized items included |
| StackDistance.HitIffStackDistanceFits | internal/relay/cache.go:42-67 | a Get hits if and only if the distinct keys accessed since that key's last access, itself included, total at most the capacity |
| StackDistance.StackDistance | internal/relay/cache.go:61-67 | the recency order down to a key lists the keys accessed since its last access, once each, so their bytes are the stack distance |
| CacheInclusion.GetNestsIff | internal/relay/cache.go:42-67 | a Get keeps the smaller cache's list a prefix of the larger one's if and only if the key is in the smaller one, or not in the larger one, or the smaller one is empty |
| CacheInclusion.InclusionIff | internal/relay/cache.go:42-141 | of two caches fed the same run, one content per key and no TTL, the smaller one's list is a prefix of the larger one's all along if and only if every bare Get meets that condition when it comes |
| CacheInclusion.ReadThroughRunsNest | internal/relay/node.go:343-377 | runs of Puts, Deletes, cleanups and read-through accesses always nest |
| CacheInclusion.LargerCacheServesMore | internal/relay/cache.go:42-67 | whatever the smaller cache serves, with the same bytes, the larger one serves after such a run |
| CacheInclusion.BareGetBreaksInclusion | internal/relay/cache.go:42-67 | a run whose bare Get tears two caches apart |
| CacheExpiry.EvictCommutesIff | internal/relay/cache.go:89-92 | evicting leaves the same unexpired items whether or not what had expired by any earlier moment was dropped first, if and only if no prefix of what that leaves with more unexpired items would fit |
| CacheExpiry.PutHidesNothingIff | internal/relay/cache.go:75-111 | a Put answers every lookup as it would had there been a cleanup at any earlier moment, if and only if it meets that condition, eviction or not |
| CacheExpiry.CleanupIsInvisible | internal/relay/cache.go:204-223 | a cleanup stays unseen by every lookup that could be made at any moment of a later run, if and only if each Put of the run, a missing read-through access's at the time its answer is put, meets the condition on the two caches when it comes; the answers in the run are then the same |
| CacheExpiry.InvisibleUntilEviction | internal/relay/cache.go:89-92 | so it is in any run up to the first Put that must evict |
| CacheExpiry.EvictionRevealsCleanup | internal/relay/cache.go:89-92 | a run whose evicting Put does not meet it, so that a lookup's answer tells whether there was a cleanup |
| TokenBuckets.TokenBucket.constructor | internal/relay/limiter.go:18-25 | a new bucket is full |
| TokenBuckets.TokenBucket.Refill | internal/relay/limiter.go:47-55 | the level becomes the smaller of the capacity and the old one plus the rate per 1000000000 nanoseconds gone by |
| TokenBuckets.TokenBucket.AllowN | internal/relay/limiter.go:33-44 | grants exactly when that level suffices, and takes the tokens only then |
| TokenBuckets.TokenBucket.Tokens | internal/relay/limiter.go:58-63 | returns the refilled level |
| TokenBuckets.TokenBucket.WaitTime | internal/relay/limiter.go:66-77 | none if the level suffices, else the truncated nanoseconds until it does, and the bucket is refilled |
| BucketRuns.RefillComposes | internal/relay/limiter.go:47-55 | capped refill over an interval equals refill over its parts |
| BucketRuns.DenialsAreInvisible | internal/relay/limiter.go:33-77 | deleting any of the denied AllowN, the Tokens and the WaitTime calls of a run changes none of the remaining answers |
| BucketRuns.WindowBound | internal/relay/limiter.go:33-55 | in any run and any time window the tokens granted total at most the capacity plus the rate's yield over the window |
| BucketRuns.GreedyIsOptimal | internal/relay/limiter.go:33-55 | by each moment AllowN has granted at least as many equal requests as any other choice the same bucket could have served |
| BucketRuns.WaitTimeIsTight | internal/relay/limiter.go:66-77 | with no grant in between, refused at any time sooner than WaitTime and, from a nanosecond past it, granted if and only if the bucket can hold that many tokens |
| RateLimiters.TakeFrom | internal/relay/limiter.go:129-135 | get-or-create and take: one peer's bucket changes as its own AllowN says, every other stays, and no bucket object comes to serve twice |
| RateLimiters.RateLimiter.constructor | internal/relay/limiter.go:108-116 | no peers, and a full global bucket of ten times the burst and rate |
| RateLimiters.RateLimiter.AllowRequest | internal/relay/limiter.go:119-136 | granted if and only if the global and the peer's bucket both hold a token by now; the global one loses it even when the peer's refuses, and a refused global token leaves the peers alone |
| RateLimiters.RateLimiter.ChargePeer | internal/relay/limiter.go:128-135 | past the global bucket only this peer's request bucket decides and changes |
| RateLimiters.RateLimiter.AllowBytes | internal/relay/limiter.go:139-150 | granted if and only if the peer's byte bucket, of one second's bytes, holds them by now; only that bucket changes |
| RateLimiters.RateLimiter.AllowConnection | internal/relay/limiter.go:153-164 | a slot is taken exactly when the peer is below its limit |
| RateLimiters.RateLimiter.ReleaseConnection | internal/relay/limiter.go:167-174 | a slot is freed, never below none |
| RateLimiters.RateLimiter.WaitForRequest | internal/relay/limiter.go:177-187 | the wait of the peer's bucket, none without one, and that bucket refilled |
| RateLimiters.RateLimiter.GetPeerStats | internal/relay/limiter.go:190-208 | both buckets' refilled levels, which the call itself refills |
| RateLimiters.RateLimiter.Cleanup | internal/relay/limiter.go:219-235 | in whatever order the map is ranged over, exactly the peers whose request bucket was last refilled longer than the age ago lose all three entries |
| RateLimiters.RateLimiter.Reset | internal/relay/limiter.go:238-245 | exactly this peer loses all three entries |
| RateLimiters.RateLimiter.ResetAll | internal/relay/limiter.go:248-255 | every peer does, and the global bucket stays as it is |
| LimiterRuns.BurstsGranted | internal/relay/limiter.go:108-136 | at once a new limiter grants one request each to as many peers as ten bursts hold, and to a single peer as many as one burst holds |
| LimiterRuns.GlobalWindowBound | internal/relay/limiter.go:119-136 | in any window the requests granted to all peers together obey the global bucket's bound, across resets and cleanups |
| LimiterRuns.PeerWindowBound | internal/relay/limiter.go:119-136 | in every run and window a peer is granted at most its burst, its rate over the window and the tokens that cleanups and resets in the window hand back, those missing in its request bucket when they drop it |
| LimiterRuns.TransparentRunsRefundNothing | internal/relay/limiter.go:219-235 | cleanups by an age in which a bucket refills completely hand nothing back |
| LimiterRuns.HourlyCleanupsRefundNothing | internal/relay/node.go:386-388 | nor do the node's hourly cleanups by a day's age under the default limits |
| LimiterRuns.ByteWindowBound | internal/relay/limiter.go:139-150 | in every run and window a peer's granted bytes, negative counts subtracted, are at most one second's, its rate over the window and what cleanups and resets in the window hand back |
| LimiterRuns.OpenConnectionsBalance | internal/relay/limiter.go:153-174 | in every run a peer's slots granted less those released are its recorded connections, never above the limit, plus those that cleanups and resets forgot |
| LimiterRuns.CleanupIsTransparent | internal/relay/limiter.go:219-235 | cleanups whose age limit lets a bucket refill completely can be put into or taken out of a run anywhere without changing an AllowRequest answer |
| LimiterRuns.BytesAlikeIff | internal/relay/limiter.go:139-150 | of two limiters fed the same run from equal byte levels on, no AllowBytes at any moment tells them apart if and only if no operation drops the peer's unfilled byte bucket in just one of them |
| LimiterRuns.CleanupKeepsBytesIff | internal/relay/limiter.go:219-235 | a cleanup changes no AllowBytes answer of a peer at any moment of a later run if and only if the request bucket is not stale, or there is no byte bucket, or that bucket has refilled, and no operation of the run then does so |
| LimiterRuns.LaterCleanupParts | internal/relay/limiter.go:226-232 | a run in which a cleanup goes unnoticed until a second one |
| LimiterRuns.CleanupBreaksByteBound | internal/relay/limiter.go:226-232 | a run in which a cleanup that no request can notice lets a peer have 20 bytes in an instant from a bucket of 10 |
| LimiterRuns.CleanupBreaksConnectionLimit | internal/relay/limiter.go:226-232 | a run in which such a cleanup lets a peer limited to one connection have two open |
| QueueSpec.RemoveFirstMembers | internal/relay/queue.go:122-136 | with distinct IDs a removal takes out exactly the message with that ID |
| QueueSpec.FirstUnderItsIdIff | internal/relay/queue.go:105-136 | a removal or mark on account of any message hits that very message if and only if no two share an ID |
| QueueSpec.MarkFirstMembers | internal/relay/queue.go:109-117 | with distinct IDs exactly the message with that ID counts one more attempt, made now |
| QueueSpec.StampedIsAccepted | internal/relay/queue.go:69-75 | Enqueue gives an ID where there is none, both dates, seven days and no attempts, and changes nothing else of a message |
| QueueSpec.KeptMembers | internal/relay/queue.go:188-196 | Cleanup keeps exactly the messages that are neither past their expiry nor at ten attempts |
| MessageQueues.MessageQueue.Append | internal/relay/queue.go:77 | append writes in place while the array has room, else into a new array, and nothing else changes |
| MessageQueues.MessageQueue.Enqueue | internal/relay/queue.go:65-80 | the peer's list gains at its end the message, with sender, addressee, kind and content as given, in place while its array has room; other lists stay, and the files mirror memory |
| MessageQueues.MessageQueue.SavePeer | internal/relay/queue.go:269-281 | makes the peer's file exist if and only if it has pending messages, and then hold exactly those, in order |
| MessageQueues.MessageQueue.Peek | internal/relay/queue.go:97-102 | hands out the live slice itself |
| MessageQueues.MessageQueue.ShiftDown | internal/relay/queue.go:129 | every cell of the shared array after the append-shift, the stale slot past the new end included |
| MessageQueues.MessageQueue.RemoveMessage | internal/relay/queue.go:122-136 | the first message with the ID leaves list and file; the array is shifted in place; reports whether there was one |
| MessageQueues.MessageQueue.MarkAttempt | internal/relay/queue.go:105-119 | the first message with the ID counts one more attempt, in place, and the file follows |
| MessageQueues.MessageQueue.Filter | internal/relay/queue.go:189-196 | the kept messages in order, in an array of their own, and how many were not kept |
| MessageQueues.MessageQueue.CleanupPeer | internal/relay/queue.go:188-205 | one peer's list and file are replaced by what is kept, or dropped if nothing is |
| MessageQueues.MessageQueue.Cleanup | internal/relay/queue.go:181-208 | in whatever order the map is ranged over, every peer keeps exactly its messages that are neither past their expiry nor at ten attempts, in order, the files mirror that, and the total removed is returned |
| MessageQueues.MessageQueue.Dequeue | internal/relay/queue.go:83-94 | returns the peer's list and drops it from memory and disk |
| MessageQueues.MessageQueue.constructor | internal/relay/queue.go:43-62 | a queue over existing files holds what they decode to, and over files that mirror some lists exactly the nonempty ones, its files still mirroring them |
| MessageQueues.Restart | internal/relay/queue.go:43-62 | a new queue over the files of an old one holds exactly its nonempty lists |
| MessageQueues.MessageQueue.PeersWithPending | internal/relay/queue.go:167-178 | exactly the peers whose list is not empty |
| MessageQueues.MessageQueue.Load | internal/relay/queue.go:235-266 | every decodable file becomes the peer's list; the others are skipped |
| MessageQueues.RestartRestores | internal/relay/queue.go:235-281 | loading after a restart restores exactly the nonempty lists, given a codec that round-trips |
| DeliveryPasses.PassLeavesOdds | internal/relay/node.go:235-240 | with distinct IDs, no interleaved calls and every send succeeding, one pass over the live slice leaves exactly the messages at odd positions before the last |
| DeliveryPasses.HalfwayTurn | internal/relay/node.go:236-239 | while the read index is live each turn removes the next even message and leaves copies of the last one in the stale slots |
| DeliveryPasses.LastTurn | internal/relay/node.go:236-239 | the first stale read of an even count still finds and removes the last message |
| DeliveryPasses.StaleTurn | internal/relay/node.go:236-239 | every later stale read removes nothing |
| DeliveryPasses.PassSendsEvens | internal/relay/node.go:235-240 | such a pass sends the messages at even positions once each, and then the last one in every turn that remains |
| DeliveryPasses.SharedIdLosesMessage | internal/relay/queue.go:122-136 | a pass in which only one turn sends takes out the first message under that ID, which is the one sent if and only if no earlier one shares the ID, and else leaves the one sent |
| DeliveryPasses.RepeatedPasses | internal/relay/node.go:429-436 | p passes over n messages leave (n + 1) / 2^p - 1 of them while 2^p is at most n + 1, namely every 2^p-th, and they empty the queue from the first p with 2^(p+1) above n + 1 |
| DeliveryPasses.PassesDrain | internal/relay/node.go:235-240 | p passes drain the queue if and only if n + 1 is below 2^(p+1); a single one only for n at most two |
| DeliveryAccounts.PassAccounts | internal/relay/node.go:429-436 | with distinct IDs and whatever outcomes, a pass leaves just the messages that none of its sends delivered, in order, each with as many more attempts as its sends failed if failures are marked, and otherwise unchanged |
| DeliveryAccounts.MissingIffSent | internal/relay/node.go:429-436 | a message is missing after the pass if and only if a successful send bore its ID |
| DeliveryAccounts.FailedPassKeepsAll | internal/relay/node.go:431-435 | a pass without a successful send leaves every message in place, with one more attempt if failures are marked and unchanged if not |
| RelayNodes.RelayNode.HandleForward | internal/relay/node.go:195-218 | sent directly exactly when the target was seen less than five minutes ago and the send succeeds, else queued, its fields as given, if there is a queue |
| RelayNodes.RelayNode.Settle | internal/relay/node.go:431-435 | one turn: a sent message is removed, a failed one counts one more attempt or is left alone, on the very array the loop reads |
| RelayNodes.RelayNode.DeliverPending | internal/relay/node.go:429-436 | the loop over the live slice leaves in the peer's list just what it did not deliver, whatever the outcomes, and touches no other list |
| RelayNodes.RelayNode.HandleAnnounce | internal/relay/node.go:228-242 | the peer is seen now and its list, if it has one, gets a pass whose failed sends leave no mark; no other list changes |
| RelayNodes.RelayNode.DeliveryTick | internal/relay/node.go:412-437 | in whatever order the peers come, exactly those seen within five minutes get a pass that leaves just what it did not deliver, its failed sends counted |
| RelayNodes.RelayNode.DeliverTo | internal/relay/node.go:420-437 | one peer's turn in it: a peer not seen for over five minutes is skipped, else its list gets that pass; no other list changes |
| RelayNodes.RelayNode.HandleCache | internal/relay/node.go:221-225 | only a nonempty key and nonempty data are cached |
| RelayNodes.RelayNode.Fetch | internal/relay/node.go:343-377 | the local bytes, else the earliest relay answer that carries data, which is cached; it fails only if none does |
| RelayConservation.StepKeepsInv | internal/relay/node.go:195-242 | every step of every interleaving, no ID being used twice, keeps the invariant: separate slices, genuine cells even when stale, distinct IDs, conservation |
| RelayConservation.RelayConserves | internal/relay/node.go:409-443 | over every interleaving, no ID being used twice, each accepted message has been delivered, is pending at its addressee, or was dropped by Cleanup after its time to live or ten failed marked sends; nothing else is ever delivered |
| RelayConservation.OnlyDeliveredLeave | internal/relay/node.go:429-436 | no ID being used twice, no delivery loop takes an undelivered message out of the queue, even acting on a stale slice entry |
| RelayHistory.EveryForwardIsAccountedFor | internal/relay/node.go:195-242 | no ID being used twice, whatever was forwarded has been delivered, is still in its addressee's list as it was forwarded, or was in it at a cleanup when its seven days were over or ten marked sends of it had failed |
| RelayHistory.OnlyForwardedArrive | internal/relay/queue.go:69-77 | whatever is delivered or pending was forwarded before, by that sender to that addressee, with that kind and content |
| RelayHistory.CleanupLeavesNoneOverdue | internal/relay/queue.go:188-196 | right after a cleanup of its list exactly those messages are pending for a peer that were and whose seven days are not over and whose attempts are below ten |
| RelayRefinement.UninterruptedLoopIsPass | internal/relay/node.go:429-436 | a delivery loop that nothing interrupts leaves what the relay node's pass leaves and delivers what that sends with success |
| ChunkStores.FileStorage.constructor | internal/cloud/storage.go:41-53 | a new store has no chunks and no records |
| ChunkStores.FileStorage.Store | internal/cloud/storage.go:56-136 | for any way reads split the file and any write at which it fails, exactly the chunks written before that are added, and the record, telling name, size and hash, only if all writes succeeded |
| ChunkStores.FileStorage.Retrieve | internal/cloud/storage.go:139-164 | succeeds with the assembled bytes, or fails leaving at the destination what precedes the first missing chunk |
| ChunkStores.FileStorage.Delete | internal/cloud/storage.go:213-228 | removes exactly the chunks of the record, shared or not, in order and the record last, stopped at any removal and with any chunk removals failing silently; fails without a record |
| StoreRuns.RunIsSound | internal/cloud/storage.go:83-228 | in every state that Stores and Deletes reach, those stopped at any file operation included, each chunk has its hash for a name and each record describes a file of its hash |
| StoreRuns.RecordAddsUp | internal/cloud/storage.go:102-117 | recorded chunk sizes sum to the file size, indices are consecutive and no chunk exceeds 256 KiB |
| StoreRuns.AssembleStops | internal/cloud/storage.go:151-163 | what Retrieve writes is the chunks' bytes in order, up to the first one that is missing |
| StoreRuns.RetrieveIsRight | internal/cloud/storage.go:139-164 | in a sound state Retrieve succeeds exactly when the record and all chunks are there, and then yields bytes of the hash asked for |
| StoreRuns.NeverWrongBytes | internal/cloud/storage.go:139-164 | in every such state Retrieve fails or yields exactly the file |
| StoreRuns.ExistsMeansRetrievable | internal/cloud/storage.go:167-171 | after Stores alone, interrupted ones included, Exists tells a hash if and only if a Store of it came to its end, and if and only if Retrieve succeeds |
| StoreRuns.StoreRetrieveRoundTrip | internal/cloud/storage.go:56-164 | Retrieve after Store returns the file, and keeps doing so after any further Stores and any Deletes that take neither its record nor a chunk of it |
| StoreRuns.InterruptedStoreIsSafe | internal/cloud/storage.go:83-127 | a Store stopped between any two of its writes leaves every known hash retrievable, given that all were |
| StoreRuns.DeleteKeepsCompleteIff | internal/cloud/storage.go:213-228 | a Delete, however far it comes, leaves a file retrievable if and only if it takes neither that file's record nor one of its chunks |
| StoreRuns.DeleteBreaksSharedFile | internal/cloud/storage.go:219-223 | of any two files stored that start with the same chunk, deleting the one leaves the other's record without that chunk |
| FileTransfers.CloudService.Handle | internal/cloud/transfer.go:81-102 | answers from the chunk or record file; from a sound store a chunk has the hash asked for and a record describes a file of the hash asked for |
| FileTransfers.CloudService.DownloadFrom | internal/cloud/transfer.go:134-172 | the destination changes only when the whole file has arrived, no temporary file stays, and no other file changes |
| FileTransfers.CloudService.Download | internal/cloud/service.go:99-132 | the local store alone decides if it knows the hash, leaving at the destination what precedes the first missing chunk; else the first provider other than itself whose download succeeds; no other file changes |
| FileTransfers.FirstDownloadIsEarliest | internal/cloud/service.go:120-131 | it is the earliest provider other than the node itself whose download succeeds that serves |
| FileTransfers.DownloadNeverWrong | internal/cloud/transfer.go:81-98 | a download from a node running this code, its Stores and Deletes between the requests included, fails or yields exactly the file |
| FileTransfers.ServiceNeverWrong | internal/cloud/service.go:99-132 | so does the service's Download, locally or from any list of such providers |
| FileTransfers.ServedIff | internal/cloud/service.go:104-106 | when another such node can send the file, Download serves it if and only if the local store has no record of it or has it whole |
| FileTransfers.ServiceStuckAfterDelete | internal/cloud/service.go:104-106 | after that Delete it no longer serves the other file, whoever could send it |
| FileTransfers.DownloadedIff | internal/cloud/transfer.go:134-172 | whatever happens to its store meanwhile, a node running this code serves a file if and only if it has the record when asked for it and each chunk when asked for that |
| FileTransfers.StoreDownloadRoundTrip | internal/cloud/transfer.go:134-172 | what one node stored another downloads, while the first goes on with any Stores and any Deletes that take no chunk of it between the requests |
| FileTransfers.DownloadTrustsProvider | internal/cloud/transfer.go:150-160 | for any hash and any bytes there is a provider that makes the download yield those bytes |
| StateMachines.FSM.Apply | internal/consensus/raft.go:279-296 | sets, deletes, or for undecodable entries and unknown operations changes nothing |
| StateMachines.FSM.Snapshot | internal/consensus/raft.go:299-310 | a map of its own with equal contents |
| StateMachines.FSM.Restore | internal/consensus/raft.go:313-326 | the decoded data in a map of its own, or an error and no change |
| StateMachines.InstallSnapshot | internal/consensus/raft.go:313-373 | a snapshot persisted while entries go on being applied, then restored elsewhere, is the data as of its taking; a failed sink changes nothing there |
| StateMachines.SnapshotThenApply | internal/consensus/raft.go:299-310 | entries applied between taking and persisting a snapshot leave no trace in it |
| StateMachines.ReplayIsLastWrite | internal/consensus/raft.go:279-296 | after a replay a key is present if and only if the last entry that decides it sets it, and then has that value |
| StateMachines.ReplayComposes | internal/consensus/raft.go:279-326 | replaying a suffix on top of a prefix is replaying the whole log |
| Replication.RunKeepsInv | internal/consensus/raft.go:279-373 | in every run every replica's data, its snapshots in flight and its stored snapshot are each the replay of a log prefix, and its log starts no later than its snapshot |
| Replication.ReplicasAgree | internal/consensus/raft.go:279-326 | each replica's data is the replay of the log prefix it applied, so replicas at the same index agree |
| Replication.CompactionLosesNothing | internal/consensus/raft.go:299-373 | at any moment a replica can crash, boot from its newest snapshot and, from the log it still has, catch up to the whole log |
| Replication.ReplicaCatchesUp | internal/consensus/raft.go:279-326 | in any run a replica fed the log to its end, having crashed and booted from its snapshot first or not, holds the replay of all of it |
| Replication.PersistedSnapshotIsBooted | internal/consensus/raft.go:299-373 | a snapshot taken, persisted after further entries and booted from is the data as of its taking; a failed sink leaves the newest snapshot alone |

## Left out

- Network plumbing (libp2p hosts, streams, DHT, mDNS, GossipSub, chat): a send or request is an outcome.
- The consistent-hash router and the answers' way to Fetch: its ring is an external library.
- The Raft protocol, its transport and stores, Join and Leave: only one ordered committed log is assumed.
- Wallet, keystore, CLI, configuration and the statistics methods: wrappers and reporting.
- LruCaches.LRUCache: the access time of an item, which nothing reads, is not kept.
- The hourly loop's forgetting of peers not seen for an hour: it only narrows whom handleForward and the tick take for online.
- MessageQueues.MessageQueue.Load: files whose names are not peer IDs are not in the model's directory at all.
- RelayProtocol.Step: a send that reports failure is taken not to have delivered; a restart keeps the old arrays as stand-ins for the reloaded ones, no loop being left to tell.
- TokenBuckets.TokenBucket.WaitTime: with a zero rate the conversion of infinity to a duration is left undefined, as in Go.
- ChunkStores.FileStorage.Store: a torn chunk write and a file that changes between hashing and reading are not modelled.
- ChunkStores.FileStorage.Retrieve: errors of the destination's own disk are not modelled, nor is a failed rename in Download.
- StateMachines.FSM.Restore: a snapshot that decodes to a nil map, which Persist never writes, is not modelled.
