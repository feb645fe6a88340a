# Holo Web Conductor: verified models

The Holo Web Conductor runs a Holochain node inside a browser extension. This project models its stateful
components in Dafny and proves what they guarantee. All paths below are relative to the root of the repository.

| Files | Component |
|---|---|
| PublishBatching, PublishTracker, PublishPacing, PublishService, PublishInterleaving | The publish queue: a persistent retry queue, drained by one looping worker against an arbitrary linker and clock; first one call at a time, with its back-off, then as threads interleaved at every `await`. |
| OrderedMap, RecordCache, Recency, Cascade, CascadeAnswers | The record cache with its aliases, what "least recently used" means, the look-aside protocol that keeps the cache truthful, and what it answers for how long. |
| TtlCache, LinkCaches, LinkCacheContents | The cache with expiry, and the two link caches that are updated optimistically after a commit. |
| ByteTypes, Decimals, ChainTypes, SourceChain, SourceChainAgreement, SourceChainReads | The source chain store: transaction buffers, session cache and database, when reads from them agree, and what they answer. |
| KeyStorage, EncryptedStorage, LairLock, Keystore | The keystore: seeds and keys in mutable arrays, encryption at rest, the lock, and all of it together. |
| WebSocketSession, WebSocketRuns, AuthFailover, WebSocketUpkeep | The linker connection: connecting, authenticating, registering agents, losing the socket and coming back. |
| Sorting, RecordConverter, ChainRecovery, RecoveryOutcomes | Publishing a chain and recovering it from the network. |
| Transport, AgentInfo | Byte arrays across message channels, and the canonical text of an agent info. |
| Wrappers, Sequences, Sums | Shared definitions. |

How the models are built:

- A class of the source is a class here, and its methods change its fields. Each method is proved against a function
  on values (`Records`, `Session`, `Fill`, `Overlaid`, ...). The results about runs are lemmas about those functions.
- What the code cannot foresee is a parameter: the linker's answers and the clock are functions of the number of the call,
  so every result holds for all of them; random nonces likewise. Encryption is a pair of functions of which one undoes the
  other, key derivation an arbitrary function of passphrase and salt.
- JavaScript's `Map` is an insertion-ordered map (`OrderedMap`).
- Where a desirable property is false, the code is modelled as it is, and a lemma says exactly when the property holds;
  beside it there may be a state in which it fails.

## Findings

Places where the code does less than one might expect, each with its lemma:

- `retryFailed` announces that it resets the retry count, but setting the status to Pending does not change the count
  (packages/core/src/dht/publish-service.ts:396-399, packages/core/src/dht/publish-tracker.ts:367-402). The model follows
  the code: an op may be sent as often as its old count allows, and one that has used up its retries once. That is the full
  allowance if and only if the op had never failed or maxRetries is at most 1 (`RequeuedAllowance`).
- A failed commit clears the cached actions, entries and links, but keeps the cached chain head, which may be one that was
  never stored (`AbortKeepsUncommittedHead`; `AbortedHeadCanBeWrong` has a transaction that does it).
- `getActionByEntryHash` answers with the first action in cache order, which a reload changes; it is stable exactly if at
  most one action creates the entry (`EntryLookupIsStable`).
- `invalidateRecord` resolves aliases first, so a hash that is both an alias and a key still hits afterwards
  (`InvalidatedHashStillHits`, `InvalidatedHashCanHit`).
- The record cache by itself accepts any insertion: one under a hash that has aliases keeps the cache right if and only if
  every one of these aliases is a hash of the new record (`CachingKeepsSoundIff`; `InsertWithoutMissCanLie` has an insertion
  that does not). The cascade inserts only after a miss, when there is no such alias.
- Putting a link keeps the session cache and the database together if and only if its hash is new and no deletion of the
  transaction names it (`PutLinkShowsIff`, and for the reads `PutLinkAgreesIff`; `StaleLinkDisagrees` has a link put after its
  own deletion). No caller in the repository does otherwise: `putLink` is called with a hash computed on the spot
  (packages/core/src/ribosome/host-fn/create_link.ts:133), `deleteLink` for a create that was found
  (packages/core/src/ribosome/host-fn/delete_link.ts:86).
- Between a missed heartbeat and the end of the closing handshake, the service still counts as connected: an agent
  registered then is tracked as registered, but the message is dropped (`RegistrationsMissAClosingSocket`).
- After an explicit `disconnect()` the registrations are not sent again on the next connection
  (`DisconnectForgetsRegistrations`); `connect()` while a reconnect is scheduled loses track of a socket
  (`ConnectKeepsOrderlyIff`).
- A registration with an empty agent name stops the search for an agent that can authenticate (`FailoverEnds`).
- An authentication error after a success leaves the open socket idle, although other agents could authenticate it: exactly
  when one of them has not failed on it yet (`LateRefusalIsIdleIff`).
- A plaintext seed that begins with the bytes of the encryption header is unreadable after the first passphrase is set
  (`SetPassphraseNow`, `StandsForItselfIffPlaintext`).

## Model

| member | source | states |
|---|---|---|
| PublishBatching.GreedyIsOptimal | packages/core/src/dht/publish-service.ts:195-235 | No order-preserving partition into batches that obeys the size rule has fewer batches than one whose batches were closed only when the next op would not fit. |
| PublishServicing.FillingIsBatched | packages/core/src/dht/publish-service.ts:195-235 | Greedy filling gives non-empty batches whose concatenation is the input, payloads aligned with items, only single ops over the limit, and every batch closed only because the next op did not fit. |
| PublishServicing.PublishService.BatchOpsBySize | packages/core/src/dht/publish-service.ts:195-235 | The loop over current items, payloads and size produces exactly such batches. |
| PublishTracking.PublishTracker.QueueRecordForPublish | packages/core/src/dht/publish-tracker.ts:196-227 | Adds one Pending record per op under its generated id, and changes nothing else. |
| PublishTracking.PublishTracker.GetPendingForDna | packages/core/src/dht/publish-tracker.ts:324-362 | Returns, each once, exactly the records of the DNA with the status. |
| PublishTracking.PublishTracker.UpdateStatus | packages/core/src/dht/publish-tracker.ts:367-402 | Sets status, time and error, counts an attempt only for Failed, and ignores an unknown id; `WritesMeaning` says what any number of such writes amount to. |
| PublishTracking.WritesMeaning | packages/core/src/dht/publish-tracker.ts:367-402 | After any sequence of status writes a record has the status and time of the last one, the last error that was given, and one retry more for every failure; everything else is as before. |
| PublishTracking.PublishTracker.RemovePendingPublish | packages/core/src/dht/publish-tracker.ts:407-417 | Removes this record only. |
| PublishTracking.PublishTracker.ResetFailedForDnas | packages/core/src/dht/publish-tracker.ts:521-558 | Makes exactly the Failed records of the given DNAs Pending with no attempts, and returns their number. |
| PublishTracking.ResetMeaning | packages/core/src/dht/publish-tracker.ts:521-558 | A reset op is as a newly queued one, except that it remembers its last attempt; every other record is as before. |
| PublishServicing.PublishService.PublishBatch | packages/core/src/dht/publish-service.ts:240-303 | Whatever the linker answers: an op leaves the queue if and only if it succeeded and peers were there; any other op of the batch is Failed with one more attempt and the right reason; ops outside the batch are untouched. |
| PublishServicing.LeavesIffPublished | packages/core/src/dht/publish-service.ts:255-302 | After a settled request an op is gone if and only if the linker answered, reported success for it, and did not merely store the request; otherwise its error is the message, the reported error, or the text for missing peers. |
| PublishServicing.SettlingSpends | packages/core/src/dht/publish-service.ts:247-302 | A settled request for a non-empty set of eligible ops strictly lowers the sum over all ops of max(1, retries left) if Pending, or retries left if Failed. |
| PublishServicing.ProgressStep | packages/core/src/dht/publish-service.ts:162-164 | A request extends the progress of a run: attempts grow by the sends that did not deliver, sends come out of the allowance, removed means delivered. |
| PublishServicing.PublishService.IsReadyForRetry | packages/core/src/dht/publish-service.ts:176-185 | Ready exactly if never attempted or the capped exponential delay has passed at the clock reading taken. |
| PublishServicing.PublishService.ProcessQueue | packages/core/src/dht/publish-service.ts:124-171 | Terminates for every linker and clock; afterwards no op of the DNA is Pending, every Failed one is out of retries or was still backing off; an op is sent at most max(1, maxRetries) times and is gone exactly if it was delivered. Every send is logged and the log is paced: an op is sent only if Pending or past its back-off, and what it leaves behind is stamped with a clock reading taken after it. A call that finds the flag set does nothing. |
| PublishPacing.PacedRequest | packages/core/src/dht/publish-service.ts:240-303 | One more request for ops that are due keeps the log paced, whatever the linker answers. |
| PublishPacing.SentIsStamped | packages/core/src/dht/publish-tracker.ts:367-402 | Every op sent in a run and still tracked is Failed, with a clock reading of that run as its last attempt. |
| PublishPacing.SendsAreSpaced | packages/core/src/dht/publish-service.ts:176-185 | For a clock that does not run backwards: between two sends of an op in one run lies at least the capped exponential delay for its failures so far. |
| PublishPacing.StillClockSendsOnce | packages/core/src/dht/publish-service.ts:124-171 | While the clock stands still at a non-zero time, with positive delays, a run sends no op twice. |
| PublishPacing.BackoffDoubles | packages/core/src/dht/publish-service.ts:176-185 | The delay starts at the base, doubles with every failure, and never exceeds the maximum. |
| PublishServicing.PublishService.RetryFailed | packages/core/src/dht/publish-service.ts:390-403 | If no worker is running, the queue is drained; every Pending or Failed op of the DNA is sent at least once and at most max(1, maxRetries - its old count) times, paced as in a run of the worker, and unless delivered has failed that many times more; every other op is as before; ops leave the queue exactly by delivery. If a worker is running, the failed ops are only made Pending. |
| PublishServicing.RequeuedAllowance | packages/core/src/dht/publish-service.ts:396-399 | Making a failed op Pending does not reset its count: it may be sent max(1, maxRetries - count) times, which is the full allowance if and only if the count was 0 or maxRetries is at most 1. |
| PublishInterleaving.MoveKeepsWorker | packages/core/src/dht/publish-service.ts:131-167 | Every step of the worker between two awaits keeps the invariant on claims, statuses, sends and deliveries. |
| PublishInterleaving.StepKeepsInv | packages/core/src/dht/publish-service.ts:124-171 | So does every step of any thread: enqueueing, processing, retrying, resetting. |
| PublishInterleaving.QueueIsSafe | packages/core/src/dht/publish-service.ts:124-171 | In every state of every interleaving an op is in at most one outstanding request, and once; every op ever queued is tracked or was reported delivered; nothing is InFlight when no worker runs; no op is sent more than max(1, maxRetries) times between resets. |
| RecordCaching.LRURecordCache.Get | packages/core/src/network/cache.ts:36-46 | Answers through the alias and moves the canonical key to the end. |
| RecordCaching.LRURecordCache.Set | packages/core/src/network/cache.ts:48-62 | Stores at the end, then evicts from the front, with their aliases, until the size fits. |
| RecordCaching.NetworkCache.CacheRecordSync | packages/core/src/network/cache.ts:331-350 | Stores under the given hash and aliases the record's other hashes to it. |
| RecordCaching.NetworkCache.InvalidateRecord | packages/core/src/network/cache.ts:352-355 | Drops the canonical key with all aliases that point to it. |
| Recency.OrderIsRecency | packages/core/src/network/cache.ts:36-62 | After any deletion-free run the cache holds, oldest first, the most recently touched distinct canonical keys, as many as fit. |
| Recency.CachedIffRecent | packages/core/src/network/cache.ts:36-62 | A key is cached if and only if fewer than max distinct other keys were touched after its last touch. |
| Cascading.Cascade.FetchRecord | packages/core/src/network/cascade.ts:116-240 | The fetch through local store, cache and network, with the cache written only after a miss; what it answers is said by `UncachedAnswers`, `HitAnswers` and `FetchIsRemembered`. |
| Cascading.InsertAfterMissKeepsSound | packages/core/src/network/cache.ts:331-350 | Inserting a genuine record right after a miss keeps every alias live and every record under a hash it has. |
| Cascading.ReachedIsSound | packages/core/src/network/cascade.ts:145-240 | Every cache reached by fetches, invalidations and clears is sound, over any content-addressed network. |
| Cascading.CacheIsTransparent | packages/core/src/network/cascade.ts:145-190 | For an action hash, fetching with the cache gives what fetching without it gives, or the right record where the network does not answer now. |
| CascadeAnswers.UncachedAnswers | packages/core/src/network/cascade.ts:145-240 | A local record is the answer; on a miss the network's record is the answer if and only if the network may be used and replies, and only an error that is passed on throws. |
| CascadeAnswers.HitAnswers | packages/core/src/network/cascade.ts:158-162 | A cached hash is answered from the cache, whatever the network would say, by a record that has the hash; for an action hash by the record there is. |
| CascadeAnswers.FetchIsRemembered | packages/core/src/network/cascade.ts:145-190 | After a fetch that the network answered, fetching the same action or entry hash gives the same record for every network, reachable or not, and every option. |
| CascadeAnswers.FoundUnderBothHashes | packages/core/src/network/cascade.ts:192-240 | A record fetched under its action or its entry hash is then found under the other one as well, without the network. |
| CascadeAnswers.RecentFetchesAreAnswered | packages/core/src/network/cascade.ts:145-240 | Over any run of fetches, a key after whose last touch fewer than max other keys were touched is answered without the network, by a record that has it. |
| Cascading.InvalidatedHashStillHits | packages/core/src/network/cache.ts:352-355 | After invalidating a hash it still hits if and only if it was an alias of another key and a key itself. |
| Cascading.InvalidatedHashCanHit | packages/core/src/network/cascade.ts:502-505 | Such a state is reached by fetching an entry and then another action of the same entry. |
| Cascading.CachingKeepsSoundIff | packages/core/src/network/cache.ts:331-350 | Inserting a genuine record under a hash it has keeps the cache sound if and only if every alias that leads to that hash is a hash of the new record. |
| Cascading.InsertWithoutMissCanLie | packages/core/src/network/cache.ts:331-350 | A witness for the last row: a sound cache in which inserting over a hit leaves an alias that leads to another action's record. |
| TtlCaching.TTLCache.Get | packages/core/src/network/cache.ts:109-117 | Answers unexpired data and deletes an expired entry. |
| TtlCaching.TTLCache.Set | packages/core/src/network/cache.ts:119-133 | Stores at the end with its expiry and evicts when over the size. |
| TtlCaching.TTLCache.Evict | packages/core/src/network/cache.ts:139-154 | Deletes what has expired, then the oldest until the size fits. |
| TtlCaching.ReachedByExpiry | packages/core/src/network/cache.ts:99-163 | With a clock that does not run backwards the cache stays ordered by expiry and within its size. |
| TtlCaching.LookupIsFresh | packages/core/src/network/cache.ts:109-117 | Over every run a lookup answers only with the latest write that was not deleted, no older than the ttl. |
| TtlCaching.WritesStay | packages/core/src/network/cache.ts:109-154 | Over every run a write stays in the cache until it expires, is deleted, or max other keys have been written after it. |
| TtlCaching.LookupHitsIff | packages/core/src/network/cache.ts:109-154 | So long as it is among the last max keys written, a lookup hits if and only if the latest write is not older than the ttl, and answers with its data. |
| TtlCaching.EvictsUnexpiredLast | packages/core/src/network/cache.ts:139-154 | A write evicts an unexpired entry only if all max + 1 are unexpired, and then only the one that expires first. |
| LinkCaching.LinkCache.MergeLinkIntoCache | packages/core/src/network/cache.ts:391-404 | Appends the link to every cached list of the base that is untyped or of its type and does not have it. |
| LinkCaching.LinkCache.RemoveLinkFromCache | packages/core/src/network/cache.ts:410-423 | Takes the first link with the hash out of every cached list of the base. |
| LinkCaching.LinkCache.MergeLinkDetailIntoCache | packages/core/src/network/cache.ts:460-473 | The same as merging, for lists with deletes. |
| LinkCaching.LinkCache.AddDeleteToLinkDetailsCache | packages/core/src/network/cache.ts:479-502 | Records the delete, once, with the create in every cached list of the base. |
| LinkCaching.ApplyCommitted | packages/core/src/ribosome/index.ts:346-361 | What a committed create or delete does to both caches. |
| LinkCaching.MergeKeepsLive | packages/core/src/network/cache.ts:391-404 | Merging keeps links equal to the undeleted details if and only if the link is already live or not recorded at all. |
| LinkCaching.DeleteKeepsLive | packages/core/src/network/cache.ts:410-423 | Removing a link from the live ones is the same as recording its delete. |
| LinkCaching.RunsKeepAgreement | packages/core/src/network/cache.ts:391-502 | With fresh create hashes, over every run of commits, evictions and invalidations: hashes stay unique, typed lists equal the filtered untyped ones, and links equal the undeleted details. |
| LinkCacheContents.ListsHoldWhatWasCommitted | packages/core/src/network/cache.ts:391-423 | Over every run with fresh creates, a list that is still cached holds, each once, exactly its first links and those created for its base (and type), minus those deleted since. |
| LinkCacheContents.DetailsHoldWhatWasCommitted | packages/core/src/network/cache.ts:460-502 | Likewise a list of details holds exactly the creates, each with exactly the deletions recorded for it. |
| LinkCaching.RecreatedLinkDisagrees | packages/core/src/network/cache.ts:460-473 | A create merged again after its delete is live in one cache only. |
| ChainTypes.ActionSurvivesStorage | packages/core/src/storage/source-chain-storage.ts:354-490 | Every action of every type comes back from its database record unchanged. |
| Decimals.ParseOfPrint | packages/core/src/storage/source-chain-storage.ts:354-404 | A timestamp survives being stored as decimal text. |
| SourceChains.SourceChainStorage.BeginTransaction | packages/core/src/storage/source-chain-storage.ts:175-191 | Refused while a transaction is open; otherwise the buffers are empty. |
| SourceChains.SourceChainStorage.Apply | packages/core/src/storage/source-chain-storage.ts:562-666 | In a transaction an operation is buffered and shown in the cache; outside it goes to the database first, which may refuse it. |
| SourceChains.SourceChainStorage.CommitTransaction | packages/core/src/storage/source-chain-storage.ts:196-312 | Stores all buffers or, if an action would reuse a sequence number, nothing; then three of four caches are emptied. |
| SourceChains.SourceChainStorage.RollbackTransaction | packages/core/src/storage/source-chain-storage.ts:317-329 | Drops the buffers and the whole cache. |
| SourceChains.SourceChainStorage.PreloadChainForCell | packages/core/src/storage/source-chain-storage.ts:1234-1279 | Loads actions, entries, links by base and the chain head, in whatever order the database lists them. |
| SourceChains.SourceChainStorage.UpdateLinkDeletedInCache | packages/core/src/storage/source-chain-storage.ts:1170-1185 | Marks the first cached link with the hash, in the first list that has it. |
| SourceChainAgreement.DirectWriteShows | packages/core/src/storage/source-chain-storage.ts:603-666 | A write outside a transaction keeps the cache showing the database. |
| SourceChainAgreement.OpsShow | packages/core/src/storage/source-chain-storage.ts:1016-1185 | At every point of a transaction the cache shows what a commit now would store. |
| SourceChainAgreement.CommitAgreesWithReload | packages/core/src/storage/source-chain-storage.ts:196-312 | After begin, any operations with links as in `PutLinkShowsIff` and an accepted commit, every read equals the read from an emptied cache preloaded from the new database; what the reads answer is said by `ReadsSeeLastWrites` and `LinkReadsSeeLastWrites`. |
| SourceChainReads.CommitStoresLastWrites | packages/core/src/storage/source-chain-storage.ts:196-312 | A commit of any operations stores for every hash the last write of it, marks every link with the last deletion of its hash wherever in the transaction that came, and changes nothing else. |
| SourceChainReads.DirectWriteIsACommit | packages/core/src/storage/source-chain-storage.ts:562-666 | A write outside a transaction is accepted, and stores, as a transaction of that one write. |
| SourceChainReads.ReadMeaning | packages/core/src/storage/source-chain-storage.ts:674-685 | On a cache that shows the database an action read gives the stored action, an entry read the stored entry, and the head is the stored one; None exactly if there is none. |
| SourceChainReads.LinkReadMeaning | packages/core/src/storage/source-chain-storage.ts:1079-1101 | A link read gives, each once, exactly the stored links of the base and, if a type is given, of that type. |
| SourceChainReads.ReadsSeeLastWrites | packages/core/src/storage/source-chain-storage.ts:674-822 | At every point of a transaction the action, entry and head reads answer with its last write of the hash, or else with what the database holds. |
| SourceChainReads.LinkReadsSeeLastWrites | packages/core/src/storage/source-chain-storage.ts:1079-1101 | At every point of a transaction a link read gives exactly the links of the base (and type) last put or stored, with their last deletion. |
| SourceChainReads.AcceptedIffNumbered | packages/core/src/storage/source-chain-storage.ts:562-602 | Where no two stored actions share a sequence number, a put is accepted if and only if that stays so. |
| SourceChainReads.CommitAcceptedIffNumbered | packages/core/src/storage/source-chain-storage.ts:196-312 | A commit is accepted if and only if sequence numbers stay unique at every one of its puts. |
| SourceChainAgreement.UndoneAgreesWithBegin | packages/core/src/storage/source-chain-storage.ts:317-329 | After a rollback or an aborted commit, a preload restores every read to what it was at begin. |
| SourceChainAgreement.AbortKeepsUncommittedHead | packages/core/src/storage/source-chain-storage.ts:294-312 | Before that preload the cached head is right if and only if the aborted transaction did not move it to another one. |
| SourceChainAgreement.AbortedHeadCanBeWrong | packages/core/src/storage/source-chain-storage.ts:294-312 | For every database and action that reuses a stored sequence number: the commit is refused, and the head the transaction moved to stays cached. |
| SourceChainAgreement.EveryCallStartsInAgreement | packages/core/src/storage/source-chain-storage.ts:1234-1279 | Over any sequence of calls, committed, refused by the database or rolled back, each followed by a preload into the cache it left: every read equals the read from an emptied cache loaded from the database. |
| SourceChainAgreement.PutLinkShowsIff | packages/core/src/storage/source-chain-storage.ts:1016-1030 | At any point of a transaction, putting a link keeps the cache showing what a commit would store if and only if its hash is new and the transaction's deletions leave it as it is; for a link that is not deleted, if and only if no deletion names its hash. |
| SourceChainAgreement.PutLinkAgreesIff | packages/core/src/storage/source-chain-storage.ts:1016-1030 | The same for the reads: they agree with those of a cache loaded from the new database if and only if the link was such. |
| SourceChainAgreement.EntryLookupIsStable | packages/core/src/storage/source-chain-storage.ts:857-868 | Looking an action up by entry hash is independent of cache order if and only if at most one action creates the entry. |
| KeyStorage.MemoryKeyStorage.PutEntry | packages/lair/src/memory-storage.ts:21-27 | Stores a copy of the seed in an array of its own. |
| KeyStorage.MemoryKeyStorage.GetEntry | packages/lair/src/memory-storage.ts:29-37 | Hands out a fresh copy. |
| KeyStorage.MemoryKeyStorage.DeleteEntry | packages/lair/src/memory-storage.ts:52-59 | Zeroes the seed's array and forgets the entry. |
| EncryptedStorage.SealedOpens | packages/lair/src/encrypted-storage.ts:93-131 | The stored form (header, nonce, box) is not taken for plaintext and opens to the seed. |
| EncryptedStorage.EncryptedKeyStorage.Seal | packages/lair/src/encrypted-storage.ts:101-110 | Seals under a nonce drawn for this seal alone, and what it makes opens to the seed. |
| EncryptedStorage.StandsForItselfIffPlaintext | packages/lair/src/encrypted-storage.ts:243-269 | A stored seed decrypts to itself if and only if it does not begin with the header. |
| EncryptedStorage.EncryptedKeyStorage.PutEntry | packages/lair/src/encrypted-storage.ts:93-116 | Refused while locked; stores plaintext before encryption is on, and afterwards a sealed seed that opens to the one given, under a nonce drawn for it alone. |
| EncryptedStorage.EncryptedKeyStorage.GetEntry | packages/lair/src/encrypted-storage.ts:118-131 | Refused while locked; otherwise what the stored seed stands for, in an array that is nobody else's, or a decryption error. |
| EncryptedStorage.EncryptedKeyStorage.MigrateToEncrypted | packages/lair/src/encrypted-storage.ts:161-192 | Seals every plaintext seed, leaves the others, and returns the number of plaintext seeds. |
| EncryptedStorage.MigrationKeepsMeaning | packages/lair/src/encrypted-storage.ts:161-192 | Migration keeps what every seed stands for and leaves nothing to migrate. |
| EncryptedStorage.EncryptedKeyStorage.ReEncrypt | packages/lair/src/encrypted-storage.ts:198-239 | If every seed opens under the old key, every seed is sealed under the new one and stands for the same; if one does not, nothing is written. |
| EncryptedStorage.PutAllReEncrypts | packages/lair/src/encrypted-storage.ts:232-239 | Writing one re-encrypted entry for every tag re-encrypts the store and changes no other entry. |
| LairLocking.LairLock.SetPassphrase | packages/extension/src/lib/lair-lock.ts:216-266 | The exact condition of each refusal; on success the new hash and salt are stored, the held key is the new one and the array of the old one is zeroed, and the returned keys are the caller's own copies. |
| LairLocking.LairLock.Unlock | packages/extension/src/lib/lair-lock.ts:272-314 | Refused exactly in the window after five failures or without a passphrase set; otherwise succeeds exactly if the passphrase verifies, and then holds its key; a held key means not locked. |
| LairLocking.LairLock.Lock | packages/extension/src/lib/lair-lock.ts:319-338 | Refused without a passphrase; otherwise the key array is zeroed and dropped. |
| LairLocking.LairLock.Reset | packages/extension/src/lib/lair-lock.ts:357-370 | The key array is zeroed, and state, saved state and throttle start over. |
| LairLocking.FailuresAreBounded | packages/extension/src/lib/lair-lock.ts:275-282 | Any span of time without success or reset holds at most 5 * (1 + span / 30000) evaluated failures. |
| LairLocking.AddFailure | packages/extension/src/lib/lair-lock.ts:309-313 | A failed attempt keeps the failures in groups of five with a full window between two groups. |
| Keystores.Keystore.Put | packages/lair/src/encrypted-storage.ts:93-116 | While unlocked the secret under the tag is now the given seed, and all others are unchanged. |
| Keystores.Keystore.Get | packages/lair/src/encrypted-storage.ts:118-131 | While unlocked it returns exactly the seed last put, in a fresh array; while locked, nothing. |
| Keystores.Keystore.UseAndWipe | packages/lair/src/memory-storage.ts:29-37 | A caller that zeroes the array it was given changes nothing the keystore holds. |
| Keystores.Keystore.LockNow | packages/extension/src/background/index.ts:1368-1380 | Zeroing the lock's key does not touch the storage; the secrets stay, and reading is refused. |
| Keystores.Keystore.UnlockNow | packages/extension/src/background/index.ts:1323-1346 | Unlocks if and only if the passphrase is not empty, verifies, and the throttle does not apply; then every secret is readable again. |
| Keystores.Keystore.SetPassphraseNow | packages/extension/src/background/index.ts:1276-1304 | A change of passphrase keeps every secret readable. The first passphrase does so if and only if no seed begins with the header. |
| Keystores.MigrationSeals | packages/lair/src/encrypted-storage.ts:161-192 | Migrating plaintext seeds gives seals of the secrets if and only if none begins with the header. |
| Keystores.ReEncryptionSeals | packages/lair/src/encrypted-storage.ts:198-239 | Re-encryption takes seals of the secrets under the old key to seals of the secrets under the new one. |
| WebSocketSessions.WebSocketNetworkService.Connect | packages/core/src/network/websocket-service.ts:260-291 | Does nothing while there is a socket; otherwise a new attached socket, or a scheduled reconnect if none could be made; an earlier disconnect is taken back (`ConnectingTakesBackDisconnect`). |
| WebSocketSessions.WebSocketNetworkService.Disconnect | packages/core/src/network/websocket-service.ts:296-301 | Detaches and closes the socket; registrations stay where they are. |
| WebSocketSessions.WebSocketNetworkService.RegisterAgent | packages/core/src/network/websocket-service.ts:306-334 | Sends when connected, tracks once, and starts authentication on an open idle socket. |
| WebSocketSessions.WebSocketNetworkService.UnregisterAgent | packages/core/src/network/websocket-service.ts:339-353 | Forgets the registration in both lists and tells the linker when connected. |
| WebSocketSessions.WebSocketNetworkService.HandleOpen | packages/core/src/network/websocket-service.ts:396-425 | Starts over with attempts and failed agents, and tries the first candidate. |
| WebSocketSessions.WebSocketNetworkService.HandleClose | packages/core/src/network/websocket-service.ts:480-497 | Moves registrations back to pending and schedules a reconnect unless the close was intended. |
| WebSocketSessions.WebSocketNetworkService.HandleAuthOk | packages/core/src/network/websocket-service.ts:506-527 | Sends every pending registration and tracks it as registered. |
| WebSocketSessions.WebSocketNetworkService.HandleAuthError | packages/core/src/network/websocket-service.ts:529-543 | Marks the agent failed and tries the next one, or gives up in state "connected". |
| WebSocketSessions.WebSocketNetworkService.ScheduleReconnect | packages/core/src/network/websocket-service.ts:770-799 | At most one timer, and none once the attempts are used up. |
| WebSocketSessions.WebSocketNetworkService.ReconnectTimerFires | packages/core/src/network/websocket-service.ts:794-798 | Forgets whatever socket there is, without detaching it, and connects. |
| WebSocketSessions.WebSocketNetworkService.HeartbeatTimesOut | packages/core/src/network/websocket-service.ts:743-757 | The socket is asked to close and stays the current one; nothing else changes. |
| WebSocketRuns.RunsKeepTracking | packages/core/src/network/websocket-service.ts:306-353 | For every sequence of events, strays and disconnects included: registered and pending are duplicate-free and disjoint, their union is what was registered minus what was unregistered, and nothing is pending while connected. |
| WebSocketRuns.CalmRunsKeepOrderly | packages/core/src/network/websocket-service.ts:770-799 | If nobody connects while a reconnect is scheduled: no stray socket, no socket beside an armed timer, and authenticated implies state "connected" on a socket that was open. |
| WebSocketRuns.ConnectKeepsOrderlyIff | packages/core/src/network/websocket-service.ts:260-291 | Connecting is safe if and only if no reconnect is scheduled or no socket could be made; otherwise the timer makes the new socket a stray. |
| WebSocketRuns.NeverStranded | packages/core/src/network/websocket-service.ts:480-497 | On calm runs without explicit disconnect there is always a socket or a scheduled reconnect, unless the attempts are used up and the state says so. |
| WebSocketUpkeep.ConnectingTakesBackDisconnect | packages/core/src/network/websocket-service.ts:260-301 | After a disconnect and a new connect, on every calm run without another disconnect: there is always a socket or a scheduled reconnect, unless the attempts are used up and the state says so. |
| WebSocketUpkeep.DisconnectIsFinal | packages/core/src/network/websocket-service.ts:296-301 | After a disconnect, until somebody connects: no socket, no timer, state "disconnected", whatever else is called. |
| WebSocketUpkeep.RetriesAreBounded | packages/core/src/network/websocket-service.ts:770-799 | While no socket opens, reconnect timers fire at most as often as attempts are left, and once more if one was armed. |
| WebSocketUpkeep.OpeningRestoresAttempts | packages/core/src/network/websocket-service.ts:396-425 | A socket that opens gives all attempts back: when it is lost, the first reconnect is scheduled. |
| WebSocketUpkeep.StateTellsTheTruth | packages/core/src/network/websocket-service.ts:260-301 | On every calm run: an armed timer means "reconnecting", a socket that has not opened "connecting", neither means "disconnected". |
| WebSocketUpkeep.NobodyIsLeftWaiting | packages/core/src/network/websocket-service.ts:306-334 | On quiet runs with named agents, an open socket that is not authenticated is being authenticated, or every agent that something is registered for has failed on it. |
| WebSocketUpkeep.LateRefusalIsIdleIff | packages/core/src/network/websocket-service.ts:529-543 | An authentication error after a success leaves the socket idle beside an agent that could be tried, if and only if some agent has not failed on it. |
| WebSocketUpkeep.PendingAgentsGoFirst | packages/core/src/network/websocket-service.ts:411-425 | Agents of pending registrations are tried in order before those of confirmed ones. |
| WebSocketRuns.RegistrationsReachTheLinker | packages/core/src/network/websocket-service.ts:801-815 | On such runs, once connected over an open socket, every wanted registration was sent on that socket. |
| WebSocketRuns.LinkerMirrorsTheService | packages/core/src/network/websocket-service.ts:801-815 | If, besides, authentication is never revoked, what the messages on that socket amount to is exactly what is wanted. |
| WebSocketRuns.RegistrationArrivesIffOpen | packages/core/src/network/websocket-service.ts:306-334 | A connected service tracks a new registration always; the linker hears of it if and only if the socket is open. |
| WebSocketRuns.RegistrationsMissAClosingSocket | packages/core/src/network/websocket-service.ts:743-757 | From any connected state a missed heartbeat leads to a registration that is tracked and never sent. |
| WebSocketRuns.UnregisterMirrorsIffConnected | packages/core/src/network/websocket-service.ts:339-353 | Unregistering keeps the linker's picture exact if and only if the service is connected. |
| WebSocketRuns.DisconnectForgetsRegistrations | packages/core/src/network/websocket-service.ts:296-301 | After disconnect, connect and authentication, all wanted registrations were sent again if and only if none had been registered before. |
| AuthFailover.EachAgentIsTriedOnce | packages/core/src/network/websocket-service.ts:411-425 | On one connection, whatever the linker answers, no agent is tried twice, only registered ones are, and none after a success. |
| AuthFailover.FailoverEnds | packages/core/src/network/websocket-service.ts:529-543 | If the linker accepts nobody, the search ends after as many failures as agents, connected and unauthenticated; all have failed if and only if no agent name is empty. |
| RecordConverter.NumberIsExactIff | packages/core/src/dht/record-converter.ts:59-63 | A timestamp survives conversion to a number if and only if it is a double, which all up to 2^53 are (magnitudes of 2^1024 and more aside). |
| ChainRecovery.ActionSurvivesRecoveryIff | packages/core/src/recovery/chain-recovery.ts:536-589 | Publishing and recovering an action gives the stored object back if and only if it has a 39-byte author, a 64-byte signature, a timestamp that is a double, no deleted link and no membrane proof (and a Dna action is the first). |
| ChainRecovery.DatabaseRecordSurvives | packages/core/src/recovery/chain-recovery.ts:536-589 | Then its database record is the same too; for a deleted link none can be made. |
| ChainRecovery.EntrySurvivesRecoveryIff | packages/core/src/recovery/chain-recovery.ts:595-612 | An entry comes back if and only if it is the action's entry and an agent entry or an app entry of the action's type. |
| ChainRecovery.RecoverChainFromDHT | packages/core/src/recovery/chain-recovery.ts:181-325 | Each of the four kinds of activity, with fetch errors recorded and counted; what comes back is said by `HashesMeaning`, `FullActivityIsOrdered` and the chains that come back. |
| ChainRecovery.RecoveryAccountsForEveryHash | packages/core/src/recovery/chain-recovery.ts:224-289 | Every hash ends as a record or an error, and records come in chain order, whatever the network answers. |
| ChainRecovery.RecoveryForgetsOrder | packages/core/src/recovery/chain-recovery.ts:225-230 | The order in which the network lists the hashes does not matter. |
| RecoveryOutcomes.HashesMeaning | packages/core/src/recovery/chain-recovery.ts:224-289 | From hashes, whatever the network answers: the records are exactly those it found, the errors exactly those it did not find or failed on, by number and in order. |
| RecoveryOutcomes.FullActivityIsOrdered | packages/core/src/recovery/chain-recovery.ts:293-321 | Full activity comes back complete and in chain order, without errors. |
| RecoveryOutcomes.FullActivityReturnsTheChain | packages/core/src/recovery/chain-recovery.ts:293-321 | The published records of a local chain, listed in full in any order, come back as the chain in its order. |
| ChainRecovery.ChainStore.StoreRecoveredRecords | packages/core/src/recovery/chain-recovery.ts:625-685 | One record that fails verification means nothing is stored; otherwise all are stored in order, with refusals counted. |
| ChainRecovery.PublishedChainComesBack | packages/core/src/recovery/chain-recovery.ts:625-685 | A local chain that was published, recovered from hashes in any order and stored is the same chain: its actions and entries and no others, and the last action as head. |
| RecoveryOutcomes.FullyListedChainComesBack | packages/core/src/recovery/chain-recovery.ts:293-321 | The same for a chain recovered from full activity in any order. |
| RecoveryOutcomes.HeadIsLastAccepted | packages/core/src/recovery/chain-recovery.ts:625-685 | Whatever the store refuses, the head is the last record that was stored to its end. |
| RecoveryOutcomes.ActionStored | packages/core/src/recovery/chain-recovery.ts:625-685 | Under an action hash the store has the last record with it, or what it had before if it refuses the hash or there is none. |
| RecoveryOutcomes.EntryStored | packages/core/src/recovery/chain-recovery.ts:625-685 | Under an entry hash it has the entry of the last such record whose action it took, unless it refuses the hash. |
| Sorting.SortingForgetsOrder | packages/core/src/recovery/chain-recovery.ts:229-230 | With distinct sequence numbers, sorting gives the one ordered list of the elements. |
| Transport.SerializeForTransport | packages/core/src/utils/bytes.ts:218-244 | Rebuilds arrays and objects item by item with byte arrays as arrays of numbers. |
| Transport.NormalizeByteArraysFromJson | packages/core/src/utils/bytes.ts:178-202 | Rebuilds the value with every array that looks like bytes as a byte array. |
| Transport.NormalizeUint8Arrays | packages/core/src/utils/bytes.ts:133-164 | Rebuilds the value with every object that looks like a serialized byte array as one. |
| Transport.SerializingRemovesByteArrays | packages/core/src/utils/bytes.ts:218-244 | No byte array is left at any depth. |
| Transport.SerializingKeepsPlainValues | packages/core/src/utils/bytes.ts:218-244 | A value is sent unchanged if and only if it holds no byte array. |
| Transport.JsonRoundTripIff | packages/core/src/utils/bytes.ts:178-202 | Normalising undoes serializing if and only if no byte array is empty and no plain array could be taken for bytes. |
| Transport.ChromeRoundTripIff | packages/core/src/utils/bytes.ts:101-164 | Normalising undoes Chrome's encoding if and only if no byte array is empty and no plain object could be taken for one. |
| Transport.TakenForBytesIff | packages/core/src/utils/bytes.ts:101-202 | Exactly the non-empty arrays (JSON), or objects with keys 0, 1, ... (Chrome), of numbers from 0 to 255 become byte arrays, fractions cut off. |
| Transport.SerializingIsIdempotent | packages/core/src/utils/bytes.ts:218-244 | Serializing twice is serializing once. |
| Transport.NormalisingJsonIsIdempotent | packages/core/src/utils/bytes.ts:178-202 | Normalising twice is normalising once. |
| Transport.NormalisingChromeIsIdempotent | packages/core/src/utils/bytes.ts:133-164 | The same for Chrome's encoding. |
| AgentInfo.SerializeAgentInfoCanonical | packages/core/src/network/agent-info-validator.ts:70-91 | Produces the canonical text, whose meaning the next rows give. |
| AgentInfo.InsideComesBack | packages/core/src/network/agent-info-validator.ts:72-77 | A JSON string parser (section 7 of RFC 8259) reads every string of code units back, lone surrogates included. |
| AgentInfo.EscapesAreShortest | packages/core/src/network/agent-info-validator.ts:72-77 | Each code unit is written in the shortest spelling that the parser reads, hexadecimal digits in lower case, and no other spelling of that length is left (lone surrogates, as escapes). |
| AgentInfo.CanonicalComesBack | packages/core/src/network/agent-info-validator.ts:70-91 | Every agent info can be parsed back from its canonical text. |
| AgentInfo.CanonicalIsInjective | packages/core/src/network/agent-info-validator.ts:70-91 | Two agent infos never have the same canonical text. |

## Left out

- Cryptography (Ed25519, Blake2b, secretbox, PBKDF2), msgpack, gzip and BIP-39: functions with the laws the proofs need. That a verification hash determines its key is assumed of key derivation; that opening a box shortens it by 16 bytes is assumed of secretbox.
- IndexedDB, SQLite, `chrome.storage`, `fetch`, Atomics and real sockets and timers: stores are maps, answers and clock readings are arbitrary.
- Crashes: nothing is said about InFlight ops after one, and nothing about the keystore after a restart, where the encrypted storage starts with encryption off until the lock hands it a key.
- An op enqueued between the two reads of the worker, or for a second DNA while the flag is set, waits for the next call: no claim is made that every enqueued op is picked up.
- Tracker calls are assumed not to throw and generated ids to be new, as the uniqueness of `generateId` intends.
- Cached lists of links are values here; the source shares the arrays with callers, so a caller that changes one in place is not modelled. Likewise the info objects of key entries are values.
- `cacheLinksSync` and `cacheLinkDetailsSync` write what the network said; agreement of the link caches is about what commits do to cached lists, from states that agree. The order in which links are evicted is arbitrary in that result.
- Link details, record details and `fetchLinks` of the cascade: merging of local and network links is not modelled.
- `normalizeByteArrays` of the cascade, and building records from the local store: the local answer is a parameter.
- RecordConverter.NumberIsExactIff: has no largest double, so magnitudes that `Number` turns into Infinity count as finite.
- SourceChains.SourceChainStorage.CommitTransaction: is one atomic step; the source clears the pending transaction before the database has finished, and a write in that window would go to the database directly.
- Source chain transactions are for one cell. Entries and links are stored as values; the conversion to database records is modelled for actions only. `queryActions`, `getDetails` and `getRecord` read the same caches.
- Handlers of several keystore requests at once: requests run one after the other. `getEntryInfo`, `listEntries` and the other pass-through calls of the encrypted storage, and the worker's copy of the master key.
- Keystores.Keystore.SetPassphraseNow: does not cover a store whose re-encryption fails half way through writing.
- WebSocketSessions.WebSocketNetworkService.RegisterAgent: callbacks are assumed not to call back into the service.
- Reconnect delays and their jitter: a reconnect timer fires at any time. Heartbeat intervals likewise.
- Signals, peer counts, challenges and signing requests over the WebSocket: they change no state that is modelled. A heartbeat counts only when it is missed.
- `validateAgentInfo` and base64 decoding: a list of checks over library functions. Numbers in the storage arc are 32-bit, as its type says.
- Recovery: progress callbacks, `verifyActionSignature` (an arbitrary predicate here) and its `normalizeActionContent`; a record without action content.
- Transport: values are trees of plain arrays and objects; typed arrays other than byte arrays, class instances, and the key `__proto__` are not modelled, nor is `toUint8Array`.
- Guest code, host functions, validation, genesis, user interface, content scripts, joining service and logging.
