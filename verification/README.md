# Polykey: a verified model

Polykey is a versioned key store. Keys live as rows `(id, version)` of one PostgreSQL table; a key is
rotated by marking its latest row and inserting the next version, under a serializable transaction
with retries and an advisory lock. Around the table stand a TTL cache with an index for invalidation,
a circuit breaker, a KMS layer that seals the data encryption keys (DEKs), token revocation, an
authorizer with a policy cache, and three channel pipelines (audit events, rotations, batches).

This project models that logic in Dafny and proves what it keeps over whole runs.

- `Domain` holds the shared value types. Times are integers in nanoseconds, ids are canonical UUID text.
- `KeyTable` gives the SQL statements as functions on the whole table, and the table invariant;
  `PsqlAdapter` is the repository object; `Transactions` the retry loop.
- `RotationProtocol` is the concurrent protocol: any number of rotations interleaved at snapshot,
  lock, statement, commit, 40001 and rollback, together with other writers.
- `Kms` and `KeyService` put sealing on top: every version ever made still opens. `Descriptions` is the
  bounded description type.
- `TtlCache`, `CacheKeys`, `CachedRepository`: the cache and the caching decorator as objects, refining
  the plain repository. `CacheConcurrency`: the same under every interleaving of its two locks.
- `Breaker`: the circuit breaker as an object that refines a three-state automaton. `BreakerSteps`: its
  four atomics under every interleaving of single loads, adds, swaps and stores.
- `Tokens`, `Authorizer`: decisions that depend on time through the cache.
- `KeyLister`: the walk along page tokens.
- `AuditLogger`, `RotationPipeline`, `Batch`: channel protocols as step systems.

The step systems share one shape: `Can(s, step)` says when a step is enabled, `Do(s, step)` what it
does, `Run` folds a sequence of steps, and a theorem about "every interleaving" quantifies over all
sequences that `CanRun`. Clock readings, random numbers, and the answers of the database, of Validate and
Process and of the wrapped call are parameters of the operation or of the step.

Where a promised property does not hold of the code, the exact condition is proved:

- Asking the cached repository for version 0 can answer with the latest version where the repository
  would refuse; it does so exactly on a hit of that entry (`GetKeyByVersion`, `VersionZeroAnswersLatest`).
- The two batch writes leave cached entries in place; the cache stays coherent exactly when they
  already showed the change (`BatchRevokeStaleIff`, `BatchUpdateStaleIff`, with
  `BatchRevokeMakesStale`, `BatchUpdateMakesStale`); for what readers can notice only live entries count
  (`BatchRevokeReadsIff`, `BatchUpdateReadsIff`).
- A metadata write prepared before a rotation and stored after it leaves an id that no
  run of service operations makes rotatable again (`UpdateKeepsIdOkIff`, `RotatesAfterUpdateIff`, `InterleavedUpdateStopsRotation`).
- A reader that races with a write can leave an old answer in the cache after the invalidation; hits older
  than the write come from such readers only (`HitsAfterInvalidationAreFresh`, `RacingFillIsServed`).
- "Revoked" lasts until the next rotation of the id (`RevokedUntilRotated`).
- A revoked token stays rejected for ever exactly when the deadline last written under its id reaches the
  last instant before its expiry; revoking the id again with an earlier expiry can undo it (`RevokedStaysRevoked`,
  `EarlierExpiryReplaces`).
- Token validation reads the clock twice, and what passes between the readings is stated exactly
  (`TwoReadingsGap`, `GapIsReal`).
- Rotation results are not addressed to their callers. Which pipelines can mix results up
  (`PipelineMixesUpIff`) and which reachable states still can (`MixUpPossibleIff`) is stated exactly, with
  a run in which two callers get each other's result (`ResultsAreNotAddressed`).
- Callers that give up can fill the pipeline for good (`StuckIffClogged`, `AbandonedResultsClog`).
- A breaker limit below one (`NeverMissesATrip`), an audit logger without workers
  (`StoppedHandsOverAllIff`) and a batch without concurrency (`HaltsByReturningIff`) are the exact
  exceptions to their properties.
- The page walk omits keys that tie with a page boundary, and only those (`OmittedIff`). Whether any are
  omitted depends on the stored keys and the limit alone (`WalkListsAllIff`, `TwoOfOneTime`).

Of PostgreSQL, `RotationProtocol` uses only that a transaction cannot overwrite a row that changed since
its snapshot (it gets 40001), that rows written by an open transaction are locked, and that an advisory
lock has one holder until its transaction ends. The snapshot is taken by the statement that tries the
lock, so it is older than the lock; the proof shows why that is still safe.

## Model

| member | source | states |
|---|---|---|
| `KeyTable.RunKeepsWellFormed` | internal/infra/persistence/psql_adapter.go:123-335 | every run of creates, rotates, version-preserving metadata updates and revokes keeps, for every id: versions exactly 1..n, metadata version equal to the version column, one storage profile, no active row but the latest, no rotated latest; and no row ever loses its encrypted DEK, creation time, profile or version |
| `KeyTable.ApplyKeepsWellFormed` | internal/infra/persistence/psql_adapter.go:123-335 | each single statement keeps that invariant, and rows only evolve |
| `KeyTable.LatestCountsRotations` | internal/infra/persistence/psql_adapter.go:280-302 | over any such run the latest version grows by exactly the number of rotations of that id |
| `KeyTable.ApplyMovesLatest` | internal/infra/persistence/psql_adapter.go:280-302 | a rotation of the id adds one to its latest version and no other statement moves it |
| `KeyTable.RotateExtends` | internal/infra/persistence/psql_adapter.go:280-302 | on a well-formed id a rotation adds exactly version n+1 and keeps the id well formed; field by field, the old row is only marked rotated and stamped, the new one is active with the new DEK and the old metadata, and no other row changes |
| `KeyTable.RotateWrites` | internal/infra/persistence/psql_adapter.go:280-302 | the same field by field on any table, the new version being one above the latest row's metadata version |
| `KeyTable.RotateFailsIff` | internal/infra/persistence/psql_adapter.go:270-320 | on a well-formed id a rotation fails exactly for an empty DEK, an id without rows, or version numbers used up |
| `KeyTable.UnrevokedStatus` | internal/infra/persistence/psql_adapter.go:280-302 | over every run from the empty table, a version that no revocation has reached is active while latest and rotated afterwards, never revoked |
| `KeyTable.UnrevokedStaysUnrevoked` | internal/constants/queries.go:42-45 | no statement but a revocation that reaches a row makes it revoked |
| `KeyTable.StatementsAreOps` | internal/infra/persistence/psql_adapter.go:123-335 | every statement that succeeds is one of the operations that runs are made of, with the same effect |
| `KeyTable.GetKeyFinds` | internal/constants/queries.go:21-26 | a read of the latest version finds the row with the largest version, and fails exactly when there is none |
| `KeyTable.GetKeyByVersionFinds` | internal/infra/persistence/psql_adapter.go:59-78 | a read by version finds exactly that row, and tells an impossible version from a missing one |
| `KeyTable.CreateAdds` | internal/infra/persistence/psql_adapter.go:123-165 | a create succeeds exactly when nothing is missing and the primary key is free, and adds the given fields as one row |
| `KeyTable.UpdateWrites` | internal/constants/queries.go:35-40 | a metadata update changes the metadata and time of the row with the largest version, and nothing else |
| `KeyTable.RevokeWrites` | internal/constants/queries.go:42-45 | a revocation changes status and revocation time of every row of the id, and nothing else |
| `KeyTable.RevokeBatchWrites` | internal/constants/queries.go:92-95 | a batch revocation does so for the listed ids |
| `KeyTable.CopyFromInsertsAll` | internal/infra/persistence/psql_adapter.go:167-205 | a batch insert succeeds exactly when its primary keys are distinct and free, and then adds its rows and nothing else |
| `KeyTable.RevokeRevokesAll` | internal/constants/queries.go:42-45 | revocation succeeds exactly for existing ids and leaves every version revoked |
| `KeyTable.RevokedUntilRotated` | internal/infra/persistence/psql_adapter.go:280-302 | a wholly revoked id stays so under exactly the statements other than a rotation of that id |
| `KeyTable.UpdateKeepsIdOkIff` | internal/constants/queries.go:35-40 | a metadata write keeps the id well formed if and only if it carries the latest row's version and (beyond version 1) its profile |
| `KeyTable.RotatesAfterUpdateIff` | internal/infra/persistence/psql_adapter.go:286-302 | after a metadata write the id can be rotated if and only if the written version plus one is in range and free |
| `KeyTable.RevokeBatchRevokesAll` | internal/constants/queries.go:92-95 | a batch revocation revokes every version of every listed id that exists, leaves all other rows alone and keeps the invariant |
| `KeyTable.UpdateBatchAt` | internal/infra/persistence/psql_adapter.go:485-512 | of each id a batch update touches only the latest row, and the update queued last wins |
| `KeyTable.UpdateBatchKeepsIdOkIff` | internal/infra/persistence/psql_adapter.go:485-512 | a batch update keeps an id well formed if and only if the update of it queued last carries its latest row's version and (beyond version 1) profile |
| `KeyTable.UpdateBatchKeepsWellFormedIff` | internal/infra/persistence/psql_adapter.go:485-512 | so it keeps the table well formed if and only if that holds of every id |
| `KeyTable.CopyFromKeepsWellFormed` | internal/infra/persistence/psql_adapter.go:167-205 | a batch of fresh first versions keeps the table well formed and every earlier row |
| `KeyTable.Latest` | internal/constants/queries.go:21-26 | the latest version is the largest stored one, absent exactly when the id has no rows |
| `PsqlAdapter.Adapter.constructor` | migrations/001_create_keys_table.up.sql:3-14 | an empty table is well formed |
| `PsqlAdapter.Adapter.GetKey` | internal/infra/persistence/psql_adapter.go:43-57 | returns the row with the largest version or not-found |
| `PsqlAdapter.Adapter.GetKeyByVersion` | internal/infra/persistence/psql_adapter.go:59-78 | returns exactly the requested version; versions below one are refused |
| `PsqlAdapter.Adapter.Exists` | internal/infra/persistence/psql_adapter.go:364-374 | true exactly when the id has a row |
| `PsqlAdapter.Adapter.CreateKey` | internal/infra/persistence/psql_adapter.go:123-165 | inserts one row or fails without effect, by missing key, missing metadata, empty DEK or taken primary key; a fresh version 1 keeps the table well formed |
| `PsqlAdapter.Adapter.CreateBatchKeys` | internal/infra/persistence/psql_adapter.go:167-205 | all rows or none, succeeding exactly when the primary keys are distinct and free; a batch of fresh first versions keeps the table well formed |
| `PsqlAdapter.Adapter.UpdateKeyMetadata` | internal/infra/persistence/psql_adapter.go:233-255 | replaces the metadata of the latest row only; version-preserving metadata keeps the table well formed |
| `PsqlAdapter.Adapter.RotateKey` | internal/infra/persistence/psql_adapter.go:257-320 | one atomic rotation, field by field, with its error cases; keeps the table well formed and all earlier DEKs |
| `PsqlAdapter.Adapter.RevokeKey` | internal/infra/persistence/psql_adapter.go:322-335 | revokes every version of an existing id and keeps the table well formed |
| `PsqlAdapter.Adapter.RevokeBatchKeys` | internal/infra/persistence/psql_adapter.go:453-478 | every version of every listed id that exists is revoked, no other row changes, no row is lost or loses its DEK, and the table stays well formed |
| `PsqlAdapter.Adapter.UpdateBatchKeyMetadata` | internal/infra/persistence/psql_adapter.go:480-515 | without effect when any entry lacks metadata; otherwise the updates take effect in order, unknown ids passed over, and the table stays well formed if and only if for every id the update queued last carries the version and (beyond version 1) the profile of its latest row |
| `Transactions.ExecuteInTransaction` | internal/infra/persistence/transaction_manager.go:28-86 | for every behaviour of the database: at most five attempts, all but the last ended by 40001; success exactly when the last attempt committed and no other commit; exhausted exactly when all five met 40001; no transaction left open; backed off after each 40001 for at least the bare delays, at most 11/10 of them and less than 341 ms |
| `Transactions.RunAttempt` | internal/infra/persistence/transaction_manager.go:42-82 | one pass begins, and then commits or rolls back, exactly as its outcome calls for, and reports which error it met |
| `Transactions.Retry` | internal/infra/persistence/transaction_manager.go:41-83 | the loop stops after the first attempt that need not be retried or after the fifth, and does to the connection exactly what those attempts call for |
| `Transactions.RetriedIff` | internal/infra/persistence/transaction_manager.go:50-79 | exactly 40001, in the function or at commit, is retried |
| `Transactions.RetriedLedger` | internal/infra/persistence/transaction_manager.go:65-78 | while attempts are retried nothing is committed or left open and the time slept stays within bounds |
| `Transactions.Sleep` | internal/infra/persistence/transaction_manager.go:71-77 | the jitter argument is positive and the delay is the backoff plus less than a tenth |
| `Transactions.BackoffBounds` | internal/infra/persistence/transaction_manager.go:71-76 | every delay is at least 10 ms and all delays together at most 310 ms |
| `RotationProtocol.StepKeepsInv` | internal/infra/persistence/psql_adapter.go:257-320 | every step of the concurrent protocol keeps: table well formed, locks held by open transactions, snapshots followed by the present table, pending rotations still applicable, versions and successful calls in one-to-one correspondence |
| `RotationProtocol.RunKeepsInv` | internal/infra/persistence/psql_adapter.go:257-320 | so does every interleaving of any number of calls and other writers |
| `RotationProtocol.RunIsSerializable` | internal/infra/persistence/transaction_manager.go:41-83 | every interleaving leaves the table its commits would leave if run one at a time as atomic statements |
| `RotationProtocol.LatestIsOnePlusSuccesses` | internal/infra/persistence/psql_adapter.go:257-320 | in every reachable state the latest version is one plus the number of calls that returned success; each success names its own version holding its own DEK, and each version above 1 has its success |
| `RotationProtocol.NoOverlappingRotations` | internal/infra/persistence/postgres_base.go:28-32 | whatever the lock hash, no two calls ever have uncommitted rows of one id, and a call that returned holds no lock |
| `RotationProtocol.RefusedIffHashHeld` | pkg/postgres/client.go:48-55 | a call is refused exactly when some open transaction holds a lock with the same hash; a refusal changes nothing |
| `RotationProtocol.ExhaustedIffFive` | internal/infra/persistence/transaction_manager.go:41-83 | in every run a call gives up for serialization failures exactly when it has met five of them |
| `RotationProtocol.RetriesUntilFive` | internal/infra/persistence/transaction_manager.go:65-79 | after each of the first four a call starts over without a lock and without a trace, on a fresh snapshot |
| `RotationProtocol.UndisturbedCallRotates` | internal/infra/persistence/psql_adapter.go:257-320 | from every reachable state a call that finds its lock free and is not disturbed rotates the present table, or reports why it cannot, and restores the locks |
| `RotationProtocol.OthersProceed` | internal/infra/persistence/transaction_manager.go:65-82 | writers wait only for uncommitted rows of their own id, and a failing call leaves no trace but its answer |
| `RotationProtocol.UnrevokedInEveryRun` | internal/infra/persistence/psql_adapter.go:280-302 | in every interleaving a version that no committed revocation has reached is active while latest and rotated afterwards |
| `RotationProtocol.ExecuteIsPending` | internal/infra/persistence/psql_adapter.go:280-302 | although the snapshot predates the lock, a statement that passes the row-version test acts on the present latest row |
| `RotationProtocol.CommitIsRotate` | internal/infra/persistence/psql_adapter.go:280-320 | what a commit writes, computed from the snapshot, is exactly the atomic rotate statement on the present table |
| `RotationProtocol.OneWriterPerId` | internal/infra/persistence/psql_adapter.go:270-278 | two calls with uncommitted rows of one id are the same call |
| `Kms.LocalRoundTrip` | internal/kms/local_kms_provider.go:60-130 | with lawful AEAD and HKDF (section 2 of RFC 5869), sealing succeeds exactly when there is a master key, and opening what was sealed for an id gives back the DEK |
| `Kms.SealOpens` | internal/kms/local_kms_provider.go:89-130 | splitting off the nonce undoes prefixing it |
| `Kms.SealedFormat` | internal/kms/local_kms_provider.go:89-106 | a ciphertext is twelve bytes of nonce and the sealed text, and exists exactly for AES key lengths |
| `Kms.OpenFailsIff` | internal/kms/local_kms_provider.go:108-130 | opening fails exactly for an empty or short ciphertext, a bad key length or a text that does not authenticate |
| `Kms.DerivationInputsDiffer` | internal/kms/local_kms_provider.go:48-50 | different ids never share a salt or an info |
| `Kms.DerivedKeyIs` | internal/kms/kdf.go:13-29 | the derived key is HKDF of a non-empty master key with that salt and info |
| `Kms.ProvidersDelegate` | internal/kms/aws_kms_provider.go:32-66 | the local provider seals under its master key, the remote one by its service |
| `Kms.ProfileDecidesProvider` | internal/service/key_service.go:76-87 | hardened keys go to the provider named aws, all others to the default one, if they are configured |
| `Kms.LegacyRoundTripIff` | internal/kms/local_kms_provider.go:71-87 | a DEK sealed under the bare master key opens if and only if the derived key either rejects that ciphertext or opens it to the same DEK |
| `Kms.LocalProvider.constructor` | internal/kms/local_kms_provider.go:28-40 | starts with an empty derived-key cache |
| `Kms.LocalProvider.GetDerivedKey` | internal/kms/local_kms_provider.go:42-57 | the key depends on master key and id alone, whether it comes from the cache or not |
| `Kms.LocalProvider.EncryptDek` | internal/kms/local_kms_provider.go:60-68 | seals as the cache-free function does |
| `Kms.LocalProvider.DecryptDek` | internal/kms/local_kms_provider.go:71-87 | opens as the cache-free function does, falling back to the master key only after a failure |
| `Kms.ProviderRoundTrip` | internal/service/key_service.go:76-87 | the provider a profile selects opens whatever it sealed |
| `KeyService.EveryVersionOpens` | internal/service/key_manager.go:21-60 | every version in the table at any point of any interleaving of creations, rotations, updates and revocations is there at every later point, with the same sealed DEK, and opens, by the provider its row then selects, to the DEK generated for it |
| `KeyService.RunEvolves` | internal/infra/persistence/psql_adapter.go:123-335 | no interleaving takes a row away, or its DEK, version or profile |
| `KeyService.GetKeyServesEveryVersion` | internal/service/key_retriever.go:22-85 | on every reachable table a request for a positive version is answered for that version and any other for the largest stored; the answer is given exactly when that version is stored, not revoked and of the supported type, and holds its sealed DEK and the checksum of the DEK generated for it |
| `KeyService.CreatedKeyOpens` | internal/service/key_creator.go:22-80 | a created key is accepted exactly when its id is new, is a fresh version 1 of the invariant, and its DEK opens again |
| `KeyService.CreatedKeyHolds` | internal/service/key_creator.go:22-80 | a key object is made exactly for an acceptable description, a supported type and a provider that seals, and holds the item's fields |
| `KeyService.UpdateChanges` | internal/service/key_manager.go:309-342 | an update changes the named fields only; removal of a tag wins over adding it; version and profile stay |
| `KeyService.Perform` | internal/service/key_manager.go:294-351 | repository and update handler do what the service-run model says |
| `KeyService.RunKeepsOpen` | internal/service/key_manager.go:21-60 | every run keeps: all stored first versions and all DEKs of rotations under way open to what was generated |
| `KeyService.StepKeepsOpen` | internal/service/key_manager.go:28-52 | so does every step |
| `KeyService.SealedOpens` | internal/service/key_service.go:76-87 | what was sealed under a profile opens under that profile |
| `KeyService.UpdateKeyMetadata` | internal/service/key_manager.go:294-351 | read-modify-write without interference changes exactly the named fields and tags of the latest row, and keeps the table well formed |
| `Descriptions.TrimsBothEnds` | internal/domain/bounded_types.go:76-82 | trimming leaves exactly what stands between the white space at the two ends |
| `Descriptions.SpacesAre` | internal/domain/bounded_types.go:76-78 | the white space trimmed is the Unicode property White_Space |
| `Descriptions.AcceptedIff` | internal/domain/bounded_types.go:76-90 | a text is accepted exactly when what stands between its white space is at most 255 bytes long |
| `Descriptions.ByteLengthBounds` | internal/domain/bounded_types.go:85-90 | the length in bytes is the number of characters exactly for ASCII text, and at most four times that |
| `Descriptions.AcceptedIsStable` | internal/domain/bounded_types.go:76-90 | an accepted description has no white space at its ends, is at most 255 bytes long and is accepted again unchanged |
| `KeyService.InterleavedUpdateStopsRotation` | internal/service/key_manager.go:294-351 | a rotation between the read and the write of an update leaves an ill-formed id; after any run of service operations every rotation of it fails |
| `KeyService.StrandedForGood` | internal/service/key_manager.go:303-344 | no run of creations, rotations, read-modify-write updates and revocations puts a stale version number right |
| `TtlCache.SetIsReadUntilDeadline` | pkg/cache/generic_cache.go:77-121 | over any run of sets and deletes of other keys and sweeps, a value is read exactly until its deadline (0: default, -1: never) |
| `TtlCache.OthersDoNotInterfere` | pkg/cache/generic_cache.go:77-182 | operations on other keys and sweeps never change what a key reads |
| `TtlCache.SweepIsInvisible` | pkg/cache/generic_cache.go:172-182 | no read at or after a sweep can tell that it happened |
| `TtlCache.SweepKeepsLive` | pkg/cache/generic_cache.go:172-182 | a sweep keeps exactly the items that never expire or have not expired yet |
| `TtlCache.DeletedStaysAbsent` | pkg/cache/generic_cache.go:124-137 | a deleted key is a miss until it is set again |
| `TtlCache.Cache.constructor` | pkg/cache/generic_cache.go:37-52 | starts empty |
| `TtlCache.Cache.Set` | pkg/cache/generic_cache.go:77-98 | stores the value with the deadline its ttl stands for and touches no other key |
| `TtlCache.Cache.Get` | pkg/cache/generic_cache.go:103-121 | returns exactly the unexpired value, without changing the cache |
| `TtlCache.Cache.Delete` | pkg/cache/generic_cache.go:124-137 | removes the key and yields the callback's argument exactly if it was present |
| `TtlCache.Cache.DeleteExpired` | pkg/cache/generic_cache.go:172-182 | removes exactly the expired items and yields each of them once |
| `CacheKeys.CacheKeyText` | internal/infra/persistence/cached_repository.go:201-213 | a cache key is the id, a colon, and latest or v with the version in decimal |
| `CacheKeys.CacheKeyInjective` | internal/infra/persistence/cached_repository.go:201-213 | different (id, version) pairs never share a cache key |
| `CachedRepository.Repository.Replay` | internal/infra/persistence/cached_repository.go:68-175 | every sequential run of reads (any version but 0), creates, batch creates, updates, rotations, revocations and sweeps, at whatever times, answers and changes the table exactly as the repository without a cache |
| `CachedRepository.Repository.Serve` | internal/infra/persistence/cached_repository.go:68-175 | one request through the cache has the plain repository's answer and effect and keeps the cache coherent |
| `CachedRepository.Repository.constructor` | internal/infra/persistence/cached_repository.go:34-50 | starts coherent |
| `CachedRepository.Repository.GetKey` | internal/infra/persistence/cached_repository.go:68-81 | returns what the repository would return now |
| `CachedRepository.Repository.GetKeyByVersion` | internal/infra/persistence/cached_repository.go:83-96 | returns what the repository would return if and only if it is not a version-0 request that hits the latest-version entry, which it answers with the latest key |
| `CachedRepository.Repository.GetKeyMetadata` | internal/infra/persistence/cached_repository.go:98-105 | returns the metadata the repository would return now |
| `CachedRepository.Repository.Exists` | internal/infra/persistence/cached_repository.go:169-175 | answers as the repository would now |
| `CachedRepository.Repository.CreateKey` | internal/infra/persistence/cached_repository.go:116-122 | writes through and keeps every entry current |
| `CachedRepository.Repository.CreateBatchKeys` | internal/infra/persistence/cached_repository.go:124-132 | writes through, all or nothing, and keeps every entry current |
| `CachedRepository.Repository.UpdateKeyMetadata` | internal/infra/persistence/cached_repository.go:140-146 | writes through and keeps every entry current |
| `CachedRepository.Repository.RotateKey` | internal/infra/persistence/cached_repository.go:148-154 | writes through and keeps every entry current |
| `CachedRepository.Repository.RevokeKey` | internal/infra/persistence/cached_repository.go:156-162 | writes through and keeps every entry current |
| `CachedRepository.Repository.RevokeBatchKeys` | internal/infra/persistence/cached_repository.go:187-191 | writes through without touching the cache; a coherent cache stays coherent if and only if its entries of the listed ids already show that revocation |
| `CachedRepository.Repository.UpdateBatchKeyMetadata` | internal/infra/persistence/cached_repository.go:193-197 | writes through without touching the cache; a coherent cache stays coherent if and only if the write failed or its entries for the latest versions of the listed ids already show the metadata and time queued last |
| `CachedRepository.BatchRevokeStaleIff` | internal/infra/persistence/cached_repository.go:187-191 | after a batch revocation the cache is still coherent if and only if every entry of the listed ids already shows that revocation |
| `CachedRepository.BatchUpdateStaleIff` | internal/infra/persistence/cached_repository.go:193-197 | after a batch update the cache is still coherent if and only if every entry that is the latest version of a listed id already shows what was queued last for it |
| `CachedRepository.BatchRevokeReadsIff` | internal/infra/persistence/cached_repository.go:187-191 | a batch revocation leaves every later hit right if and only if the entries of the listed ids that are still live already show it |
| `CachedRepository.BatchUpdateReadsIff` | internal/infra/persistence/cached_repository.go:193-197 | a batch update leaves every later hit right if and only if the live entries for the latest versions of the listed ids already show it |
| `CachedRepository.ReadsAgreeIff` | internal/infra/persistence/cached_repository.go:68-96 | every hit from a time on is what the repository would answer if and only if every entry live at that time is current |
| `CachedRepository.BatchRevokeMakesStale` | internal/infra/persistence/cached_repository.go:187-191 | any unrevoked key that has just been read is a coherent cache that a batch revocation makes stale |
| `CachedRepository.BatchUpdateMakesStale` | internal/infra/persistence/cached_repository.go:193-197 | any key that has just been read is a coherent cache that a batch update to other metadata makes stale |
| `CachedRepository.VersionZeroAnswersLatest` | internal/infra/persistence/cached_repository.go:83-96 | builds a coherent cached repository that answers version 0 with the latest key where the repository alone refuses |
| `CachedRepository.Repository.StoreInCache` | internal/infra/persistence/cached_repository.go:215-225 | stores the entry and keeps the index exact |
| `CachedRepository.Repository.InvalidateCache` | internal/infra/persistence/cached_repository.go:227-241 | drops all cached versions of the id and nothing else |
| `CachedRepository.Repository.OnCacheEvict` | internal/infra/persistence/cached_repository.go:52-66 | takes the cache key out of its owner's line, and the line with it when it was the last |
| `CachedRepository.Repository.Sweep` | pkg/cache/generic_cache.go:172-182 | drops exactly the expired entries with their index lines and keeps coherence |
| `CachedRepository.EvictedExact` | internal/infra/persistence/cached_repository.go:52-66 | the eviction callback keeps the index exact |
| `CachedRepository.InsertedExact` | internal/infra/persistence/cached_repository.go:218-224 | the index insertion keeps the index exact |
| `CacheConcurrency.HitsAreBoundedlyStale` | internal/infra/persistence/cached_repository.go:187-225 | in every interleaving, whatever the repository does, a hit is the answer to its own request in a state the repository has been in, at most two minutes after it was stored |
| `CacheConcurrency.IndexIsComplete` | internal/infra/persistence/cached_repository.go:215-241 | in every interleaving each entry is listed under its key id or its filler is about to list it |
| `CacheConcurrency.InvalidationMissesOnlyFills` | internal/infra/persistence/cached_repository.go:227-241 | in every interleaving, when an invalidation is done an entry of its id was stored after it read the index, or its filler still owed the index insertion at that moment |
| `CacheConcurrency.HitsAfterInvalidationAreFresh` | internal/infra/persistence/cached_repository.go:227-241 | in every interleaving, once the invalidation after a write is done no hit on the id is older than the write, unless a goroutine that read before the write was still storing or listing its answer when the invalidation read the index |
| `CacheConcurrency.SweepDropsExpired` | pkg/cache/generic_cache.go:172-182 | when a sweep is done every entry that had expired when it took the lock is gone, unless filled again |
| `CacheConcurrency.LiveEntriesAreOnlyDeleted` | pkg/cache/generic_cache.go:124-182 | in every run an entry that could still be hit leaves only by a deletion of its key |
| `CacheConcurrency.InvalidationTakesItsOwn` | internal/infra/persistence/cached_repository.go:227-241 | an invalidation takes on exactly what the index lists under its id, which are cache keys of that id only |
| `CacheConcurrency.RacingFillIsServed` | internal/infra/persistence/cached_repository.go:68-81 | for any key and any write there is a run in which a goroutine that read before the write stores after the invalidation is done, and a third is given the old answer |
| `CacheConcurrency.ActProgresses` | internal/infra/persistence/cached_repository.go:52-96 | every step of a read, invalidation or sweep brings it nearer to its end |
| `CacheConcurrency.CriticalSectionsExclude` | pkg/cache/generic_cache.go:77-137 | in every run whoever changes the items or evicts is alone with them, and whoever changes the index is alone with it |
| `CacheConcurrency.HitsAsTheCacheDoes` | pkg/cache/generic_cache.go:103-121 | a lookup under the lock hits exactly when the sequential cache would |
| `CacheConcurrency.LocksDoNotDeadlock` | internal/infra/persistence/cached_repository.go:52-66 | nobody waits for the cache lock while holding the index lock, and whenever somebody is under way somebody can step |
| `CacheConcurrency.RunKeepsInv` | pkg/cache/generic_cache.go:77-137 | every interleaving keeps lock exclusion, entry provenance and index completeness |
| `CacheConcurrency.StepKeepsInv` | internal/infra/persistence/cached_repository.go:52-241 | so does every lock operation, map update, sweep step, clock tick and repository change |
| `Breaker.OpensOnTheThreshold` | pkg/patterns/circuitbreaker/circuitbreaker.go:155-177 | the breaker opens on exactly the call that completes a run of maxFailures consecutive failures, and until then counts trailing failures |
| `Breaker.ClosedCountsTrailingFailures` | pkg/patterns/circuitbreaker/circuitbreaker.go:155-177 | without such a run it stays closed and its counter is the number of trailing failures |
| `Breaker.TrailingMeans` | pkg/patterns/circuitbreaker/circuitbreaker.go:155-177 | the counter is at least m exactly when the last m calls failed |
| `Breaker.RefusedWhileOpen` | pkg/patterns/circuitbreaker/circuitbreaker.go:134-146 | until resetTimeout after the last failure every call is refused without running, and refusals do not extend the window |
| `Breaker.OpenRunsIffAfterWindow` | pkg/patterns/circuitbreaker/circuitbreaker.go:134-153 | an open breaker runs a call exactly when it starts more than resetTimeout after the last failure, and that call decides the next state; a breaker that is not open runs every call |
| `Breaker.FirstRunIsFirstAfterWindow` | pkg/patterns/circuitbreaker/circuitbreaker.go:140-146 | over any sequence of calls on an open breaker the first one run is the first to start after the window |
| `Breaker.LateOutcome` | pkg/patterns/circuitbreaker/circuitbreaker.go:155-177 | an outcome that arrives while open changes nothing if it is a success and restarts the window if it is a failure |
| `Breaker.ClosesAfterSuccesses` | pkg/patterns/circuitbreaker/circuitbreaker.go:166-177 | it closes exactly after halfOpenRequests consecutive half-open successes; any half-open failure opens it again |
| `Breaker.ConfiguredIsValid` | pkg/patterns/circuitbreaker/circuitbreaker.go:43-89 | whatever the options, the configuration New builds is valid and has the given failure limit |
| `Breaker.ValidIsConfigured` | pkg/patterns/circuitbreaker/circuitbreaker.go:43-89 | every valid configuration can be had by options |
| `Breaker.Breaker.constructor` | pkg/patterns/circuitbreaker/circuitbreaker.go:74-89 | starts closed without failures |
| `Breaker.Breaker.CanExecute` | pkg/patterns/circuitbreaker/circuitbreaker.go:134-153 | refuses exactly while open and not more than resetTimeout after the last failure, moving to half-open at the end of the window |
| `Breaker.Breaker.RecordResult` | pkg/patterns/circuitbreaker/circuitbreaker.go:155-177 | moves the automaton by one outcome |
| `Breaker.Breaker.Transition` | pkg/patterns/circuitbreaker/circuitbreaker.go:179-195 | changes state and resets counters exactly when the expected state is found |
| `Breaker.Breaker.Execute` | pkg/patterns/circuitbreaker/circuitbreaker.go:92-132 | a call is one step of the automaton, refused exactly within the window |
| `BreakerSteps.NeverWedges` | pkg/patterns/circuitbreaker/circuitbreaker.go:134-195 | in every interleaving of atomic steps, a shut half-open gate is owed to a goroutine whose very next step reopens it or leaves half-open |
| `BreakerSteps.NeverMissesATrip` | pkg/patterns/circuitbreaker/circuitbreaker.go:155-195 | settled closed states always have fewer failures than maxFailures, if and only if maxFailures is at least one |
| `BreakerSteps.ChangesFormAWalk` | pkg/patterns/circuitbreaker/circuitbreaker.go:179-195 | only the four edges occur, and the changes form one walk from closed to the present state |
| `BreakerSteps.RunKeepsInv` | pkg/patterns/circuitbreaker/circuitbreaker.go:134-195 | every interleaving keeps: a shut gate owes a release, a reached threshold owes a trip, the changes form a walk |
| `BreakerSteps.ActKeepsRelease` | pkg/patterns/circuitbreaker/circuitbreaker.go:134-195 | no atomic step drops an owed release |
| `BreakerSteps.ActKeepsTrip` | pkg/patterns/circuitbreaker/circuitbreaker.go:155-195 | no atomic step drops an owed trip |
| `BreakerSteps.CallAloneIsNext` | pkg/patterns/circuitbreaker/circuitbreaker.go:92-195 | the atomic steps of an undisturbed call add up to one step of the simple automaton, with the same result, refused or run |
| `BreakerSteps.LostSwap` | pkg/patterns/circuitbreaker/circuitbreaker.go:179-195 | a goroutine that loses a swap changes nothing and goes on, running its function after canExecute |
| `BreakerSteps.OwnCountDecides` | pkg/patterns/circuitbreaker/circuitbreaker.go:155-165 | a goroutine compares its own failure count, whatever became of the counter, and trips from the state it sees |
| `BreakerSteps.GateCountsSuccesses` | pkg/patterns/circuitbreaker/circuitbreaker.go:147-172 | the half-open gate looks at the successes so far, and each success counts |
| `Tokens.RevokedStaysRevoked` | internal/infra/auth/token_manager.go:55-110 | after a revocation and any later revocations, under this id or others, and sweeps, the token is rejected at every later time if and only if it has expired or the deadline last written under its id reaches the last instant before its expiry |
| `Tokens.IssuedTokenStaysRevoked` | internal/infra/auth/token_manager.go:38-110 | so a token made by GenerateToken stays rejected for ever as long as nobody revokes its id with an earlier expiry |
| `Tokens.UnrevokedIsAccepted` | internal/infra/auth/token_manager.go:38-78 | from an empty store on, a token whose id nobody revokes is accepted with a valid signature exactly before its expiry, within a second of the time asked for, and never with an invalid one |
| `Tokens.EarlierExpiryReplaces` | internal/infra/auth/token_manager.go:83-110 | a concrete token, revoked and rejected, that passes after its id is revoked again with an earlier expiry |
| `Tokens.RunTracks` | internal/infra/auth/token_store.go:33-40 | through any run of revocations and sweeps the entry of an id has the deadline last written under it, or has been swept after that |
| `Tokens.TwoReadingsGap` | internal/infra/auth/token_manager.go:55-78 | with the two clock readings validation takes, a revoked token passes, after any later revocations and sweeps, if and only if the first is before its expiry and the second after the deadline last written under its id |
| `Tokens.GapIsReal` | internal/infra/auth/token_manager.go:55-110 | for every token revoked before its expiry there are two readings in order after the revocation between which it passes |
| `Tokens.OtherTokenSameIdIff` | internal/infra/auth/token_store.go:33-40 | one more revocation under the id of a revoked token keeps it rejected if and only if it writes nothing, comes after the expiry, or writes a deadline that reaches the last instant before it |
| `Tokens.TokenManager.constructor` | internal/infra/auth/token_manager.go:23-35 | starts with nothing revoked |
| `Tokens.TokenManager.ValidateToken` | internal/infra/auth/token_manager.go:55-78 | accepts exactly valid signatures, read before the expiry if there is one, of ids without an entry or with one whose deadline has passed |
| `Tokens.TokenManager.Revoke` | internal/infra/auth/token_manager.go:83-110 | refuses tokens without expiry, does nothing for expired ones, and otherwise stores the id for the remaining validity and logs it |
| `Authorizer.Authorizer.Authorize` | internal/infra/auth/authorizer.go:49-110 | allows exactly identified requests that are cached or allowed now, and gives the reason; a cached allow stems from an uncached one for the same user, scope and key at most five minutes old; exactly one audit event, saying who asked, what was decided and, for a denial, why |
| `Authorizer.Authorizer.AuthorizeIdentified` | internal/infra/auth/authorizer.go:85-110 | the cache only ever holds true, each entry backed by an uncached allow |
| `Authorizer.Authorizer.constructor` | internal/infra/auth/authorizer.go:25-35 | starts with an empty policy cache |
| `Authorizer.Authorizer.Sweep` | pkg/cache/generic_cache.go:172-182 | sweeping keeps every entry backed |
| `Authorizer.CheckAuthorization` | internal/infra/auth/authorizer.go:125-177 | allows exactly administrators, requests without a key, scopes that name none, and keys that list the user for a sufficient tier; otherwise names the first obstacle |
| `Authorizer.UncachedIff` | internal/infra/auth/authorizer.go:125-177 | the decision spelled out: administrator, no key, an operation without a key, or a readable key that lists the user and a known requester of sufficient tier |
| `Authorizer.KeyReasonsIff` | internal/infra/auth/authorizer.go:147-173 | each denial on a key names its own cause, in the order of the checks |
| `Authorizer.TiersReach` | pkg/authorization/tier.go:27-46 | only Pro and Enterprise reach hardened keys, everybody reaches the others |
| `Authorizer.GrantsIff` | internal/infra/auth/authorizer.go:186-198 | a grant is a wildcard role or a role that lists the wildcard or the operation; administrators are granted everything |
| `Authorizer.IdentifiedIff` | internal/infra/auth/authorizer.go:56-83 | a request is identified exactly with a granted user, no foreign requester identity and, where enforced, a certificate of that name |
| `Authorizer.AuthenticateAndAuthorize` | internal/infra/auth/authorizer.go:180-201 | yields the user exactly when some role grants the operation, and otherwise says whether the identity or the grant is missing |
| `Authorizer.ReasonTellsDecision` | internal/infra/auth/authorizer.go:125-177 | an uncached decision is an allow if and only if its reason is one of the two authorizing texts |
| `Authorizer.HitIsAllow` | internal/infra/auth/authorizer.go:85-95 | a live entry is an allow of the same triple |
| `Authorizer.PolicyKeyEqualIff` | internal/infra/auth/authorizer.go:44-46 | two policy keys agree if and only if the key ids and the joined user and operation parts do |
| `Authorizer.PolicyKeyInjective` | internal/constants/auth.go:13-20 | over the six scopes the policy key determines user, scope and key id, even for user ids with colons |
| `Authorizer.OtherOperationsCollide` | internal/infra/auth/authorizer.go:44-46 | with operations other than the scopes it does not |
| `KeyLister.ListKeys` | internal/service/key_lister.go:12-54 | malformed tokens and repository errors are passed on; otherwise the page's metadata in order, with a token exactly for a full page |
| `KeyLister.OmittedIff` | internal/constants/queries.go:56-68 | a complete walk omits a key if and only if its creation time ties with the last key of a full page it is not on |
| `KeyLister.WalkListsAllIff` | internal/service/key_lister.go:17-44 | every complete walk lists every key if and only if no page boundary, computed from the stored keys and the limit alone, splits a group of equal creation times |
| `KeyLister.CursorIsBoundary` | internal/constants/queries.go:56-68 | whichever page the database gives, its token is the one time that fewer than limit keys exceed and at least limit reach, and is absent exactly when fewer than limit keys are left |
| `KeyLister.BoundaryIsUnique` | internal/constants/queries.go:56-68 | there is at most one such time |
| `KeyLister.PageExists` | internal/constants/queries.go:56-68 | for every set of keys and limit there is a page |
| `KeyLister.CompleteWalkExists` | internal/service/key_lister.go:17-44 | over every set of keys and limit there is a complete walk |
| `KeyLister.TwoOfOneTime` | internal/service/key_lister.go:41-44 | over two keys of one creation time, one a page, every complete walk omits one |
| `KeyLister.DistinctTimesListAll` | internal/service/key_lister.go:17-44 | with distinct creation times a complete walk lists every key exactly once |
| `KeyLister.WalkIsOrderedWithoutRepeats` | internal/service/key_lister.go:17-44 | no key comes twice and creation times never increase along a walk |
| `KeyLister.NoIdTwice` | internal/constants/queries.go:56-68 | on the latest rows of a table a walk never repeats an id |
| `KeyLister.EveryIdIsListed` | internal/service/key_lister.go:17-44 | when the latest rows have distinct creation times a complete walk lists every id that has rows, as its latest version |
| `KeyLister.WalkTerminates` | internal/service/key_lister.go:38-44 | a walk over n keys has at most n/limit + 1 pages |
| `KeyLister.LaterPagesAreOlder` | internal/constants/queries.go:56-68 | everything on a later page is strictly older than everything on an earlier one |
| `KeyLister.FullPagesHold` | internal/service/key_lister.go:38-44 | n pages with tokens hold n*limit different keys |
| `KeyLister.UntiedIsListed` | internal/service/key_lister.go:17-44 | a key that ties with no cursor it is not behind is listed |
| `AuditLogger.EventsAreConserved` | internal/infra/audit/async_audit_logger.go:57-126 | in every interleaving each event was accepted as often as it is queued, held by workers and handed to the repository; batches have size 1 to BatchSize; the channel never exceeds its buffer |
| `AuditLogger.LifeCycle` | internal/infra/audit/async_audit_logger.go:25-54 | the logger starts open and empty; closing happens once and changes nothing else; then nothing is sent, and a worker can return exactly when the channel is drained |
| `AuditLogger.SendIsAcceptedIff` | internal/infra/audit/async_audit_logger.go:57-80 | a send is accepted exactly when the channel has room and is otherwise dropped without waiting |
| `AuditLogger.WorkerHandsOverIff` | internal/infra/audit/async_audit_logger.go:83-114 | a worker hands its batch over exactly when it becomes full, at a tick or at its end |
| `AuditLogger.OnlyFullBatches` | internal/infra/audit/async_audit_logger.go:90-101 | without ticks and exits only full batches are written |
| `AuditLogger.StoppedHandsOverAllIff` | internal/infra/audit/async_audit_logger.go:49-54 | after Stop every accepted event was handed over exactly as often as accepted, if and only if there was a worker or nothing was queued |
| `AuditLogger.StopTerminates` | internal/infra/audit/async_audit_logger.go:49-54 | after the close every schedule takes at most as many steps, ticks aside, as there are queued events and running workers, and then everything is drained and returned |
| `AuditLogger.ClosedStepProgresses` | internal/infra/audit/async_audit_logger.go:83-114 | after the close each step but a tick leaves exactly one thing less to do, and every running worker has one |
| `AuditLogger.OneWorkerKeepsOrder` | internal/infra/audit/async_audit_logger.go:83-114 | a single worker hands events over in the order they were accepted |
| `AuditLogger.RunKeepsInv` | internal/infra/audit/async_audit_logger.go:57-126 | every interleaving keeps conservation and the size bounds |
| `AuditLogger.StepConserves` | internal/infra/audit/async_audit_logger.go:57-126 | so does every send, hand-off, receive, tick and exit, event by event |
| `RotationPipeline.RequestsAreConserved` | internal/pipelines/key_rotation.go:42-94 | in every interleaving an accepted request is queued, at one worker, buffered as a result or delivered, in exactly one of these; it has been processed exactly as often as it has a result; neither buffer exceeds its depth |
| `RotationPipeline.RunKeepsInv` | internal/pipelines/key_rotation.go:59-94 | every interleaving keeps this |
| `RotationPipeline.StepConserves` | internal/pipelines/key_rotation.go:59-94 | so does every channel operation, request by request |
| `RotationPipeline.SoloCallersGetTheirOwn` | internal/service/key_manager.go:95-128 | with one caller at a time, none giving up, whoever receives a result receives its own |
| `RotationPipeline.ResultsAreNotAddressed` | internal/service/key_manager.go:99-106 | with a worker and a queue, a run from the start gives each of two callers the other's result |
| `RotationPipeline.PipelineMixesUpIff` | internal/pipelines/key_rotation.go:42-94 | some run hands a caller another's result if and only if there is a worker and room for a second request, queued or at another worker |
| `RotationPipeline.MixUpPossibleIff` | internal/service/key_manager.go:95-128 | in every reachable state without a mix-up, the calls made so far can still end in one if and only if there is a worker and two callers wait, or one waits while an abandoned call's result can come first |
| `RotationPipeline.MixUpIffAtRisk` | internal/service/key_manager.go:99-106 | from any state without a mix-up one is reachable without new calls if and only if somebody waits while another's result can be next |
| `RotationPipeline.NextCanGoTo` | internal/pipelines/key_rotation.go:76-94 | a result that can be next can be handed to any waiting caller |
| `RotationPipeline.SoloIsNeverAtRisk` | internal/service/key_manager.go:95-128 | with one caller at a time, none giving up, no mix-up has happened and none can |
| `RotationPipeline.StuckIffClogged` | internal/service/key_manager.go:126-128 | the pipeline refuses everybody from now on if and only if abandoned results fill buffers and workers, and then for ever |
| `RotationPipeline.AbandonedResultsClog` | internal/service/key_manager.go:126-128 | with any number of workers and any depth, callers that give up bring the pipeline into such a state |
| `Batch.HaltsByReturningIff` | pkg/patterns/batch/batch.go:53-81 | however it is scheduled, a run that has come to a halt has returned if and only if the semaphore has room or there are no requests; otherwise it is deadlocked |
| `Batch.RunsAreBounded` | pkg/patterns/batch/batch.go:53-81 | in every interleaving at most MaxConcurrency goroutines are inside the semaphore, and the run is at most 6n + 1 steps long |
| `Batch.ReturnedSlotsAreSettled` | pkg/patterns/batch/batch.go:63-76 | on return slot i holds request i's outcome; Validate ran once for it, and Process once if Validate passed and never otherwise |
| `Batch.ScheduleDoesNotMatter` | pkg/patterns/batch/batch.go:53-81 | every schedule that returns leaves the slice that request after request would leave |
| `Batch.RunKeepsInv` | pkg/patterns/batch/batch.go:53-81 | every interleaving keeps semaphore and wait group equal to what they count, and every slot in step with the calls made for it |
| `Batch.StepKeepsInv` | pkg/patterns/batch/batch.go:53-81 | so does every step, and it brings the end nearer |

## Left out

- gRPC server, interceptors, protobuf types, configuration, logging and tracing: no state of their own.
- AWS KMS, S3 and Parameter Store clients: foreign calls; the remote provider is a pair of functions with a round-trip law.
- AES-GCM, HKDF, RSA, SHA-256: abstract functions of which only round-trip and length laws are used.
- JSON text of metadata, parsing of UUIDs and RFC 3339 timestamps: treated as exact round trips.
- Request validators, error classification tables and nil requests: single checks.
- `pkg/patterns/concurrency/worker_pool.go`, the circuit-breaker repository wrapper and the rate limiter: the same shapes again.
- The `storage_type` column of the table: written and never read back by the modelled statements.
- Errors of plain reads from the database (connection loss, scan errors) and commits whose acknowledgement is lost.
- GetKeyMetadataByVersion, GetKeyVersions, GetBatchKeys and BatchGetKeys: reads that would only add easy members.
- The bodies of the service's batch create, rotate and revoke handlers: loops over the modelled single operations.
- Overflow of the breaker's 64-bit counters and of nanosecond clocks; versions are bounded by the 32-bit maximum in the rotate statement.
- A bound on concurrent half-open probes: the gate counts successes, so there is none.
- The service changes the metadata object it got from the cache before writing it; metadata are values here.
- The eviction callback runs inside the cache lock; in the sequential objects it runs after the map change and the deleting methods return its arguments, in `CacheConcurrency` it runs under the lock.
- The server builds two token stores; the token theorems are about one token manager and its store.
- A negative MaxConcurrency makes the semaphore's creation panic; `Batch` starts from a semaphore that exists.
- Sends to the audit channel after Stop panic; a run of `AuditLogger` does not contain them.
- Cancellation of the rotation workers' context: the service starts them with a context that is never cancelled.
- The authorizer's denial for a key without metadata: a stored row always has metadata.
- Strings that are not valid UTF-8: texts are sequences of Unicode characters.
- CachedRepository.Repository.Replay: does not include the two batch writes, because they are exactly the writes that leave entries stale (`BatchRevokeStaleIff`, `BatchUpdateStaleIff`, `HitsAreBoundedlyStale`).
- RotationProtocol.RunKeepsInv: other writers' metadata updates carry the version and profile of the row they land on, because without that the invariant is false (`UpdateKeepsIdOkIff`).
- KeyService.EveryVersionOpens: assumes that the DEK handed to a rotation was sealed for a version of that key the service had read, which is what `processRotation` does before calling the repository.
- AuditLogger.OneWorkerKeepsOrder: says nothing for several workers, because their batches may overtake each other.
- CacheConcurrency.HitsAfterInvalidationAreFresh: goes one way; that a fill under way can lead to an old hit is shown by a run for every key and write (`RacingFillIsServed`), not from every reachable state, because another goroutine holding the cache lock may be about to drop that very entry.
- Metadata fields that no modelled operation reads: key id and status copies, creator identity, creation time and access count.
