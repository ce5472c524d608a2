# Verified model of the agent brain and its helpers

This project models the stateful core of an agent platform and proves what it promises: a
write-back working memory shared by several processes, retention and right-to-forget over the brain
file's tables, a memory review queue, the shared log through which agents of one type learn from
each other, and four smaller algorithms (audit copies, JSON Pointer, the source masker, and the
planner's recovery loop).

Check it with `dafny verify dfyconfig.toml`.

## How it is organised

Each part has a module with its state and what its operations are specified to do, a module with the
laws, and, where the original updates things in place, a class or methods proved to do what the
specification says.

| part | modules |
|---|---|
| working memory | `WorkingMemoryState`, `WorkingMemoryLaws`, `WorkingMemoryCalls`, `WorkingMemoryInvariants`, `WorkingMemoryRuns`, `WorkingMemoryEffects`, `WorkingMemoryWriteThrough`, `WorkingMemoryRetries`, `WorkingMemoryExamples`, `WorkingMemory` |
| deletion guards and right-to-forget | `DeletionGuards`, `EpisodeText`, `RightToForget` |
| retention | `RetentionState`, `RetentionScan`, `RetentionRing`, `RetentionLaws`, `RetentionRewind`, `RetentionCounting`, `RetentionBudget`, `RetentionLiveness`, `RetentionCheckpoints`, `Retention` |
| review queue | `ReviewQueueState`, `ReviewQueueLaws`, `ReviewQueueEffects`, `ReviewQueue` |
| failure clusters, paged rows, streamed search | `FailureClustering`, `EpisodicRows` |
| shared log and publisher identity | `HiveMindStore`, `HivePolling`, `PublisherMigration`, `PublisherMigrationLaws`, `BrainRegistry` |
| audit trail | `AuditEvent` |
| JSON Pointer | `JsonPointerText`, `JsonPointerState`, `JsonPointerLaws`, `JsonPointerPaths`, `JsonPointer` |
| source masker | `SourceSanitizerState`, `SourceSanitizerLaws`, `SourceSanitizerLexing`, `SourceSanitizerAgreement`, `SourceSanitizer` |
| planner | `RecoveryLineage`, `PlannerState`, `PlannerLog`, `Planner`, `PlannerReport` |

A JSON value is known by the text it serialises to, the text selectors search in it, and its expiry.
A keyed hash is an injective function. An SQL statement is one function on tables; an immediate
transaction is one step, with the tables restored on failure. What other processes, clocks, callers
and failing audit records do comes in as parameters, or as arbitrary steps of a run.

## What does not hold as one might expect

Where the code does not meet a property in general, the code is modelled as it is, and the exact
condition is proved.

- The invariants of a cache (byte count and maps agree, clean keys hold their persisted value, limits
  are respected) do not survive every failing call. `RunIsSound` says when they hold throughout a run:
  if and only if every call meets its condition. The calls that need one are these.
  - A `set` whose audit record fails restores the byte count from before the expiry sweep but keeps the
    sweep (`sqlite-brain.ts:2247`, `2305`): the count is right if and only if the other entries that
    expired had as many bytes as the rows that took their place (`SetRollbackAccounting`). It also brings
    the key back: if that was a clean entry that had expired, it stays clean although the sweep removed
    its persisted row (`SetRollbackStaysInStep`).
  - An expired entry may give way to a larger row of another writer; the byte limit is checked before
    entries are stored, not after such an adoption (`SweepKeepsLimits`).
  - A flush that fails has already reloaded the persisted view, so a clean key whose row another writer
    changed, or a pending key that had expired, no longer matches it (`EveryFailedFlushStaysInStep`).

  `WorkingMemoryExamples` has an input for each.
- A flush retried after a rollback or a failure can differ from the first try in listed expiry and guard
  cases (`RetryWritesTheSame`, `RetryAfterFailedRefresh`); without expiry and guards it never does
  (`UndisturbedRetry`).
- A flush without changes inside an outer transaction forgets the request to replace the whole table
  even if that transaction rolls back (`sqlite-brain.ts:1764`): `RetryAfterNoChange` says when the next
  flush of the same table still leaves the same rows, and `ReplaceIsForgotten` shows a row of another
  writer that then stays.
- The record a right-to-forget request leaves can itself contain the forgotten query, and so can the
  records of other requests: selectors leave rows of that shape alone, and see quarantined rows only in
  part. `RequestLeavesNoTrace` and `RunLeavesNoTrace` say exactly when no row at all contains the query.
- When the first checkpoint of a scan is left over by the delete cap, the next scan does not resume there
  but starts at the oldest checkpoint (`sqlite-brain.ts:8203-8212`); events are resumed where they were
  (`LeftOverCheckpointIsReadNext`, `LeftOverEventIsReadNext`).
- `cloneValue` loses an own entry named `__proto__` of a plain object
  (`CopyIsExactWithoutPrototypeField`). Freezing does not protect the contents of maps and sets, which is
  why `getAll` copies again.
- Opening one brain file for two agent types can cost a durable publisher its entries, after an outage
  of the shared log or when both open the file at the same time: an id found under the lock is returned
  without migrating its namespace (`brain-registry.ts:53-55`). `CarelessStepCanLoseEntry` shows that the
  condition of `CarefulRunLosesNothing` is exact, and `DurableEntryCanBePurged` that a run from an empty
  world meets it.
- Setting through a pointer that creates an array makes a diverging pointer with an index over the
  limit throw where it read nothing before (`DivergingPointer`, `IndexNowTooLarge`). On a graph with cycles a
  set can overwrite the path it was reached by (`GetAfterSet`, `ValueNotReadBack`).
- Setting a key to the value the cache takes its row to hold writes nothing at the next flush, even if
  another writer has changed or removed that row since (`SetWritesRow`); deleting a key whose row the cache
  has never seen leaves the row (`DeleteRemovesRow`).
- Each template expression that is never closed makes the masked text one character longer
  (`LengthGrowsByUnclosed`, `UnclosedExpressionLengthens`).
- The reader that looks for the end of a template expression takes the first backtick of a nested template
  for its end, even inside an expression nested there (`source-sanitizer.ts:192-197`), so it can lose the
  closing brace the scanner would find (`NestedTemplateMisleadsReader`); without nested expressions the two
  agree (`CloseBraceAgrees`).
- A strategy result that fails with an empty failure list uses up no recovery attempt
  (`AttemptsUsedIffFailures`), so a strategy that keeps answering so keeps the planner's loop going for
  ever (`NoFailuresNoEnd`, `StuckForEver`). A domain error of the strategy is reported without the results
  completed so far (`planner.ts:171-179`).
- `text.slice(-0)` keeps the whole text, so a search for one-letter keywords keeps everything it has
  read; it still finds what it should.

## Model

| member | source | states |
|---|---|---|
| WorkingMemoryLaws.FlushIsPerKeyMerge | packages/franken-brain/src/sqlite-brain.ts:1955-2058 | after a flush each key holds the local value if it was changed here, is gone if it was deleted here, and keeps its row otherwise, up to expiry and guards |
| WorkingMemoryLaws.CleanKeyKeepsItsRow | packages/franken-brain/src/sqlite-brain.ts:1966-1979 | a key this cache neither changed nor deleted is neither overwritten nor brought back by its flush |
| WorkingMemoryLaws.UndisturbedMerge | packages/franken-brain/src/sqlite-brain.ts:1955-2058 | with no expiry and no guard hit, a flush is exactly the table minus the deleted keys, overridden by the dirty values, or the local store when it replaces the table |
| WorkingMemoryLaws.FlushAppliesDelta | packages/franken-brain/src/sqlite-brain.ts:1697-1789 | an undisturbed flush applies the cache's delta to whatever table it finds, and leaves store and persisted view equal to that table with nothing pending |
| WorkingMemoryLaws.SettledCacheWritesNothing | packages/franken-brain/src/sqlite-brain.ts:1697-1789 | a flush of a cache with nothing pending writes nothing, whatever the table has become |
| WorkingMemoryLaws.RunAppliesDeltasInOrder | packages/franken-brain/src/sqlite-brain.ts:1697-1789 | any interleaving of several caches' local changes and flushes leaves the table that applying their deltas in flush order leaves |
| WorkingMemoryLaws.LastWriterWins | packages/franken-brain/src/sqlite-brain.ts:1697-1789 | after any interleaving a key holds what the last flush that touched it gave it |
| WorkingMemoryLaws.UntouchedKeyStays | packages/franken-brain/src/sqlite-brain.ts:1966-1979 | a key no flush of a run touches keeps its row through the run |
| WorkingMemoryLaws.RefreshedIsAccounted | packages/franken-brain/src/sqlite-brain.ts:2037-2057 | the refresh before a flush rebuilds store, sizes and byte count consistently |
| WorkingMemoryLaws.FlushedCacheIsAccounted | packages/franken-brain/src/sqlite-brain.ts:1768-1788 | the cache accounting holds again after the flush is finalised |
| WorkingMemoryLaws.SettledIsAccounted | packages/franken-brain/src/sqlite-brain.ts:1768-1782 | finalising a flush keeps the accounting |
| WorkingMemoryLaws.SweepStaysInStep | packages/franken-brain/src/sqlite-brain.ts:2201-2209 | expiring runtime keys keeps every clean key equal to its persisted view |
| WorkingMemoryLaws.SweepOneMore | packages/franken-brain/src/sqlite-brain.ts:2090-2114 | expired keys can be handled one at a time, in any order, with one result |
| WorkingMemoryLaws.StoreKeepsAccounting | packages/franken-brain/src/sqlite-brain.ts:2262-2290 | storing an entry keeps the byte count the sum of key and value bytes and the three maps on the same keys |
| WorkingMemoryLaws.StoreStaysWithinLimits | packages/franken-brain/src/sqlite-brain.ts:2254-2270 | an entry that passes the checks leaves the cache within both limits |
| WorkingMemoryLaws.DeleteKeepsAccounting | packages/franken-brain/src/sqlite-brain.ts:2333-2412 | deleting an entry keeps the accounting, and only persisted keys wait for deletion |
| WorkingMemoryLaws.PersistingKeepsAccounting | packages/franken-brain/src/sqlite-brain.ts:1919-1927 | showing a persisted entry keeps the accounting and leaves the key clean |
| WorkingMemoryLaws.ErasingKeepsAccounting | packages/franken-brain/src/sqlite-brain.ts:1936-1946 | forgetting a purged key keeps the accounting |
| WorkingMemoryLaws.RestoredIsAccounted | packages/franken-brain/src/sqlite-brain.ts:2727-2845 | restoring a snapshot establishes the accounting anew |
| WorkingMemoryLaws.RetryWritesTheSame | packages/franken-brain/src/sqlite-brain.ts:3796-3863 | the flush after a rolled-back one writes the same table if and only if no key meets one of two listed expiry and guard cases |
| WorkingMemoryRuns.RunIsSound | packages/franken-brain/src/sqlite-brain.ts:1697-2883 | over every run of sets, deletions, restores, clears, flushes, set-and-flushes, persisted and purged keys and checkpoints, failing ones and other writers included, byte count, maps, clean keys and limits are right in every state if and only if they are at first and every call meets its condition |
| WorkingMemoryRuns.CallKeepsCounts | packages/franken-brain/src/sqlite-brain.ts:2247-2331 | each call keeps the accounting if and only if it is no rolled-back set after a sweep that changed the byte count of the other keys |
| WorkingMemoryRuns.CallKeepsView | packages/franken-brain/src/sqlite-brain.ts:1955-2331 | each call keeps clean keys equal to the persisted view if and only if it is no rolled-back set of a clean entry that had expired, and no flush failing over rows others changed or entries that lapsed |
| WorkingMemoryRuns.CallKeepsLimits | packages/franken-brain/src/sqlite-brain.ts:2090-2270 | each call keeps the limits if and only if it does not end right after a sweep that took over more bytes than there is room for |
| WorkingMemoryWriteThrough.EditsAreWriteThrough | packages/franken-brain/src/sqlite-brain.ts:1697-2883 | a flush after any run of sets, deletions, restores and clears, failing ones included, leaves the rows that making the same changes to the rows directly would have left, until something expires |
| WorkingMemoryWriteThrough.FlushLeavesStore | packages/franken-brain/src/sqlite-brain.ts:1697-1789 | a cache that is its table plus pending changes flushes to exactly its store |
| WorkingMemoryEffects.DeleteRemovesRow | packages/franken-brain/src/sqlite-brain.ts:2333-2412 | after a deletion the next flush leaves no row of the key if the cache had seen one persisted, and every other key as it would have been |
| WorkingMemoryEffects.FailedDeleteChangesNothing | packages/franken-brain/src/sqlite-brain.ts:2333-2412 | a deletion of nothing, or without its audit record, changes nothing |
| WorkingMemoryEffects.SetShowsValue | packages/franken-brain/src/sqlite-brain.ts:2239-2331 | a store shows the value, sweeps the expired entries and leaves every other entry, row and pending change |
| WorkingMemoryEffects.SetWritesRow | packages/franken-brain/src/sqlite-brain.ts:2239-2331 | the flush after a store writes the value unless the cache takes the row to hold it already; every other key comes out as it would have |
| WorkingMemoryEffects.RolledBackSetKeepsKey | packages/franken-brain/src/sqlite-brain.ts:2290-2331 | a store whose audit record fails leaves the key's entry, and what the next flush does with it |
| WorkingMemoryEffects.RefusedSetStoresNothing | packages/franken-brain/src/sqlite-brain.ts:2239-2275 | a refused store changes nothing, one without room only sweeps |
| WorkingMemoryEffects.RoomIffWithinLimits | packages/franken-brain/src/sqlite-brain.ts:2255-2270 | there is room for an entry if and only if the cache with it is within its limits |
| WorkingMemoryEffects.SweepByKey | packages/franken-brain/src/sqlite-brain.ts:2090-2209 | a sweep key by key: which entry, row and persisted view it leaves, and what is still pending |
| WorkingMemoryEffects.RestoreReplacesRows | packages/franken-brain/src/sqlite-brain.ts:2727-2845 | after a restore the store is the snapshot, and the next flush leaves its rows and no others, whoever wrote them |
| WorkingMemoryEffects.SnapshotFitsIffWithinLimits | packages/franken-brain/src/sqlite-brain.ts:2727-2790 | a snapshot fits if and only if each entry could be stored and together they are within the limits |
| WorkingMemoryEffects.ClearRemovesEveryRow | packages/franken-brain/src/sqlite-brain.ts:2848-2883 | after a clear the next flush leaves no row |
| WorkingMemoryEffects.PersistWritesRow | packages/franken-brain/src/sqlite-brain.ts:1879-1933 | a single key has its row and entry at once and is not pending |
| WorkingMemoryEffects.RolledBackPersistWritesNothing | packages/franken-brain/src/sqlite-brain.ts:1879-1933 | a single key rolled back leaves the table alone, and the cache but for the sweep |
| WorkingMemoryEffects.PurgeRemovesRow | packages/franken-brain/src/sqlite-brain.ts:1935-1953 | a purged key has neither row nor entry nor anything pending |
| WorkingMemoryEffects.SetAndFlushWritesRow | packages/franken-brain/src/sqlite-brain.ts:1792-1837 | after storing and flushing at once the key's row is the value and every other row what a flush alone would have left |
| WorkingMemoryEffects.FlushShowsRows | packages/franken-brain/src/sqlite-brain.ts:1955-2058 | after a flush the cache shows rows of the table only, and all that are neither expired nor guarded |
| WorkingMemoryEffects.FlushFitsIffWithinLimits | packages/franken-brain/src/sqlite-brain.ts:1955-2036 | a flush can go through if and only if keys and entries are valid and the refreshed store is within the limits |
| WorkingMemoryEffects.LateFailureKeepsRefresh | packages/franken-brain/src/sqlite-brain.ts:3796-3863 | a checkpoint that fails after its flush leaves the table alone and the cache refreshed |
| WorkingMemoryEffects.ProvenanceFollowsRow | packages/franken-brain/src/sqlite-brain.ts:1697-1756 | a flush strikes the provenance of a key if and only if it changes its row other than by expiry |
| WorkingMemoryInvariants.SweptTotal | packages/franken-brain/src/sqlite-brain.ts:2201-2209 | the byte total after a sweep: less the expired entries, plus the rows of other writers taken over |
| WorkingMemoryInvariants.SweepKeepsLimits | packages/franken-brain/src/sqlite-brain.ts:2090-2114 | a sweep, stopped half-way or not, leaves the cache within its limits if and only if what it takes over is no larger than the limit allows beside what it drops |
| WorkingMemoryInvariants.SetRollbackAccounting | packages/franken-brain/src/sqlite-brain.ts:2247-2331 | after a rolled-back set the byte count is right if and only if the expired other entries had as many bytes as the rows that took their place |
| WorkingMemoryInvariants.SetRollbackStaysInStep | packages/franken-brain/src/sqlite-brain.ts:2247-2331 | after a rolled-back set clean keys hold their persisted values if and only if the key itself was not a clean entry that had expired |
| WorkingMemoryInvariants.FailedFlushStaysInStep | packages/franken-brain/src/sqlite-brain.ts:1955-2036 | after a flush that fails having looked at given keys, clean keys hold their persisted values if and only if no other writer changed their rows and none of those keys had lapsed |
| WorkingMemoryInvariants.EveryFailedFlushStaysInStep | packages/franken-brain/src/sqlite-brain.ts:1955-2036 | the same for wherever the flush fails, in terms of cache, table and clock only |
| WorkingMemoryExamples.RollbackLosesCount | packages/franken-brain/src/sqlite-brain.ts:2247-2331 | a sound cache whose byte count a rolled-back set leaves wrong |
| WorkingMemoryExamples.RollbackLosesRow | packages/franken-brain/src/sqlite-brain.ts:2247-2331 | a sound cache in which a rolled-back set brings an expired clean entry back without its row |
| WorkingMemoryExamples.SweepExceedsLimits | packages/franken-brain/src/sqlite-brain.ts:2090-2114 | a sound cache that a refused set leaves over its byte limit |
| WorkingMemoryExamples.FailedFlushLosesView | packages/franken-brain/src/sqlite-brain.ts:1955-2036 | a sound cache whose clean entry a failing flush leaves different from the persisted view |
| WorkingMemoryRetries.UndisturbedRetry | packages/franken-brain/src/sqlite-brain.ts:3796-3863 | after any checkpoint that failed, at whatever step, the next flush of the same table leaves what the failed one would have left, when neither expiry nor guards take part |
| WorkingMemoryRetries.RetryAfterNoChange | packages/franken-brain/src/sqlite-brain.ts:1757-1766 | after a failed checkpoint whose flush had no changes, the next flush leaves the same table if and only if that flush had no expired row to remove |
| WorkingMemoryRetries.RetryAfterFailedRefresh | packages/franken-brain/src/sqlite-brain.ts:1955-2036 | after a flush that failed in its refresh, the next one writes the same table if and only if it had met no pending entry that expired while its row still held it |
| WorkingMemoryExamples.RetryLeavesExpiredRow | packages/franken-brain/src/sqlite-brain.ts:3796-3863 | a sound cache and a table for which the retry after a rollback differs |
| WorkingMemoryExamples.NoChangeRetryLeavesExpiredRow | packages/franken-brain/src/sqlite-brain.ts:1757-1766 | a sound cache and a table for which the retry after a flush without changes differs |
| WorkingMemoryExamples.ReplaceIsForgotten | packages/franken-brain/src/sqlite-brain.ts:1757-1766 | a sound cache that forgets to replace the table, and so leaves the row another writer adds |
| WorkingMemory.SqliteWorkingMemory.ExpireRuntimeKey | packages/franken-brain/src/sqlite-brain.ts:2090-2114 | drops an expired entry and its equal row, adopts a live row of another writer, fails exactly on one too large |
| WorkingMemory.SqliteWorkingMemory.DeleteExpiredPersistedRow | packages/franken-brain/src/sqlite-brain.ts:2163-2199 | removes the row only if it still holds the expired value; persisted view, dirty and deleted keys after each of its branches |
| WorkingMemory.SqliteWorkingMemory.ExpireRuntimeTtlKeys | packages/franken-brain/src/sqlite-brain.ts:2201-2209 | the sweep of all expired keys, the exact condition for its failure, and cache and table where a failing one stops |
| WorkingMemory.SqliteWorkingMemory.Set | packages/franken-brain/src/sqlite-brain.ts:2239-2331 | exact conditions for success and for the failing audit record; cache and table after success, every refusal, a sweep that stops, and the roll-back |
| WorkingMemory.SqliteWorkingMemory.Delete | packages/franken-brain/src/sqlite-brain.ts:2333-2412 | new cache state; a failing audit record leaves it unchanged; what the next flush makes of it is DeleteRemovesRow |
| WorkingMemory.SqliteWorkingMemory.Restore | packages/franken-brain/src/sqlite-brain.ts:2727-2845 | all of the snapshot or nothing: refused snapshots and failing audit records change nothing |
| WorkingMemory.SqliteWorkingMemory.Clear | packages/franken-brain/src/sqlite-brain.ts:2848-2883 | the empty store with every persisted key waiting for deletion |
| WorkingMemory.SqliteWorkingMemory.PrepareSnapshot | packages/franken-brain/src/sqlite-brain.ts:2731-2790 | accepts a snapshot exactly when every check passes |
| WorkingMemory.SqliteWorkingMemory.PrepareCandidate | packages/franken-brain/src/sqlite-brain.ts:1985-2024 | what one key of the refreshed store comes to, and what it does to table and dirty keys, also when it fails |
| WorkingMemory.SqliteWorkingMemory.RefreshPreparedStateForFlush | packages/franken-brain/src/sqlite-brain.ts:1955-2058 | refines the merge specification; fails exactly when some entry or the whole does not fit, and then leaves the reloaded view and the pending keys its progress determines |
| WorkingMemory.SqliteWorkingMemory.FlushToDb | packages/franken-brain/src/sqlite-brain.ts:1697-1789 | table, provenance and cache after a flush, inside and outside a transaction, and the exact cache after each failure |
| WorkingMemory.SqliteWorkingMemory.FinalizeFlush | packages/franken-brain/src/sqlite-brain.ts:1768-1778 | what is left to do once an outer transaction has committed |
| WorkingMemory.SqliteWorkingMemory.SetAndFlush | packages/franken-brain/src/sqlite-brain.ts:1792-1837 | succeeds exactly when every check and both audit records do; if it fails, all cache fields and both tables are as before |
| WorkingMemory.SqliteWorkingMemory.PersistKeyAfterCommit | packages/franken-brain/src/sqlite-brain.ts:1879-1933 | exact condition for success; the row is written at once, the cache shows the entry at once or, inside a transaction, only through the pending entry; cache and table after each failure |
| WorkingMemory.SqliteWorkingMemory.ShowEntry | packages/franken-brain/src/sqlite-brain.ts:1919-1927 | the committed entry taken into the cache, with the byte count worked out before |
| WorkingMemory.SqliteWorkingMemory.PurgeKey | packages/franken-brain/src/sqlite-brain.ts:1935-1953 | the row is deleted at once; inside a transaction the cache forgets the key only afterwards |
| WorkingMemory.SqliteWorkingMemory.ForgetKey | packages/franken-brain/src/sqlite-brain.ts:1936-1946 | the key gone from cache and persisted view, the byte count reduced |
| WorkingMemory.SqliteRecoveryMemory.Checkpoint | packages/franken-brain/src/sqlite-brain.ts:3796-3863 | flushed rows and checkpoint appear together or not at all; each failure leaves the cache in the one state that belongs to it |
| DeletionGuards.ScanIsSubstringTest | packages/franken-brain/src/sqlite-brain.ts:9942-9976 | the hashed window scan refuses exactly the texts that contain a forgotten query, and texts over the candidate cap |
| DeletionGuards.ForgottenTextIsRefused | packages/franken-brain/src/sqlite-brain.ts:10394-10408 | a text containing a forgotten query is refused, whatever its length |
| DeletionGuards.GuardedCandidateIsForgottenText | packages/franken-brain/src/sqlite-brain.ts:10394-10408 | a hash hit means that the text contains a forgotten query |
| DeletionGuards.CandidatesAreSubstrings | packages/franken-brain/src/sqlite-brain.ts:9942-9976 | every scanned candidate occurs in the normalised text |
| DeletionGuards.SubstringsAreCandidates | packages/franken-brain/src/sqlite-brain.ts:9942-9976 | every substring of a guarded length is scanned |
| DeletionGuards.WordTokensAreSubstrings | packages/franken-brain/src/sqlite-brain.ts:9877-9889 | pattern matches are non-empty substrings |
| DeletionGuards.EveryWordHasToken | packages/franken-brain/src/sqlite-brain.ts:9877-9884 | every letter or digit lies in a token, and tokens are as long as they can be |
| DeletionGuards.CandidatesAreTokensAndPieces | packages/franken-brain/src/sqlite-brain.ts:9877-9976 | a text's candidates are its normal form, the tokens in it, and every piece of a guarded length, and nothing else |
| DeletionGuards.NormalizeIgnoresCaseAndSpace | packages/franken-brain/src/sqlite-brain.ts:9978-9980 | outer white space and the case of letters do not matter to a match |
| DeletionGuards.NormalizeKeepsTheRest | packages/franken-brain/src/sqlite-brain.ts:9978-9980 | texts with one normal form differ in nothing else |
| DeletionGuards.WorkingRefusedIff | packages/franken-brain/src/sqlite-brain.ts:10188-10214 | a write is refused if and only if its key is never-stored or forgotten, or key and text contain a forgotten query or pass the cap |
| DeletionGuards.PartIsScanned | packages/franken-brain/src/sqlite-brain.ts:9942-9976 | a forgotten query in one part of a text is found in the whole, wherever white space stands |
| DeletionGuards.QueryGuardCandidatesForReplay | packages/franken-brain/src/sqlite-brain.ts:9957-9976 | the candidate list is complete unless the cap is passed |
| DeletionGuards.HasAnyDeletionQueryGuard | packages/franken-brain/src/sqlite-brain.ts:10394-10408 | the loop over candidates decides refusal |
| DeletionGuards.IsWorkingRefused | packages/franken-brain/src/sqlite-brain.ts:10235-10277 | the guards a working-memory write meets, in order |
| RightToForget.TextMatches | packages/franken-brain/src/sqlite-brain.ts:10022-10026 | the selector's substring test |
| RightToForget.SqliteBrain.MatchingWorkingKeys | packages/franken-brain/src/sqlite-brain.ts:8540-8547 | exactly the matching rows |
| RightToForget.SqliteBrain.MatchingEpisodicIds | packages/franken-brain/src/sqlite-brain.ts:8549-8609 | exactly the events whose selector text matches: none of the records requests leave, and quarantined events by what of them selectors see |
| RightToForget.SqliteBrain.MatchingCheckpointIds | packages/franken-brain/src/sqlite-brain.ts:8611-8622 | exactly the matching checkpoints |
| EpisodeText.SeenWhole | packages/franken-brain/src/sqlite-brain.ts:8592-8607 | a selector sees every other event whole |
| EpisodeText.RecordIsExempt | packages/franken-brain/src/sqlite-brain.ts:10093-10110 | the record a request writes has the exempt shape if and only if its hash has 64 hexadecimal digits and its counts are safe integers |
| EpisodeText.RecordIsFixedText | packages/franken-brain/src/sqlite-brain.ts:8449-8467 | all a record can be found by: fixed words, the hash and the three counts |
| EpisodeText.EnvelopeIsNotSearched | packages/franken-brain/src/sqlite-brain.ts:8571-8607 | the envelope of quarantined details is searched in every row but the one it names |
| EpisodeText.MalformedIsSearched | packages/franken-brain/src/sqlite-brain.ts:8592-8607 | details that are no JSON are searched as they are stored |
| RightToForget.SqliteBrain.RightToForget | packages/franken-brain/src/sqlite-brain.ts:8283-8487 | a working row stays with its value if and only if the request does not reach working memory or its text does not match, the same for events and checkpoints; exactly one new event, the record counting the rows that went; the guards gained; short queries and dry runs change nothing |
| RightToForget.RequestSparesTheRest | packages/franken-brain/src/sqlite-brain.ts:8371-8467 | for requests of every type: what goes, what stays, the record and the guards, told from the tables before and after |
| RightToForget.SqliteBrain.Record | packages/franken-brain/src/sqlite-brain.ts:2943-2970 | an event is stored unless a guard refuses its text |
| RightToForget.NewIdsStayFree | packages/franken-brain/src/sqlite-brain.ts:8458-8480 | no run writes an event over another |
| RightToForget.FlushedRowIsOldOrAllowed | packages/franken-brain/src/sqlite-brain.ts:1994-2024 | a flush writes no row a guard refuses |
| RightToForget.AllowedTextDoesNotMatch | packages/franken-brain/src/sqlite-brain.ts:10394-10408 | a text the guards let through does not contain a guarded query |
| RightToForget.GuardingKeepsGuards | packages/franken-brain/src/sqlite-brain.ts:10137-10157 | a request adds its query to the forgotten ones of each scope its type reaches, and to no other |
| RightToForget.RequestForgets | packages/franken-brain/src/sqlite-brain.ts:8365-8487 | right after a request of any type only events of the exempt shapes can still contain the query, in the scopes it reaches |
| RightToForget.StepKeepsForgotten | packages/franken-brain/src/sqlite-brain.ts:10235-10277 | no single later write brings a forgotten query back, but for the records of later requests |
| RightToForget.ForgottenForever | packages/franken-brain/src/sqlite-brain.ts:8365-8487 | no run of flushes, persisted keys, records, checkpoints, deletions and further requests of any type brings a query back into a scope it was forgotten in, but for events of the exempt shapes |
| RightToForget.ForgottenAfterRequest | packages/franken-brain/src/sqlite-brain.ts:8365-8487 | the two together: permanent from the request on |
| RightToForget.SparedIsExempt | packages/franken-brain/src/sqlite-brain.ts:8592-8607 | an event a request leaves although it contains the query has one of the exempt shapes |
| RightToForget.RequestLeavesNoTrace | packages/franken-brain/src/sqlite-brain.ts:8283-8487 | after one request no row of the scopes it reaches contains the query if and only if it does not reach events, or neither its own record nor an earlier exempt event does |
| RightToForget.RunLeavesNoTrace | packages/franken-brain/src/sqlite-brain.ts:8283-8487 | once a query is forgotten in some scopes, no row of theirs contains it in any state of a run if and only if none does at first and, where events are reached, no later request leaves a record that does |
| RightToForget.RecordMayMatch | packages/franken-brain/src/sqlite-brain.ts:8449-8467 | every record contains one query long enough to be forgotten |
| RightToForget.RequestMayLeaveTrace | packages/franken-brain/src/sqlite-brain.ts:8283-8487 | a request after which its own record contains the query |
| RetentionScan.WindowIsCyclic | packages/franken-brain/src/sqlite-brain.ts:7786-7844 | the four range queries read the rows after the cursor and then those before it: each once, in order, up to the limit |
| RetentionRing.ScanIsRingPrefix | packages/franken-brain/src/sqlite-brain.ts:7786-7844 | a scan reads the table in cyclic order from the cursor on, up to its limit, and never the row at the cursor |
| RetentionRing.NextRing | packages/franken-brain/src/sqlite-brain.ts:8178-8192 | whatever is deleted, the next cyclic order is what is left of this one, turned to where the scan resumes |
| RetentionRewind.ResumedScanStartsThere | packages/franken-brain/src/sqlite-brain.ts:8178-8192 | the row the scan resumes before is the first the next scan reads, whatever was deleted |
| RetentionRewind.LeftOverEventIsReadNext | packages/franken-brain/src/sqlite-brain.ts:8172-8192 | the first event the delete cap leaves over is the first the next scan reads, from every cursor |
| RetentionRewind.LeftOverCheckpointIsReadNext | packages/franken-brain/src/sqlite-brain.ts:8198-8215 | the first checkpoint left over is the first the next scan reads, unless it was the first of its scan: then the next scan starts at the oldest checkpoint |
| RetentionRewind.FloorStaysTrusted | packages/franken-brain/src/sqlite-brain.ts:7900-7911 | the rollback floor a call finds is the one the next call trusts |
| RetentionRewind.NewFloorIsCursor | packages/franken-brain/src/sqlite-brain.ts:8011-8024 | a call that finds a floor where none was known lets the next scan begin right after it |
| RetentionCounting.CandidatesOnce | packages/franken-brain/src/sqlite-brain.ts:8162-8175 | under every entry budget every candidate stands for a row of its own |
| RetentionLaws.SelectionIsFirstInOrder | packages/franken-brain/src/sqlite-brain.ts:8162-8170 | under the delete cap, what goes comes first in compaction order |
| RetentionLaws.CandidateIsUnprotected | packages/franken-brain/src/sqlite-brain.ts:8000-8074 | a compaction candidate is a scanned, unprotected entry, under any entry budget |
| RetentionLaws.LastUsableIsNewest | packages/franken-brain/src/sqlite-brain.ts:3865-3902 | the checkpoint taken for the last one is the newest that parses |
| RetentionLaws.ScannedNewestIsFloor | packages/franken-brain/src/sqlite-brain.ts:7899-7990 | if the newest usable checkpoint is scanned it becomes the rollback floor |
| RetentionLaws.NewestIsNotSelected | packages/franken-brain/src/sqlite-brain.ts:8162-8188 | the newest usable checkpoint is never selected, for any cursor, cached floor and floor search |
| RetentionLaws.RollbackCheckpointSurvives | packages/franken-brain/src/sqlite-brain.ts:8148-8227 | enforcement never changes which checkpoint is the last usable one |
| RetentionLaws.RollbackCheckpointSurvivesEveryRun | packages/franken-brain/src/sqlite-brain.ts:8148-8227 | the same over any run, with any options at every call |
| RetentionLaws.ProtectedEventSurvives | packages/franken-brain/src/sqlite-brain.ts:1396-1424 | a protected event is never deleted |
| RetentionLaws.DeletesAreCapped | packages/franken-brain/src/sqlite-brain.ts:8162-8170 | at most maxDeletes rows of both tables go in one call |
| RetentionBudget.DeletesWhatIsDue | packages/franken-brain/src/sqlite-brain.ts:8052-8075 | under every entry budget one call deletes exactly as many rows as are due, up to the cap: all aged unprotected rows it scans, and as many unprotected ones as bring the tables down to the budget |
| RetentionBudget.CandidateCount | packages/franken-brain/src/sqlite-brain.ts:8062-8079 | the number of candidates, counted over the scanned rows and the tables |
| RetentionBudget.RetainedGoInOrder | packages/franken-brain/src/sqlite-brain.ts:8062-8079 | no retained row is deleted while an unprotected scanned row before it in compaction order stays |
| RetentionBudget.SelectedIsDeleted | packages/franken-brain/src/sqlite-brain.ts:8216-8227 | each selected entry takes one row with it, and no other row goes |
| RetentionBudget.CompactionOrder | packages/franken-brain/src/sqlite-brain.ts:1424-1440 | the order of compaction is total and consistent: priority, then age, then checkpoints first, then the smaller id |
| RetentionBudget.EventCounted | packages/franken-brain/src/sqlite-brain.ts:7845-7898 | an event is compactible if and only if it is unprotected and past the age of its class |
| RetentionBudget.CheckpointCounted | packages/franken-brain/src/sqlite-brain.ts:8026-8050 | a checkpoint is compactible if and only if another one is the floor and it is past its age |
| RetentionLaws.EnforcedIsValid | packages/franken-brain/src/sqlite-brain.ts:8148-8276 | order and cursor assumptions hold again after a call |
| RetentionLiveness.ScannedCompactibleIsCandidate | packages/franken-brain/src/sqlite-brain.ts:8000-8030 | without an entry budget each compactible row of the scan is a candidate |
| RetentionLiveness.CandidatesShrinkTables | packages/franken-brain/src/sqlite-brain.ts:8148-8188 | a call that finds a candidate deletes a row |
| RetentionLiveness.CallClears | packages/franken-brain/src/sqlite-brain.ts:8148-8192 | what a call passes over is not compactible or is deleted by it |
| RetentionLiveness.PassMovesOn | packages/franken-brain/src/sqlite-brain.ts:8148-8192 | a call that leaves no event over brings the scan on by its whole limit |
| RetentionLiveness.EachSelectedGoes | packages/franken-brain/src/sqlite-brain.ts:8216-8227 | a call removes a row for every selected entry, so one that leaves something over deletes as many as the cap allows |
| RetentionLiveness.DrainWithin | packages/franken-brain/src/sqlite-brain.ts:8148-8192 | with so many scans ahead and so many capped calls, no compactible event is left |
| RetentionLiveness.OnlyCompactibleEverGoes | packages/franken-brain/src/sqlite-brain.ts:8148-8276 | no number of calls deletes any other event, or a checkpoint not old enough |
| RetentionLiveness.EveryCompactibleEventGoes | packages/franken-brain/src/sqlite-brain.ts:8148-8276 | from every scan position, after a full cap for every capped call and one round of the table, exactly the events that are not compactible are left |
| RetentionCheckpoints.SearchStep | packages/franken-brain/src/sqlite-brain.ts:7912-7930 | a call without a floor narrows the search for one or starts it again, and never leaves the newest usable checkpoint behind |
| RetentionCheckpoints.RingStep | packages/franken-brain/src/sqlite-brain.ts:7931-7992 | a call with a floor and without candidates reads on in cyclic order and keeps a floor |
| RetentionCheckpoints.EveryAgedCheckpointGoes | packages/franken-brain/src/sqlite-brain.ts:7899-8227 | with a usable checkpoint some number of calls leaves exactly the newest usable one and those not old enough, from every cursor, cached floor and search position |
| RetentionCheckpoints.WithoutFloorAllStay | packages/franken-brain/src/sqlite-brain.ts:7899-8227 | while no checkpoint parses, no run deletes one |
| Retention.RetentionEnforcer.DeleteRows | packages/franken-brain/src/sqlite-brain.ts:8214-8227 | the delete loop removes exactly the selected ids of both tables |
| Retention.RetentionEnforcer.EnforceMemoryRetention | packages/franken-brain/src/sqlite-brain.ts:8095-8276 | scan, decide, delete and move on, refining the specification; the number of rows deleted is what is due under age and budget, up to the cap; refused options and a failing audit record change nothing |
| Retention.DefaultScanIsTenfold | packages/franken-brain/src/sqlite-brain.ts:8101-8112 | the defaults: a hundred deletes, ten rows scanned for each, a hundred at least |
| Retention.RetentionEnforcer.LastCheckpoint | packages/franken-brain/src/sqlite-brain.ts:3865-3902 | the batched backward loop finds the newest checkpoint that parses |
| ReviewQueue.IsProposalRefused | packages/franken-brain/src/sqlite-brain.ts:10188-10214 | both texts of a proposal are guarded |
| ReviewQueue.SqliteMemoryReviewQueue.FindMatchingSuppression | packages/franken-brain/src/sqlite-brain.ts:5844-5875 | the row scan answers exactly whether a stored suppression matches |
| ReviewQueue.SqliteMemoryReviewQueue.FindCandidateSuppression | packages/franken-brain/src/sqlite-brain.ts:5834-5875 | the three look-ups in order |
| ReviewQueue.SqliteMemoryReviewQueue.MarkMatchingPendingSuppressed | packages/franken-brain/src/sqlite-brain.ts:5736-5752 | exactly the other pending candidates a suppression reaches are marked |
| ReviewQueue.SqliteMemoryReviewQueue.InsertSuppression | packages/franken-brain/src/sqlite-brain.ts:5688-5734 | the suppression row, replaced only under its own signature, and the marking |
| ReviewQueue.SqliteMemoryReviewQueue.RedactRejectedRows | packages/franken-brain/src/sqlite-brain.ts:5784-5819 | exactly the copies of a rejected quarantined candidate are redacted |
| ReviewQueue.SqliteMemoryReviewQueue.Propose | packages/franken-brain/src/sqlite-brain.ts:4059-4145 | outcome for every path; suppressed proposals are answered and not stored, redacted where they must be |
| ReviewQueue.SqliteMemoryReviewQueue.Edit | packages/franken-brain/src/sqlite-brain.ts:4225-4316 | outcome for every path; the guards are met with the edited text and key |
| ReviewQueue.SqliteMemoryReviewQueue.SuppressOrStore | packages/franken-brain/src/sqlite-brain.ts:4398-4459 | a suppressed candidate is marked and stored nowhere; an approved one has its value in the working row of the key and is named by its provenance; nothing else changes |
| ReviewQueue.SqliteMemoryReviewQueue.Approve | packages/franken-brain/src/sqlite-brain.ts:4323-4492 | outcome for every path, in the order suppressed, not pending, guarded, suppression, conflict, storage; on success the value is in working memory under its key, or the candidate is suppressed and nothing is stored |
| ReviewQueue.SqliteMemoryReviewQueue.ApproveScopedCandidate | packages/franken-brain/src/sqlite-brain.ts:5119-5260 | outcome of keeping both values under another key; on success the value is in working memory under its key, or the candidate is suppressed and nothing is stored |
| ReviewQueue.SqliteMemoryReviewQueue.ExpireExistingAndApprove | packages/franken-brain/src/sqlite-brain.ts:5262-5345 | outcome of expiring the existing value; on success the value is in working memory under its key, or the candidate is suppressed and nothing is stored |
| ReviewQueue.SqliteMemoryReviewQueue.Reject | packages/franken-brain/src/sqlite-brain.ts:4494-4559 | outcome of a rejection, redaction included |
| ReviewQueue.SqliteMemoryReviewQueue.NeverStore | packages/franken-brain/src/sqlite-brain.ts:4561-4632 | outcome of a never-store decision; afterwards nothing of the key is left but redacted, decided rows |
| ReviewQueue.SqliteMemoryReviewQueue.ResolveConflict | packages/franken-brain/src/sqlite-brain.ts:5074-5117 | dispatch of the five resolutions under the conflict seen before |
| ReviewQueueEffects.ApprovalDecides | packages/franken-brain/src/sqlite-brain.ts:4323-4492 | an approval decides exactly when nothing refuses it; then the working row of the key is the candidate's value, provenance names it and nothing else changes, or the candidate is suppressed and stored nowhere |
| ReviewQueueEffects.DecidedStaysDecided | packages/franken-brain/src/sqlite-brain.ts:4360-4378 | approving a suppressed candidate changes nothing, any other decided one is an error |
| ReviewQueueEffects.ScopedApprovalDecides | packages/franken-brain/src/sqlite-brain.ts:5119-5260 | the same under the new key, which is another than the candidate's |
| ReviewQueueEffects.ExpiringApprovalDecides | packages/franken-brain/src/sqlite-brain.ts:5262-5345 | the same where the existing value gives way |
| ReviewQueueEffects.ResolutionStores | packages/franken-brain/src/sqlite-brain.ts:5074-5117 | each resolution stores the value only where it was meant to go and only while working memory still shows the value seen before |
| ReviewQueueEffects.SuppressionMeans | packages/franken-brain/src/sqlite-brain.ts:5834-5875 | what suppresses a value: a never-stored key, or a rejection of the same content |
| ReviewQueueEffects.ProposalStoresCandidate | packages/franken-brain/src/sqlite-brain.ts:4059-4145 | an accepted proposal is stored as it was made unless a suppression answers it, and nothing else changes |
| ReviewQueueEffects.EditChangesNamedFields | packages/franken-brain/src/sqlite-brain.ts:4225-4316 | an edit changes the named fields of its candidate and nothing else, but for the source id of another source |
| ReviewQueueEffects.RejectionDecides | packages/franken-brain/src/sqlite-brain.ts:4494-4559 | the candidate rejected, pending ones of the same content suppressed, copies of quarantined content redacted, everything else as before |
| ReviewQueueEffects.RejectionIsFiled | packages/franken-brain/src/sqlite-brain.ts:5688-5734 | the content is filed as rejected and no other suppression changes |
| ReviewQueueEffects.RejectionSucceedsIff | packages/franken-brain/src/sqlite-brain.ts:4494-4559 | exactly when a rejection goes through |
| ReviewQueueEffects.NeverStoringDecides | packages/franken-brain/src/sqlite-brain.ts:4561-4632 | the key loses its working row and provenance, its candidates are redacted and decided, other keys keep everything |
| ReviewQueueEffects.NeverStoringIsFiled | packages/franken-brain/src/sqlite-brain.ts:4561-4632 | the decision is filed under its key, and the other suppressions of the key lose their payloads |
| ReviewQueueEffects.RedactionHidesPayload | packages/franken-brain/src/sqlite-brain.ts:5754-5782 | no two payloads can be told apart once redacted |
| ReviewQueueEffects.ForgottenProposalIsRefused | packages/franken-brain/src/sqlite-brain.ts:10188-10214 | a forgotten query in any field of a proposal refuses it |
| ReviewQueueEffects.ForgottenDecisionIsRefused | packages/franken-brain/src/sqlite-brain.ts:5597-5610 | and in the note of a decision |
| ReviewQueueLaws.ReplacingCandidate | packages/franken-brain/src/sqlite-brain.ts:4260-4296 | changing a pending candidate to a key that is not never-stored keeps the queue sound |
| ReviewQueueLaws.StoringKeepsSound | packages/franken-brain/src/sqlite-brain.ts:4398-4459 | approval under an open key keeps the queue sound |
| ReviewQueueLaws.SuppressingKeeps | packages/franken-brain/src/sqlite-brain.ts:5688-5752 | a suppression changes pending candidates only and adds a never-stored key only for a never-store decision |
| ReviewQueueLaws.RejectingKeepsSound | packages/franken-brain/src/sqlite-brain.ts:4494-4559 | a rejection keeps the queue sound and earlier decisions in force |
| ReviewQueueLaws.RedactingKeepsSound | packages/franken-brain/src/sqlite-brain.ts:5784-5819 | redaction changes no status, key or reason |
| ReviewQueueLaws.PurgeKeepsOut | packages/franken-brain/src/sqlite-brain.ts:4577-4590 | a never-store decision leaves no pending candidate, provenance row, working row or unredacted row of the key |
| ReviewQueueLaws.NeverStoringKeepsSound | packages/franken-brain/src/sqlite-brain.ts:4561-4632 | and it disturbs no other never-stored key and no earlier decision |
| ReviewQueueLaws.FlushKeepsSound | packages/franken-brain/src/sqlite-brain.ts:1994-2024 | a flush of any cache brings no never-stored key back |
| ReviewQueueLaws.ProposalCallsKeepSound | packages/franken-brain/src/sqlite-brain.ts:4059-4316 | proposals and edits keep the queue sound |
| ReviewQueueLaws.ApprovalCallsKeepSound | packages/franken-brain/src/sqlite-brain.ts:4323-5345 | approvals of all three kinds keep the queue sound |
| ReviewQueueLaws.DecisionCallsKeepSound | packages/franken-brain/src/sqlite-brain.ts:4494-4632 | rejections and never-store decisions keep the queue sound |
| ReviewQueueLaws.CallKeepsSound | packages/franken-brain/src/sqlite-brain.ts:4059-5345 | every call of every process keeps the queue sound and decisions standing |
| ReviewQueueLaws.DecisionsAreFinal | packages/franken-brain/src/sqlite-brain.ts:5636-5661 | over every history no decided candidate changes status or key, and no suppression is lost |
| ReviewQueueLaws.EveryHistoryIsSound | packages/franken-brain/src/sqlite-brain.ts:5636-5661 | from an empty queue every history is sound |
| ReviewQueueLaws.NeverStoreIsForever | packages/franken-brain/src/sqlite-brain.ts:4561-4632 | after a never-store decision no history leaves a pending candidate, provenance row, working row or unredacted row of the key |
| ReviewQueueLaws.RejectionIsRemembered | packages/franken-brain/src/sqlite-brain.ts:5834-5875 | after a rejection the same content proposed again is suppressed, whatever happened since |
| FailureClustering.SimilarityIsSymmetric | packages/franken-brain/src/sqlite-brain.ts:6216-6232 | similarity does not depend on the order of the two events |
| FailureClustering.SimilarityBounds | packages/franken-brain/src/sqlite-brain.ts:6216-6232 | similarity lies between 0 and 1 and is 1 for equal non-empty texts |
| FailureClustering.SimilarityMeans | packages/franken-brain/src/sqlite-brain.ts:6216-6232 | same texts are alike, fewer than three common tokens are not, otherwise the share of common tokens to the nearest thousandth |
| FailureClustering.Grow | packages/franken-brain/src/sqlite-brain.ts:6325-6340 | one cluster grown to everything reachable from its seed |
| FailureClustering.Visit | packages/franken-brain/src/sqlite-brain.ts:6329-6338 | one visited event adds exactly its unclustered similar events |
| FailureClustering.ClusterSimilarFailureEvents | packages/franken-brain/src/sqlite-brain.ts:6319-6344 | the clusters partition the events, are connected, have no links between them, and start with their smallest index, in increasing order |
| FailureClustering.SameClusterIffConnected | packages/franken-brain/src/sqlite-brain.ts:6319-6344 | two events share a cluster if and only if a chain of pairs at or above the threshold joins them |
| EpisodicRows.CollectBatch | packages/franken-brain/src/sqlite-brain.ts:10825-10835 | one batch is consumed until enough events are found |
| EpisodicRows.CollectRowsToEvents | packages/franken-brain/src/sqlite-brain.ts:10804-10843 | the batched offset loop returns the first accepted events among the rows that may be scanned, for every limit and scan bound, and ends |
| EpisodicRows.EnoughFound | packages/franken-brain/src/sqlite-brain.ts:10828-10833 | stopping early loses nothing |
| EpisodicRows.OverlapFindsNewOccurrences | packages/franken-brain/src/sqlite-brain.ts:3504-3510 | an occurrence in the text so far and a new piece was there before or lies in overlap and piece, also when it spans several pieces |
| EpisodicRows.NextOverlap | packages/franken-brain/src/sqlite-brain.ts:3509-3509 | the overlap kept is always long enough, also where slicing by zero keeps the whole text |
| EpisodicRows.SearchStep | packages/franken-brain/src/sqlite-brain.ts:3504-3510 | after each piece the keywords found are exactly those of the text so far |
| EpisodicRows.ScoreOversizedEncryptedDetails | packages/franken-brain/src/sqlite-brain.ts:3479-3518 | for every division into pieces the score counts the distinct keywords of the summary and of the whole authenticated text |
| EpisodicRows.KeywordCounts | packages/franken-brain/src/sqlite-brain.ts:3479-3518 | a keyword counts if and only if the summary contains it, or the whole details do and were not tampered with |
| HiveMindStore.TrimKeepsNewest | packages/franken-brain/src/hive-mind-store.ts:266-275 | the trim keeps exactly the newest entries of its namespace |
| HiveMindStore.TrimKeepsOthers | packages/franken-brain/src/hive-mind-store.ts:266-275 | the trim leaves other namespaces alone |
| HiveMindStore.PublishKeepsNewest | packages/franken-brain/src/hive-mind-store.ts:245-286 | publishing appends, keeps the newest entries up to the bound, and touches no other namespace |
| HiveMindStore.Store.Publish | packages/franken-brain/src/hive-mind-store.ts:245-286 | the same for the method, with the id handed out |
| HiveMindStore.Store.Poll | packages/franken-brain/src/hive-mind-store.ts:288-312 | the oldest entries after the cursor that the reader asks for, in order, and all of them unless the limit is reached |
| HiveMindStore.Store.Recent | packages/franken-brain/src/hive-mind-store.ts:315-337 | the newest entries the reader asks for, newest first, and all of them unless the limit is reached |
| HiveMindStore.Store.CompleteLegacyPublisherMigration | packages/franken-brain/src/hive-mind-store.ts:388-419 | marker and purge once per namespace: exactly its entries go, and only with the purge |
| HiveMindStore.Store.DeletePublishedWhere | packages/franken-brain/src/hive-mind-store.ts:421-462 | exactly the matching entries of one publisher in one namespace go |
| HivePolling.PollKeepsUpToDate | packages/franken-brain/src/hive-mind-store.ts:288-312 | one poll delivers every admitted entry its cursor moves past |
| HivePolling.EventKeepsUpToDate | packages/franken-brain/src/hive-mind-store.ts:245-462 | no publish, trim, deletion or purge spoils what the reader has |
| HivePolling.DeliveredInOrder | packages/franken-brain/src/hive-mind-store.ts:288-312 | over any interleaving chained polls deliver strictly increasing ids, never one twice, and only what the filter admits |
| HivePolling.FreshReaderDeliversInOrder | packages/franken-brain/src/hive-mind-store.ts:288-312 | the same for a reader that starts with nothing, on any log |
| HivePolling.NothingPassedOver | packages/franken-brain/src/hive-mind-store.ts:288-312 | an entry that stays until the cursor passes it is delivered |
| HivePolling.ShortBatchDrains | packages/franken-brain/src/hive-mind-store.ts:288-312 | a batch below the limit leaves nothing waiting |
| PublisherMigrationLaws.StepKeepsLocks | packages/franken-brain/src/brain-registry.ts:50-72 | at most one process is inside a file's transaction |
| PublisherMigrationLaws.StepKeepsIds | packages/franken-brain/src/brain-registry.ts:24-72 | every step keeps holders and file in agreement |
| PublisherMigrationLaws.StepKeepsPurges | packages/franken-brain/src/hive-mind-store.ts:397-411 | every step keeps the purges to one for each namespace |
| PublisherMigrationLaws.StepKeepsDurable | packages/franken-brain/src/brain-registry.ts:33-72 | a careful step puts no durable id to work in a namespace not yet migrated |
| PublisherMigrationLaws.OneIdPerFile | packages/franken-brain/src/brain-registry.ts:18-76 | over every run with crashes a file's id never changes once committed and no namespace is purged twice |
| PublisherMigrationLaws.HoldersAgree | packages/franken-brain/src/brain-registry.ts:18-76 | processes that opened one file hold the same id, whenever they got it |
| PublisherMigrationLaws.CarefulRunLosesNothing | packages/franken-brain/src/brain-registry.ts:33-55 | where an outage is tolerated, and an id found under lock is used, only for migrated namespaces, no purge removes an entry under a durable id |
| PublisherMigrationLaws.TypedRunIsCareful | packages/franken-brain/src/brain-registry.ts:18-76 | one agent type per brain file makes every run careful |
| PublisherMigrationLaws.NoDurableEntryPurged | packages/franken-brain/src/brain-registry.ts:18-76 | with one agent type per brain file no entry under a durable id is ever lost to a purge |
| PublisherMigrationLaws.CarelessStepCanLoseEntry | packages/franken-brain/src/brain-registry.ts:33-55 | any careless step, from any world, can cost a durable publisher its entry |
| PublisherMigrationLaws.CarelessStepIsReachable | packages/franken-brain/src/brain-registry.ts:33-55 | a run from an empty world at whose end a careless step is enabled |
| PublisherMigrationLaws.DurableEntryCanBePurged | packages/franken-brain/src/brain-registry.ts:33-55 | a run from an empty world that loses an entry under a durable id to a purge |
| BrainRegistry.DurablePublisherId | packages/franken-brain/src/brain-registry.ts:18-76 | the id returned, the file and the log after a call, for every reply of the log and a concurrent commit |
| BrainRegistry.CallIsProtocolRun | packages/franken-brain/src/brain-registry.ts:18-76 | one undisturbed call is a run of the protocol with the same result |
| AuditEvent.PutImage | packages/franken-observer/src/audit-event.ts:205-212 | filling a copy entry by entry gives the image of the entries |
| AuditEvent.PutHolds | packages/franken-observer/src/audit-event.ts:140-282 | an entry put holds its value and leaves the other entries |
| AuditEvent.CloneValue | packages/franken-observer/src/audit-event.ts:140-212 | ends on every finite graph, cycles included, with a fresh graph that mirrors it, sharing kept |
| AuditEvent.FillCopy | packages/franken-observer/src/audit-event.ts:140-212 | one object's entries copied after the object itself is recorded |
| AuditEvent.CopyIsExactWithoutPrototypeField | packages/franken-observer/src/audit-event.ts:205-212 | a plain object's copy has all its entries if and only if none is named __proto__ |
| AuditEvent.PrototypeFieldIsLost | packages/franken-observer/src/audit-event.ts:205-212 | a concrete object that loses its entry |
| AuditEvent.FreezeValue | packages/franken-observer/src/audit-event.ts:226-256 | everything reachable is frozen, and nothing frozen before is thawed |
| AuditEvent.CopiesAreClosed | packages/franken-observer/src/audit-event.ts:140-212 | a copy refers to copies only |
| AuditEvent.ImmutableCopy | packages/franken-observer/src/audit-event.ts:258-260 | a fresh, closed, frozen copy of the event as it is now |
| AuditEvent.AuditTrail.Append | packages/franken-observer/src/audit-event.ts:276-278 | the trail grows by a copy disjoint from everything the caller holds |
| AuditEvent.AuditTrail.GetAll | packages/franken-observer/src/audit-event.ts:280-282 | fresh copies of all stored events, in order |
| AuditEvent.CopyOfCopy | packages/franken-observer/src/audit-event.ts:140-282 | a copy of a copy is a copy of the first value, but for the __proto__ entries the first copy had lost |
| AuditEvent.AppendWriteRead | packages/franken-observer/src/audit-event.ts:276-282 | after an append and any sequence of writes to objects that are not the trail's own, the next answer holds a copy of the event as it was when it was appended |
| JsonPointerText.DecodeInvertsEscape | packages/franken-types/src/json-pointer.ts:140-146 | the two replacement passes invert the escaping of section 4 of RFC 6901 on every text |
| JsonPointerText.DecodesToIffEscape | packages/franken-types/src/json-pointer.ts:140-146 | a segment decodes to a text if and only if it is that text's escaping |
| JsonPointerText.SplitJoin | packages/franken-types/src/json-pointer.ts:50-50 | splitting inverts joining |
| JsonPointerText.JoinSplit | packages/franken-types/src/json-pointer.ts:50-50 | joining inverts splitting |
| JsonPointerText.ParsesIffRendering | packages/franken-types/src/json-pointer.ts:34-60 | a pointer parses to a list of segments if and only if it is the list's rendering and the list keeps the limits |
| JsonPointer.ParseJsonPointer | packages/franken-types/src/json-pointer.ts:34-60 | parsing with the failures in the source's order |
| JsonPointer.CountJsonPointerSegments | packages/franken-types/src/json-pointer.ts:130-138 | the early exit does not change the comparison with the limit |
| JsonPointer.JsonMemory.GetJsonPointerValue | packages/franken-types/src/json-pointer.ts:66-87 | the loop refines the recursive reading |
| JsonPointer.JsonMemory.ValidateSetJsonPointerTraversal | packages/franken-types/src/json-pointer.ts:165-190 | the failures found before anything is written |
| JsonPointer.JsonMemory.WriteOwnContainerValue | packages/franken-types/src/json-pointer.ts:263-284 | one slot written, or a failure and nothing |
| JsonPointer.JsonMemory.WriteAlong | packages/franken-types/src/json-pointer.ts:101-128 | after the traversal check only the first write can fail, so a failure leaves all containers alone |
| JsonPointer.JsonMemory.SetJsonPointerValue | packages/franken-types/src/json-pointer.ts:89-128 | the containers after success; after any failure they are unchanged |
| JsonPointer.CheckIsNoStricter | packages/franken-types/src/json-pointer.ts:99-99 | the check refuses nothing the write would accept |
| JsonPointer.PointerGetAfterSet | packages/franken-types/src/json-pointer.ts:66-128 | on a tree, a pointer reads back what was set through it |
| JsonPointerLaws.BuiltChanges | packages/franken-types/src/json-pointer.ts:101-128 | a set changes one slot of one existing container and otherwise only adds containers |
| JsonPointerLaws.BuiltShowsValue | packages/franken-types/src/json-pointer.ts:101-128 | the created containers lead to the value |
| JsonPointerLaws.UnreadSlotIsNoMatter | packages/franken-types/src/json-pointer.ts:66-87 | on any graph a path that does not read the written slot reads as before |
| JsonPointerLaws.WalkIsRead | packages/franken-types/src/json-pointer.ts:101-120 | the place of the write is what reading the path so far reaches |
| JsonPointerPaths.AllowedWrite | packages/franken-types/src/json-pointer.ts:101-190 | a write passes own arrays and plain objects only, never a prototype, and begins in a container that is not frozen, under a valid index |
| JsonPointerPaths.RefusedWrite | packages/franken-types/src/json-pointer.ts:89-128 | every refused write has its reason on the path |
| JsonPointerPaths.IndexSegments | packages/franken-types/src/json-pointer.ts:228-241 | the segments taken for array indices are the decimal texts of the numbers up to the limit |
| JsonPointerLaws.GetAfterSet | packages/franken-types/src/json-pointer.ts:66-128 | on any graph the value is read back unless the path to its slot runs through that slot; then no scalar is |
| JsonPointerLaws.ValueNotReadBack | packages/franken-types/src/json-pointer.ts:66-128 | a container that holds itself, and a path whose value is not read back |
| JsonPointerLaws.TreeDoesNotRevisit | packages/franken-types/src/json-pointer.ts:101-120 | on a tree a path never runs through the slot it ends in |
| JsonPointerLaws.TreeGetAfterSet | packages/franken-types/src/json-pointer.ts:66-128 | on a tree every value is read back |
| JsonPointerLaws.BuiltOffPath | packages/franken-types/src/json-pointer.ts:66-128 | off the written path created containers hold nothing |
| JsonPointerLaws.DivergingPointer | packages/franken-types/src/json-pointer.ts:66-128 | on a tree a pointer that leaves the written path reads as before, except that an index over the limit of a created array is now an error |
| JsonPointerLaws.IndexNowTooLarge | packages/franken-types/src/json-pointer.ts:66-128 | a pointer that read nothing before a set and fails after it |
| SourceSanitizerLaws.LengthGrowsByUnclosed | packages/franken-critique/src/evaluators/source-sanitizer.ts:132-152 | the masked text is longer than the text by exactly one for each unclosed template expression met, nested ones included |
| SourceSanitizerLaws.UnclosedExpressionLengthens | packages/franken-critique/src/evaluators/source-sanitizer.ts:132-152 | a text whose masked form is one character longer |
| SourceSanitizerLaws.PositionsKeptOrBlank | packages/franken-critique/src/evaluators/source-sanitizer.ts:15-157 | with all expressions closed each position holds its character or a space |
| SourceSanitizerLaws.PlainCodeIsKept | packages/franken-critique/src/evaluators/source-sanitizer.ts:62-64 | code without slashes and quotes passes unchanged |
| SourceSanitizerLaws.QuotedLiteralIsErased | packages/franken-critique/src/evaluators/source-sanitizer.ts:86-124 | nothing of a quoted literal survives, up to the closing quote the skipping function finds |
| SourceSanitizerLaws.LineCommentIsErased | packages/franken-critique/src/evaluators/source-sanitizer.ts:66-74 | a line comment becomes spaces, and its newline stays |
| SourceSanitizerLaws.BlockCommentIsErased | packages/franken-critique/src/evaluators/source-sanitizer.ts:76-85 | nothing of a block comment survives but newlines |
| SourceSanitizerLaws.RegexIsErased | packages/franken-critique/src/evaluators/source-sanitizer.ts:38-43 | nothing of a regular expression survives but newlines |
| SourceSanitizerLaws.TemplateTextIsErased | packages/franken-critique/src/evaluators/source-sanitizer.ts:126-155 | nothing of a template's text survives but newlines, up to the backtick or expression that ends it |
| SourceSanitizerLaws.AfterTemplateText | packages/franken-critique/src/evaluators/source-sanitizer.ts:126-155 | what follows: code behind the backtick, or the masked expression and more text |
| SourceSanitizerLaws.CommentEndIsFirst | packages/franken-critique/src/evaluators/source-sanitizer.ts:222-225 | a block comment ends at its first terminator |
| SourceSanitizerLaws.CloseBraceBalances | packages/franken-critique/src/evaluators/source-sanitizer.ts:159-215 | where nothing is skipped the closing brace is the first that leaves more braces closed than opened |
| SourceSanitizerAgreement.CloseBraceAgrees | packages/franken-critique/src/evaluators/source-sanitizer.ts:159-215 | unless a template expression opens in it, an expression ends at the first unmatched brace of its masked text: reader and scanner skip the same comments, strings, templates and regular expressions |
| SourceSanitizerAgreement.NestedTemplateMisleadsReader | packages/franken-critique/src/evaluators/source-sanitizer.ts:192-197 | a nested template for which they do not agree |
| SourceSanitizerLexing.StringEndsAtFirstQuote | packages/franken-critique/src/evaluators/source-sanitizer.ts:324-339 | a literal ends at its first quote that is not escaped |
| SourceSanitizerLexing.RegexEndsAtFirstSlash | packages/franken-critique/src/evaluators/source-sanitizer.ts:290-318 | a regular expression ends with the letters after its first slash that is neither escaped nor in a character class |
| SourceSanitizerLexing.RegexAtStart | packages/franken-critique/src/evaluators/source-sanitizer.ts:227-253 | a slash with nothing before it starts a regular expression |
| SourceSanitizerLexing.RegexAfterWord | packages/franken-critique/src/evaluators/source-sanitizer.ts:240-244 | after a word it does if and only if the word is a keyword that an expression follows |
| SourceSanitizerLexing.RegexAfterPunctuation | packages/franken-critique/src/evaluators/source-sanitizer.ts:231-250 | after another character it does if and only if that is one of the listed punctuators, no second sign, and does not look like a tag |
| SourceSanitizer.PreviousNonWhitespace | packages/franken-critique/src/evaluators/source-sanitizer.ts:255-262 | the last character before a position that is not white space |
| SourceSanitizer.ReadIdentifierStart | packages/franken-critique/src/evaluators/source-sanitizer.ts:264-268 | the start of the identifier around a position |
| SourceSanitizer.IsRegexLiteralStart | packages/franken-critique/src/evaluators/source-sanitizer.ts:227-253 | decides whether a slash starts a regular expression |
| SourceSanitizer.SkipStringLiteral | packages/franken-critique/src/evaluators/source-sanitizer.ts:324-339 | the closing quote, escapes skipped |
| SourceSanitizer.SkipRegexLiteral | packages/franken-critique/src/evaluators/source-sanitizer.ts:290-318 | the last character of the literal, classes, escapes and flags included |
| SourceSanitizer.ReadTemplateExpression | packages/franken-critique/src/evaluators/source-sanitizer.ts:159-215 | returns exactly the slice between the braces |
| SourceSanitizer.StripCommentsAndStringLiterals | packages/franken-critique/src/evaluators/source-sanitizer.ts:15-157 | ends on every input; the masked text, its exact length, and its alignment |
| RecoveryLineage.RecoveryIdNamesTask | packages/franken-planner/src/planner.ts:189-200 | the id given to a recovery task names the task it recovers |
| RecoveryLineage.RecoveryKeepsRoot | packages/franken-planner/src/planner.ts:189-200 | recoveries of recoveries count against the original task |
| RecoveryLineage.RootIsOriginal | packages/franken-planner/src/planner.ts:189-200 | a root is no recovery id, and taking roots twice changes nothing |
| RecoveryLineage.GetRecoveryLineageRoot | packages/franken-planner/src/planner.ts:189-200 | the loop ends at the root |
| PlannerState.RecordedIsKept | packages/franken-planner/src/planner.ts:202-212 | recording keeps one success per task and adds exactly the ids that succeeded |
| PlannerState.MergedIsKept | packages/franken-planner/src/planner.ts:214-224 | merging keeps one result per task and adds exactly the ids reported |
| PlannerState.RecoverAllRaises | packages/franken-planner/src/recovery/recovery-controller.ts:25-38 | recovery raises the attempts of the failing lineages and never past the limit |
| PlannerState.RoundProgresses | packages/franken-planner/src/planner.ts:94-157 | each round that goes on uses up an attempt or a continuation |
| Planner.RecordCompletedTasks | packages/franken-planner/src/planner.ts:202-212 | the loop refines the record |
| Planner.MergeCompletedIntoFailedResult | packages/franken-planner/src/planner.ts:214-224 | the loop refines the merge |
| Planner.RecoverFailures | packages/franken-planner/src/planner.ts:130-153 | failures recovered one after the other, each call on the graph the one before it left and counted by lineage, until one does not recover |
| Planner.ExecutePlan | packages/franken-planner/src/planner.ts:87-158 | where the plan ends, the loop returns what its rounds come to; the log of what strategy and recovery were asked and answered fits: each graph, completed set, attempt and result follows from the answers before it |
| PlannerLog.RecoveredGraphIsNext | packages/franken-planner/src/planner.ts:125-154 | after a repaired failing round the next strategy call gets the graph of the last recovery reply; the first recovery call got the recovery graph or the executed one, each other the graph of the reply before |
| PlannerLog.FailedTaskIsRecovered | packages/franken-planner/src/planner.ts:122-128 | a failing round that lists no failures of its own has its failed task recovered |
| PlannerLog.ContinuationIsNext | packages/franken-planner/src/planner.ts:109-116 | after a completed round the next call gets the first continuation waiting |
| PlannerLog.EveryGraphOnce | packages/franken-planner/src/planner.ts:94-157 | up to any round each graph asked for has been executed once or still waits |
| PlannerLog.CompletedPlanRanEveryGraph | packages/franken-planner/src/planner.ts:94-157 | a plan that completes has executed every graph asked for exactly once |
| PlannerLog.RecoveriesWithinLimit | packages/franken-planner/src/planner.ts:130-142 | no lineage is recovered more often than the limit allows |
| PlannerLog.RecoveryAskedWithinLimit | packages/franken-planner/src/recovery/recovery-controller.ts:17-38 | recovery is asked within the limit of a lineage and not beyond it |
| PlannerReport.CompletedReportIsInOrder | packages/franken-planner/src/planner.ts:109-118 | a completed plan reports its tasks in the order in which they first succeeded |
| PlannerReport.GivenUpReportsLatest | packages/franken-planner/src/planner.ts:139-147 | a plan given up on reports each task with its last result of the last round, or else its last success, in the order in which they came first |
| Planner.RecordHoldsLastSuccess | packages/franken-planner/src/planner.ts:202-212 | the record holds each task's last success |
| Planner.CompletedRunIsOneRecord | packages/franken-planner/src/planner.ts:109-118 | a completed run reports the record of all results of all rounds |
| Planner.CompletedReportsEverySuccess | packages/franken-planner/src/planner.ts:109-118 | a completed plan reports exactly one success for every task that ever succeeded, its last |
| Planner.GivenUpKeepsSuccesses | packages/franken-planner/src/planner.ts:139-147 | a plan given up on reports every earlier success once, together with the last round's results |
| Planner.FailingRoundsAreBounded | packages/franken-planner/src/planner.ts:94-157 | failing rounds number at most the attempts left over all lineages, and one |
| Planner.FullAllowance | packages/franken-planner/src/recovery/recovery-controller.ts:17-28 | the allowance at the start is the limit times the number of lineages |
| Planner.TracedRunEnds | packages/franken-planner/src/planner.ts:94-157 | when every failing round names a failure and failing tasks trace back to given ones, the plan ends, with the result the laws are about |
| Planner.TracedPlanEnds | packages/franken-planner/src/planner.ts:87-158 | the same for a whole plan |
| Planner.AttemptsUsedIffFailures | packages/franken-planner/src/planner.ts:125-157 | a failing round that goes on uses up attempts if and only if it lists a failure |
| Planner.NoFailuresNoEnd | packages/franken-planner/src/planner.ts:125-157 | a strategy that keeps failing without listing failures keeps the loop going for every number of rounds |
| Planner.StuckForEver | packages/franken-planner/src/planner.ts:125-157 | a strategy under which the loop stays in the same state for ever |

## Left out

- SqliteWorkingMemory: the hydrating constructor with its start-up pruning, `get`, `has`, `keys`, `snapshot` and the other readers, and the runtime and persisted deletions right-to-forget and lesson handling use.
- SqliteWorkingMemory.SetAndFlush: nested inside an outer transaction it is not modelled; the callers shown open their own.
- WorkingMemory: one operation sees one clock value, so an entry cannot expire in the middle of it.
- WorkingMemory: the control characters a key must not contain are the C0 and C1 ranges, not the whole Unicode category.
- WorkingMemoryWriteThrough.EditsAreWriteThrough: until the first value involved expires, and with one writer; `SetWritesRow` and `DeleteRemovesRow` say what each call comes to with any clock and any other writers.
- persistKey: modelled by its effect on the tables in runs, not on the cache fields.
- ReviewQueue: a decision's effect on working memory is its effect on the shared rows; the expiry sweep that precedes it is a separate step of a run.
- DeletionGuards: guard hashes of the former unkeyed form, and the order in which candidates are sorted before hashing.
- Text: lower-casing is ASCII, strings are sequences of code points, and the text searched in a composite value is the texts of its parts joined by spaces.
- DeletionGuards.IsWorkingRefused: the category and source-scope guards consulted between key and query are not modelled.
- RightToForget.SqliteBrain.RightToForget: query selectors only; key, category and source-scope selectors, review rows, lessons and their publications, runtime keys and secure-delete bookkeeping are left out; how many runtime keys and review rows a request deletes is given.
- EpisodeText: the details of a row are a JSON value as the program renders it, or a text that is no JSON; JSON written by other programs with other spacing or repeated fields is not modelled.
- Retention: an event's class is an attribute of its row, and creation times are integers; category filters, report fields and the wording of reasons are left out.
- RetentionLiveness.EveryCompactibleEventGoes: is about a fixed clock with no inserts and no entry budget.
- RetentionCheckpoints.EveryAgedCheckpointGoes: the same, and it names no bound on the number of calls.
- ReviewQueue: lesson candidates and their lineage, merge suggestions, confidence and time stamps, listing, and the right-to-forget of review rows, which is the only thing that removes a suppression.
- ReviewQueue.SqliteMemoryReviewQueue.Approve: what working memory shows for the key, and whether the value fits in it, are parameters, and retired lesson keys are left out.
- FailureClustering: normalisation, tokens and stems are given with each event; similarity is computed in reals.
- EpisodicRows.ScoreOversizedEncryptedDetails: the decoder's text pieces and the point of failure are given; the cipher, its header and the encoding of the chunks are not modelled.
- EpisodicRows.CollectRowsToEvents: the table does not change between batches, as inside one read transaction.
- HiveMindStore: name and size validation, corrupt rows, and the write-ahead log; a clean-up that fails is a reply of the migration protocol.
- HiveMindStore.Store.DeletePublishedWhere: the caller's predicate is given as the set of entries it accepts.
- BrainRegistry: the process-local cache of opened brains, databases in memory, explicit publisher ids, workspace brains and path checks.
- AuditEvent: functions, dates, typed arrays and buffers, objects with a conversion method, and the structured clone of other objects; the JSON form of events.
- JsonPointer: property descriptors, sealed but not frozen objects, array lengths and holes; an array's slots are named by the decimal text of their index, which is unique for each index.
- JsonPointer: whether an object is the prototype of its own constructor is an attribute of the object that writes do not change.
- SourceSanitizerAgreement.CloseBraceAgrees: one direction; with a nested template expression the reader and the scanner may or may not agree.
- SourceSanitizer: what the masked text is used for.
- Planner: the sanitised intent, graph building, the approval gate and the reasoning gate before the loop; graphs are opaque, and strategy and recovery are arbitrary functions of the round and their arguments.
- PlannerLog: the error text handed to recovery with each failing task, which decides what recovery answers, is part of what makes recovery an arbitrary function.
- Planner.ExecutePlan: asked for only where the plan ends, since a call that does not end has no result; `TracedRunEnds` gives a condition under which it does.
- Planner.CompletedReportsEverySuccess: like the other laws about reports, for strategies whose failing results name a failure and trace back to finitely many originals.
- Encryption, key files, schema migration, write-ahead logs, file permissions and compaction of the files.
- Conversations, audit storage, health reports, circuit breakers, the web application and the command line: small checks or wiring that would only add easy members.
