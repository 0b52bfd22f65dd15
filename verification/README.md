# Verified model of the Soroban Registry command-line client

The command-line client of the Soroban Registry is mostly an HTTP client, but
several of its files hold state machines and algorithms whose correctness does
not depend on the network: a disk cache, a window of concurrent tasks, a local
state store with history and snapshots, de-duplicating pagination, the sign-in
session, and a handful of smaller transformations.  This project models them in
Dafny and proves what each is for, over every input, every completion order,
every listing order, every clock reading and every run.

| file | component |
|---|---|
| `DiskCache.dfy`, `CacheRuns.dfy` | the response cache on disk: one operation at a time, and whole runs against a cache that never forgets |
| `CachedHttp.dfy` | cache keys of requests and the read-through GET |
| `SlidingWindow.dfy` | the task window shared by all batch commands |
| `BatchRegister.dfy`, `BatchRetry.dfy` | batch registration: de-duplicate, register one by one or concurrently, retry, merge |
| `ChunkDispatch.dfy`, `BatchUpdate.dfy` | chunked dispatch of batch updates and verifications; the batch update around it |
| `StateStore.dfy` | the local contract state: values, history log, snapshots |
| `Pagination.dfy` | exporting a whole list page by page |
| `AuthSession.dfy`, `Scopes.dfy` | the session record and its keyring secrets, write by write; the scopes of a session |
| `Lockfile.dfy` | comparing a lockfile with the registry, and fixing it |
| `CsvPrint.dfy` | CSV output, read back by section 2 of RFC 4180 |
| `SigningMessage.dfy` | the signed deprecation message |
| `RiskScore.dfy` | the risk score and its findings |
| `FilterValues.dfy` | repeatable, comma-separated filter flags |
| `Sequences.dfy`, `Sorting.dfy`, `Text.dfy`, `Wrappers.dfy` | shared definitions |

The cache directory, the state directory, and the session with its keyring are
classes whose methods change them as the source does; each method's contract
ties the new state to a specification function, and the lemmas are about those
functions.  Loops of the source are loops here.  Remote answers, clocks, listing
orders and completion orders are parameters or nondeterministic choices.

`dafny verify dfyconfig.toml` checks the whole project.

## Where the code is narrower than it looks

Each of these is stated as a lemma about the code as it is.

- **Undo from history.** A set entry records the previous value in an optional
  JSON field, and an optional JSON null is read back as absent.  So the log
  restores every earlier state if and only if no null was ever overwritten
  (`StateStore.UndoExactly`); in general it does so up to keys that held null,
  and it always ends at the empty store (`StateStore.UndoPassesThrough`).
- **Logout.** It deletes both secrets before the record, so a process that stops
  exactly between its first and its last write leaves a record without its
  secrets (`AuthSession.LogoutInterrupted`).
- **Older API keys.** A token issued for an API key of an older configuration file
  saves a record whose secret is nowhere in the keyring
  (`AuthSession.LegacyBreaks`).  A run ends with the record having its secrets if
  and only if every such save and every half logout was followed by a login that
  got as far as its record or by a completed logout (`AuthSession.SoundExactly`).
- **Secrets left behind.** A login cut short may leave secrets of a session that
  no record names, and no later command ever removes them
  (`AuthSession.OrphanStays`), not even a logout (`AuthSession.SecretLeft`).  It
  leaves none if and only if it was cut before its first write, or after the
  record was saved and everything the earlier session had was deleted
  (`AuthSession.LoginTidy`).  A logout at the end of a run leaves neither record
  nor secrets if and only if that holds of every login of the run
  (`AuthSession.LogoutAfterRun`).
- **Retry recount.** A conflict counts as registered in the first pass but not in
  the recount after a retry, so the counters then add up to the total if and
  only if no reply was a conflict, neither at first nor to an entry attempted
  again (`BatchRetry.RetryCounters`; `BatchRetry.ConflictDropped` is a case).
- **Pagination.** Items without any id are never recognised as repeated; the
  export is the whole list once if and only if no such item lies where two pages
  overlap (`Pagination.ExportsWholeList`).
- **Cache file names.** Two keys share a file, and are served each other's body,
  exactly when they agree up to replaced characters and the cut at 180
  (`CacheRuns.SameFile`, `CacheRuns.ServedForAnother`).
- **Cache size.** A write evicts before it writes, so the bound holds with the
  last body on top of the limit (`CacheRuns.SizeBound`), and it is reached
  (`CacheRuns.SizeBoundReached`).
- **Cache key.** All orders of the parameters of a request give the same key if
  and only if parameters of the same name read the same in either order
  (`CachedHttp.KeyIgnoresOrder`).  Distinct names do; a name with two values of
  equal length does not (`CachedHttp.RepeatedNameKeepsOrder`).
  Requests to URLs without '?' share a key only if URL and sorted parameters
  agree (`CachedHttp.KeyTellsApart`); a URL that brings its own '?' can share one
  (`CachedHttp.QueryInUrl`).
- **Signed message.** It can be decoded if and only if action, contract id and
  nonce contain no ':' (`SigningMessage.DecodeBuilt`).  It belongs to one payload
  only if and only if no field contains one (`SigningMessage.UniqueMessage`); an
  RFC 3339 timestamp always does (section 5.6), so such a signature is also
  accepted for a payload that reads part of the timestamp as part of the contract
  id (`SigningMessage.TimestampRespelled`).  Among payloads with colons in the
  timestamp only, it is accepted for one (`SigningMessage.SignatureAccepts`).
- **Dependency score.** It is multiplied in 32 bits.  A further dependency lowers
  the score if and only if it is unverified, the product wraps around at it, and
  the score is then below 100 (`RiskScore.DependencyMonotone`); the first such
  case, with nothing else to score, drops from 15 to 4
  (`RiskScore.DependencyDrops`).  `RiskScore.ScoreIntended` says exactly when the
  score is the intended sum, which it is while the product fits in 32 bits.
- **Unreadable cache files.** Listing skips them, so they are never evicted or found
  stale, while a request for one fails until the file is cleared
  (`DiskCache.Cache.GetHttpEntry`).
- **Conditional update.** A contract that cannot be fetched is not skipped by
  `--if` (`BatchUpdate.Prepare`).

## Model

| member | source | states |
|---|---|---|
| SlidingWindow.PossibleOrders | cli/src/batch_register.rs:554-636 | a completion order can happen if and only if its tasks are distinct and the k-th completed one is below min(n, width + k): an independent description of all runs of the window |
| SlidingWindow.EveryState | cli/src/batch_register.rs:554-636 | in every reachable state pending, in-flight and done partition the tasks, at most `width` run, exactly `width` run while any is pending, and pending plus in-flight drops by one per completion |
| SlidingWindow.DrainedOrders | cli/src/batch_register.rs:575-636 | a run never completes more than n tasks, the window is empty exactly when n have completed, and the order is then a permutation of all tasks |
| SlidingWindow.DrainedTasks | cli/src/batch_register.rs:575-636 | a run that empties the window completes every task exactly once |
| SlidingWindow.WidthOne | cli/src/batch_register.rs:505-553 | a window of one completes the tasks in order: the sequential path is the same machine |
| SlidingWindow.SeedTasks | cli/src/batch_register.rs:560-572 | seeding up to `concurrency` tasks from the iterator gives the window's start state |
| SlidingWindow.NextCompletion | cli/src/batch_register.rs:574-636 | joining any running task and refilling keeps the loop in a state of the machine, with the next task number determined by the number of completions |
| SlidingWindow.Finished | cli/src/batch_register.rs:574-645 | when nothing is running any more, every task was started and completed once |
| Sequences.KeepFirstSelects | cli/src/batch_verify.rs:520-529 | de-duplication keeps, in order, exactly the items at positions that are the first of their key |
| BatchRegister.Attempt | cli/src/batch_register.rs:647-695 | what is recorded for an entry: its own id and name, "skipped" exactly for a conflict, "registered" exactly for an accepted request, an error exactly when it failed |
| BatchRegister.Deduplicate | cli/src/batch_register.rs:375-391 | the loop keeps first occurrences by contract id and returns the number dropped |
| BatchRegister.ValidateAll | cli/src/batch_register.rs:395-425 | nothing is reported if and only if every entry has a contract id, a name and a publisher that are not blank and a known network; otherwise exactly the problems of the entries |
| BatchRegister.DedupedIds | cli/src/batch_register.rs:375-391 | no id twice, and every id of the manifest is still there |
| BatchRegister.Record | cli/src/batch_register.rs:524-552 | one answer is appended as a result and exactly one counter goes up, so counters stay equal to counts over the results |
| BatchRegister.RegisterSequential | cli/src/batch_register.rs:505-553 | the sequential path gives the results in manifest order with matching counters |
| BatchRegister.RegisterConcurrent | cli/src/batch_register.rs:554-645 | for any choice of completions the concurrent loop ends, having recorded every entry's result once, in completion order, with matching counters |
| BatchRegister.RegisterAll | cli/src/batch_register.rs:486-645 | either path, for any `--concurrent` value including none and zero, is a full run of a window of that width |
| BatchRegister.ConcurrentMatchesSequential | cli/src/batch_register.rs:505-645 | for every completion order the summary has the sequential path's counters and a permutation of its results, and registered + failed = total |
| BatchRetry.MergeRetried | cli/src/batch_register.rs:195-203 | the in-place overwrite loop computes the merge |
| BatchRetry.MergedIs | cli/src/batch_register.rs:195-203 | each merged result is the last retried one with its id, or the old one if there is none |
| BatchRetry.RegisterAndRetry | cli/src/batch_register.rs:163-216 | first pass, retry of the failed entries only when wanted and needed, merge and recount |
| BatchRetry.RunBatchRegister | cli/src/batch_register.rs:131-236 | the command end to end: the errors of the checks before anything is sent, the dry run, and otherwise a summary with one result for each id of the manifest and counters that account for them; it fails if and only if some result in it is "failed" |
| BatchRetry.KeptResult | cli/src/batch_register.rs:163-216 | a result that did not fail is untouched by the retry |
| BatchRetry.RetriedResult | cli/src/batch_register.rs:163-216 | a failed result is replaced by the second attempt at the same entry |
| BatchRetry.RetryOutcome | cli/src/batch_register.rs:163-216 | for all completion orders of both passes the merged results have the same ids in the same places, each once; results that had not failed stay, the others become the second attempt |
| BatchRetry.AgainIsFailing | cli/src/batch_register.rs:174-186 | whatever the completion order, the second pass attempts exactly the entries whose first reply was a failure, in manifest order |
| BatchRetry.MergedStatus | cli/src/batch_register.rs:163-216 | after the merge a result is "failed" exactly if both attempts at its entry failed, and "skipped" exactly if the attempt that counts met a conflict |
| BatchRetry.RetryCounters | cli/src/batch_register.rs:205-216 | after the recount registered + failed + results of status "skipped" = total, and the two counters alone reach the total if and only if no first reply and no reply to an entry attempted again was a conflict |
| BatchRetry.ConflictDropped | cli/src/batch_register.rs:205-216 | two entries for which they do not: a conflict, and a failure that then succeeds, give 1 registered and 0 failed of 2 |
| ChunkDispatch.ChunksOf | cli/src/batch_update.rs:455-459 | chunks concatenate to the input and hold 1 to 50 items |
| ChunkDispatch.ChunkCount | cli/src/batch_verify.rs:440-441 | there are as few chunks as the limit allows |
| ChunkDispatch.Merge | cli/src/batch_update.rs:492-496 | merging one answer keeps the merged response equal to the totals over all answers so far |
| ChunkDispatch.DispatchChunks | cli/src/batch_update.rs:447-508 | the dispatch loop ends either with every chunk answered once and the totals, or with the first failing answer after only good ones, having started at most three chunks beyond the number answered |
| ChunkDispatch.EndedByError | cli/src/batch_verify.rs:466-474 | the early return on a failing answer leaves a legal run with the chunks sent so far |
| ChunkDispatch.OkExactly | cli/src/batch_update.rs:491-508 | whatever the completion order, a dispatch succeeds if and only if every chunk would be answered well |
| ChunkDispatch.MergedInChunkOrder | cli/src/batch_update.rs:491-508 | merged counters are the sums over all chunks, merged results a permutation of the answers in chunk order |
| ChunkDispatch.SentOnce | cli/src/batch_verify.rs:431-483 | what was sent is a prefix of the items in order, and all of them on success |
| BatchUpdate.DeduplicateIds | cli/src/batch_update.rs:422-427 | the filter with a seen-set keeps first occurrences |
| BatchUpdate.ResolvedOnce | cli/src/batch_update.rs:136-149 | no contract is resolved twice, from manifest and filter together |
| BatchUpdate.Overrides | cli/src/batch_update.rs:156-160 | the collected map holds every manifest id with the fields of its last entry |
| BatchUpdate.BuildItem | cli/src/batch_update.rs:162-183 | an item has the manifest's metadata, overridden field by field by the last entry for that contract |
| BatchUpdate.Prepare | cli/src/batch_update.rs:156-205 | the items are those of the resolved contracts, in order, whose condition is not known to fail, each with the right fields; the rest are skipped |
| BatchUpdate.SentOrSkipped | cli/src/batch_update.rs:185-205 | every resolved contract is sent or skipped, never both, never twice |
| BatchUpdate.ReportLines | cli/src/batch_update.rs:269-291 | one line per answer with its status, one "skipped" line per skipped contract in any order, no others |
| BatchUpdate.PreviewReport | cli/src/batch_update.rs:543-575 | one "preview" line per item and one "skipped" line per skipped contract, with nothing counted as updated, failed or rolled back |
| BatchUpdate.RollBack | cli/src/batch_update.rs:241-258 | one rollback for each applied update that has a version to go back to |
| BatchUpdate.RollbacksUnordered | cli/src/batch_update.rs:241-258 | their number does not depend on the order in which the chunks were answered |
| BatchUpdate.ConditionBack | cli/src/batch_update.rs:431-443 | a condition is read as a field and a value exactly when it is field=value with a non-empty field that has no '=' |
| BatchUpdate.UpdateItems | cli/src/batch_update.rs:235-302 | the counters of the report are the sums over all chunks, rollbacks happen only when wanted and something failed, and there is one line for each item and each skipped contract |
| BatchUpdate.OneResultEach | cli/src/batch_update.rs:491-508 | if the registry answers each item of a chunk once, a successful dispatch has one result for each item |
| BatchUpdate.RunBatchUpdate | cli/src/batch_update.rs:124-309 | end to end, in terms of the options: why nothing is sent; that a contract is sent if and only if the manifest or the filter names it and there is no condition, its field has the condition's value, or it cannot be fetched; that preview and report cover exactly the named contracts, each once; the exit code is 0 exactly when there is a report and nothing in it failed or rollback-on-error was asked for |
| DiskCache.Cache.LoadEntries | cli/src/cache.rs:150-169 | in whatever order the directory is listed, every entry that can be read appears once and nothing else does |
| DiskCache.Cache.DeleteEntryFile | cli/src/cache.rs:171-175 | removes exactly the key's file, readable or not, and says whether there was one |
| DiskCache.Cache.Clear | cli/src/cache.rs:180-253 | with a key, that file goes; otherwise the directory is empty afterwards, except for the levels that are not on disk, which change nothing |
| DiskCache.Cache.EnforceMaxDiskSize | cli/src/cache.rs:761-780 | nothing goes while no limit is set or it is kept; otherwise the rest fits, no file that goes is newer than one that stays, and a newest one that goes would not have fitted as well |
| DiskCache.Cache.EvictInOrder | cli/src/cache.rs:769-778 | the loop stops after the fewest removals, and its running total is then the true size on disk, within the limit |
| DiskCache.Cache.TouchEntry | cli/src/cache.rs:782-789 | counts a hit, up to the largest counter, and writes the entry back |
| DiskCache.Cache.GetHttpEntry | cli/src/cache.rs:721-803 | fails for a file that cannot be read, misses when there is none, deletes it when its time-to-live has passed, and otherwise serves it with one more hit and writes it back |
| DiskCache.Cache.SetHttpEntry | cli/src/cache.rs:737-759 | evicts by age within the limit, then stores the body with its byte length, time and time-to-live |
| DiskCache.Cache.RemoveStale | cli/src/cache.rs:484-494 | exactly the files whose time-to-live has passed at their own clock reading go |
| DiskCache.Cache.Optimize | cli/src/cache.rs:455-512 | the stale files go, then files by age until the rest fits, and the directory stays well formed |
| DiskCache.StepByAge | cli/src/cache.rs:484-512 | the operations of a run remove by age and size in the same way |
| DiskCache.Cache.EvictFromFront | cli/src/cache.rs:497-511 | the second eviction loop removes the same entries, with the same total at its end |
| DiskCache.Cache.EvictOverLimit | cli/src/cache.rs:496-512 | the same of the second phase of `optimize` |
| DiskCache.StepWellFormed | cli/src/cache.rs:102-116 | every operation keeps each file named after the key inside it and its recorded size equal to its body's byte length |
| CacheRuns.AlwaysWellFormed | cli/src/cache.rs:102-116 | ... so in every reachable state, also when a read rewrites the entry of a colliding key |
| CacheRuns.Refines | cli/src/cache.rs:721-808 | after any run, every file holds what a cache that never evicts, expires or clears would hold |
| CacheRuns.LatestComesFrom | cli/src/cache.rs:737-803 | that is the entry of the last write, and its hits are the reads since |
| CacheRuns.HitIsLastWritten | cli/src/cache.rs:721-808 | a hit returns exactly the body of the last set to that file name, younger than its time-to-live |
| CacheRuns.HitIsLastSetOfKey | cli/src/cache.rs:721-808 | ... and if no other key shares the file name, the last body set for the key itself |
| CacheRuns.SameFile | cli/src/cache.rs:102-116 | which keys share a file name, exactly |
| CacheRuns.SharedName | cli/src/cache.rs:102-116 | two request keys that do |
| CacheRuns.SetThenGet | cli/src/cache.rs:721-808 | after a set, a key with the written file name is served the new body until it is stale, and every other key what it was served before, unless its file was evicted |
| CacheRuns.ServedForAnother | cli/src/cache.rs:721-803 | a key is served what was just set for another if and only if they share a file name |
| DiskCache.EvictsLeast | cli/src/cache.rs:771-778 | the survivors are the longest suffix, oldest first, that fits |
| DiskCache.EvictsOldest | cli/src/cache.rs:769-778 | no evicted entry is newer than a survivor |
| CacheRuns.EvictionsAgree | cli/src/cache.rs:496-512 | on one listing the two evictions leave the same files |
| CacheRuns.Survives | cli/src/cache.rs:455-808 | a file only goes if it is cleared, found stale, or evicted while the directory is over the limit |
| CacheRuns.OptimizedFits | cli/src/cache.rs:496-512 | after `optimize` the directory is within the limit |
| CacheRuns.OptimizedFresh | cli/src/cache.rs:480-494 | ... and holds no entry that was stale when looked at |
| CacheRuns.SizeBound | cli/src/cache.rs:737-780 | over whole runs with a fixed limit the directory never exceeds the limit plus the last body written, and not the limit itself after `optimize` |
| CacheRuns.SizeBoundReached | cli/src/cache.rs:753-758 | for every limit and body there is a run that reaches that bound |
| CacheRuns.SetSize | cli/src/cache.rs:753-758 | a set leaves the directory within the limit if and only if the surviving other files leave room for the body; below the limit all of them survive |
| CachedHttp.KeyIgnoresOrder | cli/src/cache.rs:699-715 | for every query: all orders of its parameters have the same cache key if and only if any two parameters of the same name read the same in either order |
| CachedHttp.RepeatedNameKeepsOrder | cli/src/cache.rs:699-715 | distinct names, or one value per name, satisfy that condition; a name with two values of equal length violates it |
| CachedHttp.FrontMatters | cli/src/cache.rs:699-715 | two parameters of one name that do not read the same in either order give two keys when they swap places at the front of any query |
| CachedHttp.RepeatedNameHarmless | cli/src/cache.rs:699-715 | a name with two values for which the order does not matter |
| CachedHttp.KeyTellsApart | cli/src/cache.rs:699-715 | requests to URLs without '?' have the same key if and only if the URLs are the same and the sorted parameters read the same |
| CachedHttp.QueryInUrl | cli/src/cache.rs:699-715 | a URL with a '?' of its own shares the key of a request with that parameter |
| CachedHttp.ReadsAs | cli/src/cache.rs:699-715 | how one parameter, and two in the order of their names, read in a key |
| CachedHttp.CachedGet | cli/src/cached_http.rs:42-92 | an unreadable entry is an error; a fresh one is served without asking the registry; otherwise its answer is returned, and after a success the body is in the cache; with caching off the cache is not touched |
| CachedHttp.ServedAfterReorder | cli/src/cached_http.rs:42-92 | a reordered request is served the body the first one stored, while it is fresh, present and not overwritten |
| CachedHttp.SessionRuns | cli/src/cached_http.rs:42-92 | any run of calls and other cache commands is a run of the cache |
| CachedHttp.ServedFromRegistry | cli/src/cached_http.rs:42-92 | in any such run, a body served from the cache is the one the registry last gave for the same file name, in a success less than its time-to-live ago |
| CachedHttp.ServedToSameRequest | cli/src/cached_http.rs:42-92 | and while no request with another key shares the file name, for the same URL and the same parameters |
| StateStore.StateDir.LoadLocalState | cli/src/commands.rs:2560-2579 | the stored file with empty fields filled in, or a new store |
| StateStore.LoadedBack | cli/src/commands.rs:2560-2586 | loading after saving gives every id of the same file what was saved, read back, if and only if the saved store names a network |
| StateStore.SameSlot | cli/src/commands.rs:2534-2558 | which contracts share a state file, exactly |
| StateStore.StateDir.StateSet | cli/src/commands.rs:2710-2740 | refused on mainnet with nothing changed; otherwise the key has the new value, no other key and no other file changes, the log has one more entry with the key, the value and the one before it, and everything stays consistent |
| StateStore.StateDir.StateSnapshotCreate | cli/src/commands.rs:2821-2846 | one more snapshot, which holds the current values and their number, one more log entry, nothing else changes, and everything stays consistent |
| StateStore.LoadedConsistent | cli/src/commands.rs:2534-2586 | what is loaded is explained by its log and will be saved where it came from, also for ids that sanitise to the same name |
| StateStore.SetConsistent | cli/src/commands.rs:2725-2740 | a set keeps: the log replays to the values, each entry's previous is the replayed value before it, each snapshot is the replay up to its entry |
| StateStore.SnapshotConsistent | cli/src/commands.rs:2827-2846 | a snapshot keeps the same, on mainnet keeps it empty |
| StateStore.UndoPassesThrough | cli/src/commands.rs:2461-2500 | undoing the log backwards passes through every earlier state, up to keys that held null, and ends at the empty store |
| StateStore.UndoExactly | cli/src/commands.rs:2461-2500 | it does so exactly if and only if no set entry overwrites a null |
| StateStore.NullLost | cli/src/commands.rs:2725-2740 | whenever a set overwrites a null, undoing it takes the key away instead |
| StateStore.HistoryViewIs | cli/src/commands.rs:2936-2955 | the history shows, from the newest to the oldest, exactly the entries for the key, or all of them, up to the limit |
| StateStore.NewestIsCurrent | cli/src/commands.rs:2936-2955 | the newest history entry shown for a key holds its current value, and there is none exactly for keys without a value |
| Pagination.ExtendUniqueContracts | cli/src/batch_export.rs:290-303 | the loop appends the items whose id is new or absent and remembers the ids |
| Pagination.FetchAllContracts | cli/src/batch_export.rs:188-239 | the page loop with its error cases computes the recursive fetch |
| Pagination.PageReads | cli/src/batch_export.rs:235-280 | items, flag and next offset are read from the first of their spellings that is given; without a next offset the loop continues 50 items further |
| Pagination.FetchErrors | cli/src/batch_export.rs:212-230 | each reply that ends the export with an error, in terms of the page's fields |
| Pagination.BudgetOnly | cli/src/batch_export.rs:195-239 | the number of requests the model allows does not matter once the loop ends |
| Pagination.NeverEnough | cli/src/batch_export.rs:195-239 | against a server that always claims to have more it never ends |
| Pagination.NoIdTwice | cli/src/batch_export.rs:188-303 | whatever the server does, no two exported items share an id |
| Pagination.FetchesAll | cli/src/batch_export.rs:188-239 | against an honest server the loop ends and returns everything served with repeated ids dropped |
| Pagination.PagesKept | cli/src/batch_export.rs:188-303 | what overlapping pages serve, de-duplicated, is the rest of the list de-duplicated plus the repeated items without an id |
| Pagination.ExportsWholeList | cli/src/batch_export.rs:188-303 | the export is the list with repeated ids dropped, in order, if and only if no item without an id lies in an overlap; its length is off by exactly their number |
| Pagination.ExportsKeyedList | cli/src/batch_export.rs:188-303 | so when all items have an id, overlaps do no harm: the export is the items of the list at exactly the positions, in order, that are the first of their id |
| Pagination.AnonymousTwice | cli/src/batch_export.rs:295-302 | an honest server with overlapping pages whose item without an id is exported twice |
| AuthSession.AuthStore.Login | cli/src/auth.rs:84-143 | fails with nothing written, or performs exactly its writes in order and leaves the session of its input: for Stellar the issued token with its expiry and the signing secret, otherwise the given secret with the asked-for expiry |
| AuthSession.RequestAfterLogin | cli/src/auth.rs:84-267 | a request after a login, while the token is not about to expire, is sent with the issued token, for Stellar, and with the given secret otherwise |
| AuthSession.AuthStore.LoadActiveSession | cli/src/auth.rs:414-450 | the record with its secrets, an error without the access secret, and the older API key without a record |
| AuthSession.AuthStore.Logout | cli/src/auth.rs:175-179 | deletes both secrets, then the record; nothing if there is no session |
| AuthSession.AuthStore.Token | cli/src/auth.rs:192-246 | exactly when it succeeds, for a session or an older API key; it fails with nothing written, or saves the record with the scopes, expiry and times that were asked for or issued, and returns the session's secret then in the keyring or the key |
| AuthSession.AuthStore.AccessTokenForRequests | cli/src/auth.rs:248-267 | exactly when it succeeds; within 300 seconds of expiry a Stellar session is saved with the new expiry and its new token returned, otherwise nothing is written and the secret returned is not expired at one of the two clock readings; without a session the older API key, if any |
| AuthSession.AuthStore.ClearSessionById | cli/src/auth.rs:676-684 | deletes both secrets of one session |
| AuthSession.AuthStore.StoreSecret | cli/src/auth.rs:686-692 | one keyring write |
| AuthSession.AuthStore.SaveSession | cli/src/auth.rs:653-663 | one record write |
| AuthSession.LoginSafe | cli/src/auth.rs:103-143 | after any number of a login's writes the record on disk has its secrets |
| AuthSession.LoginCompletes | cli/src/auth.rs:103-143 | a completed login leaves the new session whole and no secret of the earlier one |
| AuthSession.RenewSafe | cli/src/auth.rs:328-337 | after any number of a renewal's writes the record on disk has its secrets, and a changed record is never there without its new token |
| AuthSession.LogoutCompletes | cli/src/auth.rs:665-684 | a completed logout leaves neither the record nor any of its secrets |
| AuthSession.LogoutInterrupted | cli/src/auth.rs:665-674 | a logout cut short leaves a record with its secrets if and only if it was cut before its first or after its last write |
| AuthSession.SoundExactly | cli/src/auth.rs:84-338 | in every run of commands, each possibly cut short after any write: the record on disk ends up with its secrets if and only if every half logout and every record saved for an older API key was followed by a login that saved its record or by a completed logout |
| AuthSession.SoundStep | cli/src/auth.rs:84-338 | what each command, however it is cut, does to that from any state |
| AuthSession.AlwaysSound | cli/src/auth.rs:84-338 | in particular in every run without such events |
| AuthSession.LegacyBreaks | cli/src/auth.rs:229-242 | in every reachable state, issuing a token for an older API key leaves a record without its secret |
| AuthSession.NeverLegacy | cli/src/auth.rs:430-447 | no run ever stores a secret under the id of older API keys |
| AuthSession.Recovers | cli/src/auth.rs:103-143 | after the next completed login or logout a record on disk has its secrets again |
| AuthSession.LoginTidy | cli/src/auth.rs:103-143 | a login cut after any number of writes leaves no foreign secret behind if and only if it wrote nothing, or saved the record and deleted all that the earlier session had |
| AuthSession.LoginTidyWhenSound | cli/src/auth.rs:103-143 | from a sound storage: uncut, complete, or short only of deleting a refresh secret that does not exist |
| AuthSession.OrphanStays | cli/src/auth.rs:84-338 | a secret left behind stays, unchanged, through every later command, complete or cut short |
| AuthSession.TidyExactly | cli/src/auth.rs:84-338 | in every run, with any cuts, the keyring holds secrets of the current session only if and only if every login of the run left nothing behind |
| AuthSession.LogoutEmpties | cli/src/auth.rs:665-684 | a completed logout leaves an empty keyring if and only if it found no foreign secret |
| AuthSession.LogoutAfterRun | cli/src/auth.rs:84-338 | a logout at the end of any run leaves neither record nor secrets if and only if every login of the run left nothing behind |
| AuthSession.SecretLeft | cli/src/auth.rs:121-124 | the first sign-in cut before its record is saved leaves the account's secret, and a logout does not remove it |
| AuthSession.AlwaysTidy | cli/src/auth.rs:103-143 | in particular, while commands complete, the keyring holds secrets of the current session only, and its own unless an older API key was used |
| Scopes.NormalizeScopes | cli/src/auth.rs:557-576 | the loop computes the normalised scopes |
| Scopes.CanonicalIs | cli/src/auth.rs:562-582 | a given text stands for a scope exactly if it is that scope, in any case, with nothing but whitespace around it |
| Scopes.NormalizedShape | cli/src/auth.rs:557-582 | at least one scope, each canonical and once; exactly those given, and "read" only if none was |
| Scopes.NormalizedTwice | cli/src/auth.rs:557-582 | normalising again changes nothing |
| Lockfile.DiffEntries | cli/src/contract_audit.rs:245-297 | the six comparisons in order report exactly the fields that differ, each with its two values |
| Lockfile.DiffEmpty | cli/src/contract_audit.rs:245-297 | nothing is reported if and only if the six compared fields agree (the contract id is not one of them) |
| Lockfile.DiffComplete | cli/src/contract_audit.rs:245-297 | applying the reported changes to the local entry gives the remote one, up to absent versus empty |
| Lockfile.SortedIds | cli/src/contract_audit.rs:32 | the sorted map is walked in ascending order, every id once |
| Lockfile.DetectDrift | cli/src/contract_audit.rs:206-242 | a contract is listed as removed if and only if it cannot be fetched, and as changed if and only if it was fetched and one of the six fields differs, with exactly those fields; drift is reported when there are any |
| Lockfile.DriftMeans | cli/src/contract_audit.rs:206-242 | removed is empty exactly when everything could be fetched, changed exactly when everything fetched agrees in the six fields |
| Lockfile.ApplyFix | cli/src/contract_audit.rs:302-326 | every entry becomes the registry's, or stays when it cannot be fetched |
| Lockfile.FixSettles | cli/src/contract_audit.rs:206-326 | after a fix the ids are the same, an audit finds no changes and the same removed contracts, and a second fix changes no entry |
| CsvPrint.PrintCsv | cli/src/contract_list.rs:208-216 | a reader of the printed text finds the header and, under it, the cells of each contract in their columns |
| CsvPrint.QuotedWhenNeeded | cli/src/contract_list.rs:218-225 | a cell is quoted only if it contains a comma, a quote or a line end |
| CsvPrint.FieldBack | cli/src/contract_list.rs:218-225 | a printed cell is read back, whatever characters it holds |
| CsvPrint.QuotedBack | cli/src/contract_list.rs:218-225 | ... in particular between quotes |
| CsvPrint.DocumentBack | cli/src/contract_list.rs:208-225 | printed records are read back exactly by a reader of section 2 of RFC 4180 that accepts LF line ends |
| CsvPrint.PrintedBack | cli/src/contract_list.rs:150-225 | the specified listing reads back as the header and one record per contract, each cell under its header |
| SigningMessage.DecodeBuilt | cli/src/contract_deprecate.rs:383-388 | splitting at the first two and the last colon recovers the payload if and only if action, contract id and nonce have no colon |
| SigningMessage.MessageLayout | cli/src/contract_deprecate.rs:383-388 | where action, contract id, timestamp and nonce stand in a message |
| SigningMessage.UniqueMessage | cli/src/contract_deprecate.rs:383-388 | for every payload: no other payload has its message if and only if none of its fields contains a colon |
| SigningMessage.Respelled | cli/src/contract_deprecate.rs:383-388 | for every payload with a colon in some field, another payload with the same message |
| SigningMessage.MessagesDiffer | cli/src/contract_deprecate.rs:383-388 | payloads with colons in the timestamp only have distinct messages from each other |
| SigningMessage.ColonAmbiguous | cli/src/contract_deprecate.rs:383-388 | the part of any contract id after a colon can be read as the start of the timestamp |
| SigningMessage.SignatureAccepts | cli/src/contract_deprecate.rs:391-413 | a signature is accepted for exactly the payloads with the signed message, whatever they contain |
| SigningMessage.SignatureBindsPayload | cli/src/contract_deprecate.rs:391-413 | it is accepted for its own payload, and for no other one at all if and only if no field of the payload contains a colon |
| SigningMessage.TimestampRespelled | cli/src/contract_deprecate.rs:391-413 | for every payload with a colon in its timestamp, another one that its signature is accepted for |
| SigningMessage.SignatureErrors | cli/src/contract_deprecate.rs:398-413 | what is refused before anything is verified: text that is no encoding, and signatures that are not 64 bytes long |
| RiskScore.ScoreFacts | cli/src/contract_risk.rs:270-357 | verification, maintenance, health and age add what their findings stand for |
| RiskScore.ScoreAudit | cli/src/contract_risk.rs:361-387 | likewise the audit |
| RiskScore.ScoreScan | cli/src/contract_risk.rs:389-436 | the loop with saturating adds and once-only flags computes the closed form and reports every finding |
| RiskScore.ReportedScan | cli/src/contract_risk.rs:389-436 | the reported vulnerabilities account for the scan's score |
| RiskScore.AnyPrivileged | cli/src/contract_risk.rs:455-467 | whether some named function contains one of the privileged keywords, in any case |
| RiskScore.KeywordInside | cli/src/contract_risk.rs:439-463 | a name with a keyword in it, however written, is privileged |
| RiskScore.PrivilegedIs | cli/src/contract_risk.rs:439-463 | exactly the names whose lower case contains a keyword are privileged |
| RiskScore.WeighTable | cli/src/contract_risk.rs:270-495 | the points of each finding and the limits of the levels |
| RiskScore.ScoreDetail | cli/src/contract_risk.rs:359-495 | the whole detail section, also when it is missing, and its findings account for its score |
| RiskScore.CountUnverified | cli/src/contract_risk.rs:498-502 | the number of unverified dependencies |
| RiskScore.ScoreDependencies | cli/src/contract_risk.rs:497-530 | for any number of dependencies the score the machine computes, reported exactly when there are unverified ones |
| RiskScore.WrapMatters | cli/src/contract_risk.rs:502 | that is min(15, 5n) exactly when n is below 3 or the product does not wrap around to less than 15 |
| RiskScore.ScoreIntended | cli/src/contract_risk.rs:260-546 | the score is the intended sum if and only if the dependency score is, or the parts reach 100 anyway |
| RiskScore.BuildReport | cli/src/contract_risk.rs:260-546 | each finding is in the report if and only if the fact that calls for it holds; the score is min(100, sum of its parts), and the findings account for the whole of it |
| RiskScore.ScoreUnordered | cli/src/contract_risk.rs:389-532 | the score of a report does not depend on the order of scan findings and of dependencies |
| RiskScore.ScoreMonotone | cli/src/contract_risk.rs:389-436 | a further scan finding never lowers the score of a report |
| RiskScore.DependencyMonotone | cli/src/contract_risk.rs:497-532 | a further dependency does not lower the score of a report if and only if it is verified, the 32-bit product does not wrap around at it, or the score is 100 all the same; a verified one does not change it |
| RiskScore.DependencyDrops | cli/src/contract_risk.rs:497-532 | the first input for which it does: 858993459 unverified dependencies score 15 and one more scores 4 |
| RiskScore.IntendedMonotone | cli/src/contract_risk.rs:497-532 | without the wrap-around it never would |
| RiskScore.LabelRoundTrip | cli/src/contract_risk.rs:35-60 | a level's label is parsed back to it, in either case |
| RiskScore.ThresholdByScore | cli/src/contract_risk.rs:141-157 | the exit check through the printed label is the comparison of the score with the threshold's lowest score |
| FilterValues.NormalizeFilterValues | cli/src/commands.rs:137-150 | the nested loops compute the de-duplicated parts |
| FilterValues.CommaOrRepeat | cli/src/commands.rs:134-150 | repeating a flag and joining its values with commas give the same list |
| FilterValues.NormalizedShape | cli/src/commands.rs:134-150 | no blanks, no surrounding whitespace, no commas, no duplicates, and the values are the parts at their first places |
| FilterValues.NormalizedAre | cli/src/commands.rs:134-150 | exactly the values that are written in some flag, between commas and with nothing but whitespace around them |
| FilterValues.OrderKept | cli/src/commands.rs:134-150 | values that need no cleaning stay as they are and in their order, given one by one or joined with commas |
| FilterValues.NormalizedTwice | cli/src/commands.rs:134-150 | normalising again changes nothing |

## Left out

- HTTP requests, retries and JSON decoding: the registry's answers are parameters; saving and loading a file is exact, except that an optional JSON null is read back as absent.
- Terminal output, colours, tables, prompts and progress percentages.
- Cryptography and address encoding: a signature scheme is a parameter, and the lemmas about signatures say what they assume of it.
- Cache: a file that becomes unreadable during a run counts as cleared; other kinds of file errors are not modelled.
- Cache: a missing directory (treated as an empty one), the compressed extension (never written), printed counts of `optimize`, and the `status`, `export` and `configure` commands; overflow of byte sums.
- Overlapping processes: one process at a time works on the cache, the state files and the session.
- BatchRegister.RegisterAll: a panicking task is not modelled.
- BatchRetry.RunBatchRegister: starts from the manifest's entries with network and publisher filled in; parsing the manifest comes before it.
- BatchUpdate.RunBatchUpdate: loading the manifest and looking up the filtered contracts are parameters, with their failures; the replies to rollback requests are ignored as in the source, and the report's `updated` count keeps its value from before them.
- Batch verification's level assignment, report and schedules: each is settled by reading one loop.
- StateStore.StateDir.StateSet: the remote write comes before it and only its outcome is a parameter; parsing of a value and reading the remote state are left out.
- Pagination.FetchAllContracts: the source has no limit on requests and would go on for as long as a server sends new pages; the model has a budget of requests, which does not matter once the loop ends, and the theorems about honest servers hold for every budget above the length of the list.
- AuthSession.AuthStore.Token: reads the clock once where the source reads it for each field it sets.
- AuthSession.AuthStore.ClearSessionById: failures of the keyring when deleting are ignored by the source and not modelled; failures of other writes are covered as commands cut short.
- Parsing of the sign-in command's expiry text, which is a number of seconds here.
- RiskScore.AnyPrivileged: of lower-casing, only what can bear on the ASCII keywords is modelled.
- RiskScore.BuildReport: titles, descriptions, remediations and recommendations are left out, and the 32-bit product wraps around as in an optimised build, where an unoptimised one would stop.
- CsvPrint.PrintCsv: formatting of the update time is left out.
- Lockfile initialisation and the conversion of a registry answer to a lockfile entry.
- Network filters: they are filter values parsed and de-duplicated once more.
- Contract ids and file names are wrapped in datatypes, and status words, field names and finding categories are datatypes instead of strings.
- Dependency trees, configuration precedence, statistics in floating point, and the commands whose logic lives in other crates.
