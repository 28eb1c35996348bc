# Cache maintenance of AuraCall, in Dafny

AuraCall keeps one cache directory per provider and identity: a `cache.sqlite` with five tables, files for
contexts, manifests and blobs, and a `cache-index.json`. Its maintenance commands (`cache clear`, `cache cleanup`,
`cache repair`, `cache doctor`, `cache compact`) delete from all of these, wrap themselves in a lock file, and
repeat statements when SQLite is busy; none of them runs in a transaction. This project models those commands and
proves what they keep, what they remove, and what is left when they are cut short. Three smaller parts of the
repository are here too: the glob matcher of `delete`, the merge that enriches the conversation list, and two
scripts (the git option scanners and the ChatGPT acceptance runner).

`dafny verify dfyconfig.toml` checks everything.

| file | about |
|---|---|
| `Tables.dfy`, `Text.dfy` | the tables and their orphans; facts about sequences; the string operations |
| `Repair.dfy` | the prune actions as functions, and what any list of them leaves behind |
| `SqlCutoff.dfy`, `SqlWhere.dfy` | ISO text as SQLite compares it; the generated WHERE clause |
| `Clear.dfy` | the statements of a clear: integrity, interruption and retry, accounting |
| `Database.dfy` | the class with the tables; the commands as methods under a schedule of busy and failing statements |
| `Directory.dfy` | the directory tree, its primitives, and the two recursive walks |
| `Cleanup.dfy` | the file half of clear and cleanup; garbage collection; the pruned index |
| `Parity.dfy` | parity keys, and the rebuild of the index from the tree |
| `RepairRun.dfy` | `cache repair` over its contexts, with backups |
| `Lock.dfy` | the lock file as a step relation over any number of processes |
| `Glob.dfy`, `Enrichment.dfy`, `GitPolicy.dfy`, `Acceptance.dfy` | the smaller parts |

## What comes out

- **Crash confluence.** Stop a clear after any statement once the entries are deleted, retry it any number of
  times, then repair twice: the five tables end as they do after an uninterrupted clear and the same two repairs.
  On the way no row goes that a remaining entry owns.
- **Garbage collection.** After an applied cleanup whose clear was whole and which could read the references, the
  links, bindings and assets that remain are exactly those reachable from the remaining entries, the blob files
  they name are there, and every remaining blob file older than the cutoff is named by one of them. Whatever
  fails, the rows and the blob files of the remaining entries stay. (The files are those that storage paths in
  normal form name.)
- **Repair order.** In the order that `all` lists, one pass leaves exactly the stranded assets, a second removes
  them, a third is idle. A list of prune actions repairs every store if and only if it prunes links, artifacts and
  bindings, and assets somewhere after bindings.
- **Locking.** Mutual exclusion and serial equivalence hold in every run in which no lock file grows stale, with
  any number of crashes; with recovery in one step it is enough that no live holder overstays. As the code is,
  with `stat` and `unlink` apart, two waiters that find the same dead lock can both get in: a run is exhibited.
  The lock is given back, too: in a run without stale files an opener gets in exactly when the latest one has
  finished, and no waiter fails before a minute has passed since it began.
- **Busy retry.** Every attempt but the last met a busy statement; the call fails exactly when its last statement
  failed for good, or was the eighth that was busy.

Some expectations hold only under a condition, which is then proved to be exact:

- The text comparison `updated_at < ?` is chronological if and only if the cutoff's year is at most 9999: a later
  year prints with a sign and sorts first.
- An index entry dated at or before 1970 counts as undated, so it stays although it is older than the cutoff.
- A rebuilt index and a database agree in parity if and only if every row and every item that has a kind and an id
  has one of the same kind and trimmed id on the other side.
- The key of a rebuilt index entry is the same by its id, by its path and by its SQL row if and only if the id has
  no white space at its ends and, for project instructions, no dot: the explicit id is trimmed, the one from the
  path is not, and the pattern for instructions excludes dots.
- The glob `*` selects every title that holds no line terminator, and no other.
- A clear that completes after a busy retry is the whole clear if and only if the first attempt that deleted
  anything left no link, binding or pair binding of its entries behind: the deletes that did not run must have had
  nothing to delete. A stop right after the entries went leaves everything.
- A clear drops pairs with an empty dataset or entity id, and strands exactly the bindings of those pairs.
- The working directory of a git command is, under every path resolution, the fold over the directories its `-C`
  options name if and only if no other option's separate value starts with `-C`. Before an empty subcommand there
  is one more case: the first such value is `-C` itself, and only `-C -C` follows it. (A flag that starts with
  `-C` names a directory.)
- A remote project or conversation that a fresh full acceptance run has created gets a delete if and only if the
  step that reads its id back succeeds: before that step the summary does not know it. Which ones those are is
  stated by the outcomes of the steps alone, and a run that loses its project is exhibited.

## Assumptions

- `(dataset, entity_id)` is the primary key of `cache_entries` and `asset_id` that of `file_assets`
  (`src/browser/llmService/cache/store.ts:1262-1336`). Uniqueness of entry keys is a hypothesis wherever it is
  used, not part of the data type; asset ids are strings, never null.
- Each SQL statement takes effect entirely or not at all. Which ones are busy or fail, which file operations fail,
  what the clock says and what the provider answers are parameters.
- Directory listings come in any order. A lock holder that crashes leaves its file behind.

## Model

| member | source | states |
|---|---|---|
| RepairActions.RunActionsOutcome | bin/auracall.ts:7324-7406 | the tables after any list of prune actions, in any order and with any repetition, in closed form |
| RepairActions.OnePassResidue | bin/auracall.ts:7455-7464 | after one pass in the listed order no orphan link, binding or artifact is left, and the orphan assets are exactly those that only orphan bindings referenced |
| RepairActions.TwoPassesClean | bin/auracall.ts:7455-7464 | a second pass removes exactly those, and leaves no orphan of any kind |
| RepairActions.ThirdPassIsIdle | bin/auracall.ts:7455-7464 | a third pass changes nothing |
| RepairActions.CleanStoreIsFixed | bin/auracall.ts:7693-7954 | no list of prune actions changes a store without orphans |
| RepairActions.CleansExactlyWhen | bin/auracall.ts:7440-7488 | a list of prune actions repairs every store if and only if it prunes links, artifacts and bindings, and assets somewhere after bindings |
| RepairActions.BindingsFirstNeedsOnePass | bin/auracall.ts:7455-7464 | bindings before assets needs one pass; the listed order does not do with one, but with two |
| CacheDatabase.Database.PruneAttempt | bin/auracall.ts:7693-7954 | one run of a prune: the orphans are counted, and removed only on apply; a statement that throws changes nothing |
| CacheDatabase.Database.RepairPrune | bin/auracall.ts:7225-7249 | with busy retry, a prune either has its whole effect or none, and reports the number of orphans it found; it fails if and only if its last statement failed, or was the eighth that was busy |
| CacheDatabase.Database.BearableCompletes | bin/auracall.ts:7225-7249 | a retry completes when nothing fails and at most seven statements are busy |
| CacheDatabase.Database.FewAreBearable | bin/auracall.ts:7225-7249 | as in a schedule whose busy statements are fewer than eight and come to an end |
| CacheDatabase.Database.RepairPruneAll | bin/auracall.ts:7324-7406 | one result per action, none for one that failed; the tables are what the actions that succeeded make of them, in order |
| Timestamps.FieldsOrderIsChronological | bin/auracall.ts:8631-8632 | the printed fields of two instants are ordered as their milliseconds are |
| Timestamps.IsoTextOrder | bin/auracall.ts:8631-8632 | the ISO texts of two four-digit years are ordered as their fields are |
| Timestamps.CutoffTextIsChronological | bin/auracall.ts:8631-8636 | text comparison with the cutoff agrees with the clock for every stored row if and only if the cutoff's year is at most 9999 |
| Timestamps.EveryInstantIsPrinted | bin/auracall.ts:8433-8449 | every number of milliseconds is the instant of a timestamp, and those of a date have a year that six digits can print |
| Timestamps.EpochIsZero | bin/auracall.ts:8433-8441 | the first day of 1970 counts from zero, in milliseconds |
| Timestamps.KnownInstant | bin/auracall.ts:8433-8441 | 1 March 2000 is where it should be |
| Timestamps.TextLayout | bin/auracall.ts:8631-8632 | the layout of the ISO text: the fields in fixed widths, with their marks |
| SqlWhere.BuildSqlWhereClause | bin/auracall.ts:8718-8736 | the text, tokenised, parsed with AND before OR and run with its parameters from left to right, selects exactly the rows asked for |
| SqlWhere.DatasetNames | bin/auracall.ts:8703-8716 | which rows each dataset name selects, by the names in the column |
| SqlWhere.SelectionIsChronological | bin/auracall.ts:8703-8736 | a clear of a dataset selects exactly the rows of that dataset that are earlier in milliseconds |
| ClearRows.ClearKeepsLinkOwners | bin/auracall.ts:8669-8687 | a clear of any dataset and cutoff orphans no source link |
| ClearRows.ClearKeepsBindingOwners | bin/auracall.ts:8669-8687 | nor a file binding, if the keys of bindings have no empty half |
| ClearRows.ClearStrandsDroppedPairs | bin/auracall.ts:8645-8687 | with unique keys it orphans exactly the bindings of matched entries with an empty dataset or entity id |
| ClearRows.ClearStrandsArtifacts | bin/auracall.ts:8669-8687 | the new orphans among artifact bindings are exactly the rows of the matched conversations |
| ClearRows.WholePlanClears | bin/auracall.ts:8669-8687 | the deletes of an attempt, one by one, add up to the uninterrupted clear |
| ClearRows.FirstAttempt | bin/auracall.ts:8669-8687 | wherever the first attempt stops after its first delete, only rows that no remaining entry owns have gone |
| ClearRows.LaterAttempts | bin/auracall.ts:7225-7249 | nor do later attempts, each with candidates of its own, remove anything else |
| ClearRows.BetweenRepairsAlike | bin/auracall.ts:7693-7954 | two repair passes take all such stores to the same one |
| ClearRows.CrashConfluence | bin/auracall.ts:8627-8692 | an interrupted and retried clear removes no row that a remaining entry owns and, repaired twice, ends where the uninterrupted clear ends when repaired twice, unless nothing was written |
| ClearRows.RetryExactlyWhen | bin/auracall.ts:7225-7249 | a busy error after any delete, and a retry that completes: it only drops orphan assets, and the result is the whole clear if and only if the interrupted attempt had left nothing of its entries behind |
| ClearRows.CompletedExactlyWhen | bin/auracall.ts:7225-7249 | the same for any number of retries, with the first attempt that had an effect |
| ClearRows.NothingLeftExactlyWhen | bin/auracall.ts:8669-8687 | nothing is left behind after the first n deletes if and only if the others had nothing to delete in the tables of before |
| ClearRows.StopIsHarmlessExactlyWhen | bin/auracall.ts:7225-7249 | so that is exactly when a busy error after n deletes and a retry that completes do the whole clear |
| ClearRows.RetryLeavesOrphans | bin/auracall.ts:7225-7249 | in a store without orphans a busy error right after the entries went costs everything: the retry completes, and all their links and bindings are left as orphans |
| ClearRows.BindingAccounting | bin/auracall.ts:8794-8820 | bindings deleted are at most those announced, and as many when entry keys are unique |
| ClearRows.AssetAccounting | bin/auracall.ts:8658-8687 | assets deleted are the orphans announced plus those whose references all went in this clear |
| CacheDatabase.Database.Preview | bin/auracall.ts:8634-8667 | reads every candidate once and counts what hangs on it; changes no table |
| CacheDatabase.Database.ClearAttempt | bin/auracall.ts:8627-8691 | one run of the callback: a prefix of the plan has taken effect, the whole of it when it completes, with the counts that belong to it |
| CacheDatabase.AttemptAccounting | bin/auracall.ts:8634-8687 | preview against apply, number by number, for one uninterrupted attempt; what is reported as deleted is the number of rows that went |
| CacheDatabase.Database.ClearSqlRows | bin/auracall.ts:8604-8701 | at most eight attempts, another one after each busy statement; it fails if and only if the last statement failed or was the eighth that was busy; whatever fails, no row goes that a remaining entry owns, and two repairs lead where they lead after the whole clear; when it completes, it is the whole clear exactly when the first attempt with an effect left nothing behind; if only attempts without effect came before, the preview is right and the counts are those of the rows that went |
| CacheDatabase.Database.ReadReferences | bin/auracall.ts:8951-8975 | the blob paths of the asset rows as the cleanup spells them; nothing exactly when the last statement failed, or was the eighth that was busy |
| CacheDatabase.LikeIsNotBlank | bin/auracall.ts:8957-8970 | a path that the query selects is never empty after trimming |
| DirectoryTree.FileSystem.WalkEmpty | bin/auracall.ts:9025-9051 | the walk reports whether a file lies beneath, and removes exactly the directories with nothing but directories beneath them |
| DirectoryTree.FileSystem.PruneEmptyDirs | bin/auracall.ts:9024-9053 | the tree without its hollow directories below the root |
| DirectoryTree.PrunedKeeps | bin/auracall.ts:9024-9053 | every file and the root stay; in a tree of files and directories the others go exactly when no file lies beneath |
| DirectoryTree.PrunedIsFixed | bin/auracall.ts:9024-9053 | a second walk changes nothing |
| DirectoryTree.FileSystem.CollectOldFiles | bin/auracall.ts:8993-9022 | lists every file beneath that is older than the cutoff, once |
| CacheCleanup.CacheDirectory.CollectTargets | bin/auracall.ts:8513-8602 | lists exactly the files and folders of the dataset that are dated before the cutoff, each once |
| CacheCleanup.ClearedExactlyWhen | bin/auracall.ts:8513-8602 | a path goes if and only if it has one of the names of the dataset and is older than the cutoff, or belongs to a folder with such a manifest |
| CacheCleanup.OnlyOldGoes | bin/auracall.ts:8519-8534 | whatever goes is older than the cutoff itself or lies in a folder whose manifest is |
| CacheCleanup.OnlyItsOwnGoes | bin/auracall.ts:8536-8600 | and is part of the dataset, by the names of its files and folders |
| CacheCleanup.CacheDirectory.RemoveTargets | bin/auracall.ts:8468-8482 | removes exactly what they cover, and counts as errors the directories that were to go as files, which stay |
| CacheCleanup.TargetsSpare | bin/auracall.ts:8513-8602 | no target covers anything in `blobs` or `backups`, or the database file |
| CacheCleanup.CacheDirectory.ClearContext | bin/auracall.ts:8451-8508 | files and rows of one clear, whatever fails in its SQL half, with the counts of its report; what goes is written out by name and date; without apply nothing changes |
| CacheCleanup.CacheDirectory.PruneIndexEntries | bin/auracall.ts:8854-8904 | kept and pruned entries add up; the file is rewritten only on apply and when something was pruned; a null document or entry throws |
| CacheCleanup.KeptIsFiltered | bin/auracall.ts:8869-8894 | the kept entries are an order-preserving subsequence with every occurrence of an entry that passes, and pruning again keeps them |
| CacheCleanup.KeptBeforeCutoff | bin/auracall.ts:8884-8891 | an existing entry dated before the cutoff is kept if and only if its date is not after 1970 |
| CacheCleanup.KeptExactlyWhen | bin/auracall.ts:8869-8894 | an entry stays if and only if its path exists and it has no date, one not after 1970, or one not before the cutoff |
| CacheCleanup.CacheDirectory.PruneOldBackups | bin/auracall.ts:8906-8932 | removes exactly the folders in `backups` dated before the cutoff, and counts them |
| CacheCleanup.CacheDirectory.PruneDetachedBlobs | bin/auracall.ts:8934-8991 | removes exactly the old blob files that no asset row names, then the empty directories; nothing if the references cannot be read |
| CacheCleanup.BlobFilesKept | bin/auracall.ts:8977-8990 | a blob file stays if and only if it is young or referenced, and nothing outside `blobs` goes |
| CacheCleanup.PlainReferenceProtects | bin/auracall.ts:8951-8981 | a storage path written the plain way protects the very file that it names |
| CacheCleanup.SlashesProtect | bin/auracall.ts:8964-8975 | one written with backslashes protects the path with slashes |
| CacheCleanup.CacheDirectory.RunCleanup | bin/auracall.ts:8333-8353 | what goes is written out by name and date: clear targets, old backups, old unreferenced blobs; whatever fails, no row goes that a remaining entry owns, and no young or referenced blob; from a sound store, if the clear was whole and the references were read, it is garbage collection (as in CleanupCollects); if the index survives, its entries are the old ones that pass, and none of them dangles; the three numbers of the report, with and without apply |
| CacheCleanup.CleanupTakes | bin/auracall.ts:8333-8353 | the steps of an applied cleanup, one after the other, take away exactly that |
| CacheCleanup.SweepLeavesStanding | bin/auracall.ts:8347-8350 | the later steps leave every kept index entry standing, except paths in `backups` and `blobs` |
| CacheCleanup.CollectionIsExact | bin/auracall.ts:8604-8701 | the links, bindings and assets left by a clear are exactly those reachable from the entries it leaves |
| CacheCleanup.CleanupCollects | bin/auracall.ts:8333-8353 | garbage collection down to the files: what is reachable stays, and every row and old blob file that stays is reachable |
| CacheCleanup.RowsAndBlobs | bin/auracall.ts:8333-8353 | whenever a clear was safe for the rows and the sweep for the blobs, the blob files of live assets stay; when the clear was whole and the sweep complete, it is garbage collection |
| CacheParity.NamesReadBack | bin/auracall.ts:6994-7011 | every kind and dataset name is recognised again after trimming |
| CacheParity.KeysAreInjective | bin/auracall.ts:7010-7040 | no two (kind, id) pairs share a key |
| CacheParity.RebuiltKeys | bin/auracall.ts:6994-7065 | the keys of a rebuilt entry by its explicit id, by its path alone, and of its SQL row |
| CacheParity.KeysAgreeExactlyWhen | bin/auracall.ts:6994-7065 | the three agree if and only if the id is trimmed and, for project instructions, free of dots |
| CacheParity.ListingKeys | bin/auracall.ts:6994-7022 | the two listings have one key each, whatever their row |
| CacheParity.CountMissing | bin/auracall.ts:7067-7074 | the number of keys of one side that the other lacks, and zero if a side is absent |
| CacheParity.NothingMissingExactlyWhen | bin/auracall.ts:7067-7074 | both counts are zero if and only if the key sets are equal |
| CacheParity.IndexBuilder.WalkFiles | bin/auracall.ts:7624-7644 | one entry for every file of the kind, with its date and id |
| CacheParity.IndexBuilder.WalkManifests | bin/auracall.ts:7646-7666 | one entry for every folder with a manifest |
| CacheParity.IndexBuilder.BuildIndex | bin/auracall.ts:7552-7691 | exactly one entry for every item of the tree, sorted by date |
| CacheParity.EntriesSpelled | bin/auracall.ts:7592-7679 | path, date and id of the entry for each kind of file, written out |
| CacheParity.IndexFileIsNoItem | bin/auracall.ts:7552-7691 | the index file itself plays no part in a rebuild |
| CacheParity.NewestFirstSorts | bin/auracall.ts:7682-7690 | the sorted list is a permutation, newest first, and equal dates keep their order |
| CacheParity.RebuiltKeysExactlyWhen | bin/auracall.ts:7552-7691 | a rebuilt index has all keys of the database, or the database all keys of the index, if and only if every row, or every item, with a kind and an id has one of the same kind and id on the other side |
| CacheParity.RebuiltParityExactlyWhen | bin/auracall.ts:7067-7074 | so each parity count of a rebuilt index and any database is zero under exactly that condition |
| CacheParity.RebuildRestoresParity | bin/auracall.ts:7552-7691 | nothing of the database is missing in a rebuilt index if every row with a key stands for an item of the tree, and nothing of the index in the database if every item has its row |
| RepairRun.RepairSession.CreateBackup | bin/auracall.ts:7490-7503 | a backup that succeeds holds what both files hold |
| RepairRun.RepairSession.Rebuild | bin/auracall.ts:7529-7550 | the index holds the rebuilt entries, newest first, and no other file changes; without apply, or after a failure, nothing changes; it fails exactly when the index cannot be written |
| RepairRun.RepairSession.TryAction | bin/auracall.ts:7339-7406 | one round of the loop: the backup comes before the action, an error of either is the result of the action, and the action has its effect on tables or index exactly when it is not reported as failed |
| RepairRun.RepairSession.RepairContext | bin/auracall.ts:7324-7418 | one result per action; errors are the failed results; one backup at most, made before any action, with the contents of before; without one nothing changes; the tables are what the prunes that did not fail make of them; the index is the rebuilt one if a rebuild did not fail, and otherwise as before; an action is reported as applied exactly when it had something to do; if nothing fails there are no errors |
| RepairRun.RunCacheRepair | bin/auracall.ts:7299-7438 | all of this for every context of the run, against its contents of before; the totals of the report are the sums over its entries |
| MaintenanceLock.MoveKeepsInvariant | bin/auracall.ts:7147-7199 | any move of any process keeps the holder's file linked and the store serial, unless it unlinks a live holder's file |
| MaintenanceLock.UnrobbedRunsSerialise | bin/auracall.ts:7147-7199 | mutual exclusion and serial equivalence in every run without such a move |
| MaintenanceLock.FreshRunsSerialise | bin/auracall.ts:7147-7216 | both hold in every run in which no lock file grows stale, and only the latest turn can be unfinished |
| MaintenanceLock.AtOnceRunsSerialise | bin/auracall.ts:7201-7216 | with stat and unlink in one step, it is enough that no live holder overstays the limit |
| MaintenanceLock.FinishedLetIn | bin/auracall.ts:7156-7199 | in every run, when all who ever opened the lock have finished, the path is free and the next open enters |
| MaintenanceLock.FreshOpenExactlyWhen | bin/auracall.ts:7156-7199 | in a run in which no lock file grows stale, an opener gets in if and only if nobody came before or the latest one has finished |
| MaintenanceLock.ReleaseLetsIn | bin/auracall.ts:7186-7199 | after a release the next open enters |
| MaintenanceLock.StaleExactlyWhen | bin/auracall.ts:7201-7209 | a waiter goes to clear the file away if and only if it is older than fifteen minutes |
| MaintenanceLock.WritingDates | bin/auracall.ts:7159-7166 | writing the payload makes the file young again |
| MaintenanceLock.RecoveryLetsIn | bin/auracall.ts:7201-7216 | once a stale file is unlinked the next open enters |
| MaintenanceLock.WaiterRound | bin/auracall.ts:7156-7183 | whatever happens in between, a waiter that meets a fresh lock file is back at opening, unless more than 60000 ms have passed since it began; then it fails |
| MaintenanceLock.WaiterFailsLate | bin/auracall.ts:7176-7180 | no waiter fails before that |
| MaintenanceLock.RobbedHolderIsJoined | bin/auracall.ts:7156-7199 | once a live holder's file is unlinked, one newcomer makes two holders |
| MaintenanceLock.JoinedExactlyWhenRobbed | bin/auracall.ts:7156-7199 | a newcomer after a move makes two holders if and only if that move unlinked the file of a live holder |
| MaintenanceLock.TwoHolders | bin/auracall.ts:7201-7216 | a run of the code as it is with two holders, in which no live holder overstays |
| GlobPattern.RegexTextParses | bin/auracall.ts:5008-5012 | the emitted text parses, for every pattern, as the terms that the pattern means |
| GlobPattern.RegexMeansGlob | bin/auracall.ts:5008-5012 | its matches are those of the direct matcher, with wildcards that stop at line terminators |
| GlobPattern.RegexMeansGlobOnLines | bin/auracall.ts:5008-5012 | on titles of one line the wildcards are unrestricted |
| GlobPattern.StarSelects | bin/auracall.ts:5008-5012 | `*` selects a title if and only if it holds no line terminator |
| Enrichment.RefreshProviderCache | bin/auracall.ts:6363-6414 | the loops compute the merge of the candidates in project order |
| Enrichment.WrittenIds | bin/auracall.ts:6365-6414 | ids are unique and in first-occurrence order: those of the global list, and with the flag those of the scoped lists |
| Enrichment.GlobalKeepsLast | bin/auracall.ts:6365-6369 | of several global conversations with one id the last one counts |
| Enrichment.WrittenFirstOfferWins | bin/auracall.ts:6389-6410 | the first non-empty project id and the first url with `/project/` win, the conversation's own first; its title stays |
| Enrichment.NewcomersTitle | bin/auracall.ts:6389-6399 | a conversation that only project listings hold comes in with the flag, with the title of its first appearance |
| Enrichment.NamesProjectExactlyWhen | bin/auracall.ts:6402-6408 | the urls that count are those with `/project/` somewhere in them |
| Enrichment.MergeIsIdempotent | bin/auracall.ts:6365-6414 | merging again into the result changes nothing |
| Enrichment.RefreshIsIdempotent | bin/auracall.ts:6363-6414 | refreshing again from the written list, with the same answers of the provider, changes nothing |
| Enrichment.FailureIsEmpty | bin/auracall.ts:6374-6388 | a project whose listing fails counts as one with an empty listing |
| GitPolicy.FindGitSubcommand | scripts/git-policy.ts:49-80 | the loop finds the subcommand that the scan defines |
| GitPolicy.DetermineGitWorkdir | scripts/git-policy.ts:82-110 | the loop computes the directory that the scan defines, for any command index |
| GitPolicy.ExtractGitInvocation | scripts/git-policy.ts:40-47 | the first word that names git, and everything from there |
| GitPolicy.NamesGit | scripts/git-policy.ts:40-47 | the words that name git are `git` and what ends in `/git` |
| GitPolicy.AnalyzeGitExecution | scripts/git-policy.ts:112-123 | the three scans together; without git the workspace itself |
| GitPolicy.SubcommandRoundTrip | scripts/git-policy.ts:49-80 | behind any list of global options the subcommand is found at its index |
| GitPolicy.OptionsWithValue | scripts/git-policy.ts:54-76 | `-C`, `-c`, `--git-dir` and `--work-tree` take the next word along |
| GitPolicy.OptionsWithoutValue | scripts/git-policy.ts:64-78 | every other option stands alone |
| GitPolicy.SubcommandAfterDashes | scripts/git-policy.ts:49-80 | after `--` the next word is the subcommand, whatever it looks like |
| GitPolicy.ScannedExactlyWhen | scripts/git-policy.ts:82-110 | the scan finds the directories that the options name if and only if no other option's separate value starts with `-C`, with one exception before an empty word |
| GitPolicy.WorkdirExactlyWhen | scripts/git-policy.ts:82-110 | the directory is the fold of path resolution over what the scan finds, which is what the options name under exactly that condition |
| GitPolicy.WorkdirRightExactlyWhen | scripts/git-policy.ts:82-110 | the directory is right under every path resolution if and only if that condition holds |
| GitPolicy.WorkdirRoundTrip | scripts/git-policy.ts:82-110 | without such a value the directory is the fold of path resolution over the `-C` values |
| GitPolicy.MisreadValue | scripts/git-policy.ts:82-110 | the value of `--git-dir` is read as a directory when it starts with `-C` |
| GitPolicy.BisectIsJudgedByItsAction | scripts/git-policy.ts:139-155 | behind any global options, `bisect` is destructive if and only if `reset` follows |
| AcceptanceRun.Run.ProjectPhase | scripts/chatgpt-acceptance.ts:867-907 | the project is created if and only if the first step succeeds; in a fresh run it is in the summary if and only if the lookup after it succeeds too, whichever later step fails; nothing is deleted |
| AcceptanceRun.Run.ProjectChatPhase | scripts/chatgpt-acceptance.ts:909-954 | the same for the project conversation, which stays in the summary until it has been deleted |
| AcceptanceRun.Run.RootBasePhase | scripts/chatgpt-acceptance.ts:956-983 | the same for the conversation outside projects; nothing is deleted |
| AcceptanceRun.Run.RootFollowupsPhase | scripts/chatgpt-acceptance.ts:985-1072 | on success the conversation is gone, and only conversations were deleted |
| AcceptanceRun.Run.CleanupPhase | scripts/chatgpt-acceptance.ts:1074-1089 | on success no id with a name is left, and what was resumed got its delete |
| AcceptanceRun.Run.BestEffortCleanup | scripts/chatgpt-acceptance.ts:737-775 | everything that the summary still names gets a delete, conversations of a project before the project |
| AcceptanceRun.Run.RunMain | scripts/chatgpt-acceptance.ts:849-1118 | in a full run exactly those objects are created that the outcomes of the steps say; in a fresh one, whichever step fails, a delete is issued exactly for those with an id that was read back, conversations of a project before the project; a full run is successful if and only if each of its steps is and the ids are there and agree, and then it ends with all three ids null; the cleanup phase deletes what it resumes |
| AcceptanceRun.Run.DeletedExactlyWhen | scripts/chatgpt-acceptance.ts:867-983 | which steps must succeed for the project, its conversation and the other conversation to be deleted, and that nothing else is |
| AcceptanceRun.Run.LostExactlyWhen | scripts/chatgpt-acceptance.ts:867-983 | something created gets no delete if and only if the first step that fails is one of the three that read an id back; then it is one object |
| AcceptanceRun.Run.NothingFails | scripts/chatgpt-acceptance.ts:849-1118 | when no step fails and every id is there, a full run is successful |
| AcceptanceRun.LostProject | scripts/chatgpt-acceptance.ts:867-878 | a run that creates a project and issues no delete at all |

## Left out

- The repair actions `sync-sql` and `mark-missing-local`: the first delegates to a store that is not part of this model, the second reads a column that no other command here uses.
- `VACUUM`, `ANALYZE`, `PRAGMA quick_check` and WAL files; SQLite's limit on bound parameters, so a clear of very many conversations does not fail here.
- Commander, HTTP, console output, prompts and browser control.
- Strings are sequences of Unicode scalar values, not UTF-16 code units; `Date.parse` and `JSON.parse` are replaced by what they yield.
- Symbolic links, trailing slashes and Windows separators in paths; the file system gives no errors beyond those of its structure, except where `RepairRun` schedules them; removing a file does not change the date of its directory.
- RepairRun.RepairSession.CreateBackup: backups are kept beside the tree, not as directories in it, and an index write that fails leaves the old text.
- Dates of files are whole milliseconds. `toISOString` throws beyond 8.64e15 milliseconds around 1970; a cutoff there is no case of the SQL text.
- Dataset names that are properties of every JavaScript object, such as `constructor`, for which the lookup in `toSqlParityKey` yields a function.
- Ids in an index entry that are no strings, which make `trim` throw.
- MaintenanceLock.FreshRunsSerialise: waits that end in an error are moves like any other; the payload of the lock file, which nothing reads, is not modelled.
- AcceptanceRun.Run.RunMain: the adapter override is left out, and a run that resumes older ids promises only what the summary names at the end; a full run overwrites resumed ids and does not delete what they named. A creating command that throws counts as one that created nothing.
- GlobPattern.RegexMeansGlob: matching folds case by an arbitrary function of characters, and only the constructs that the emitted text uses are parsed (section 22.2 of ECMA-262).
- The scripts that only classify or report (`scripts/chatgpt-context-canary.ts`, `scripts/audit-plan-library.ts`, `scripts/docs-list.ts`) and the policy verdicts built from fixed sets of subcommands would add only easy members.
