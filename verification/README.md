# OpenLabels: models and proofs

This project models the parts of OpenLabels that are decided by loops, state and arithmetic, and
proves what they promise. `dafny verify dfyconfig.toml` checks all of it.

- **Filter language** (`FilterEscapes`, `FilterLexer`, `FilterText`, `FilterGrammar`, `FilterParser`,
  `FilterRoundTrip`, `FilterParentheses`, `FilterExecutor`). The lexer and the recursive-descent parser are classes whose
  methods move a position; they are proved against a scan of strings and a grammar with derivation
  trees. The parser returns exactly the unique derivation, every expression in its range survives
  printing and parsing, and filters compose through their text.
- **Pipeline** (`Pipeline`, `PipelineObjects`). The coroutines are a system of atomic steps, one for the
  code between two suspensions; the semaphore, the context and the pipeline are classes whose steps are
  proved to be those of the protocol, with a method that drives them by any schedule. No wake-up is lost, no run deadlocks, and all runs end
  clean.
- **Directory index** (`DirectoryTree`, `DeltaSync`). The incremental sync with its batches against the
  full rebuild, over a table with identities, parent links and the cascading foreign key.
- **Fan-out** (`Ordering`, `Fanout`, `FanoutCoverage`, `PrefixFanout`). The page loops of the three adapters and the two ways
  of cutting the key space, with the exact set of keys that are listed, and listed once.
- **Job queue and scheduler** (`JobQueue`, `QueueRuns`, `QueueWitnesses`, `Scheduler`). Rows, the claiming query, and
  sessions that decide on their own copy of a row and write the columns they changed; all interleavings of any number of
  sessions, with calls as late as they like; polls of any number of instances with stale clocks.
- **OCR offsets** (`Ocr`), **token bucket** (`TokenBucket`), **circuit breaker** (`CircuitBreaker`),
  **file inventory behind its LRU cache** (`Inventory`, `InventoryService`), **analytics catalog** (`Catalog`,
  `CatalogWriter`): smaller state machines, each proved over every run.

What the proofs show about the code where it differs from its documentation, or from what one expects:

- A string literal of the filter language cannot express a value with a backslash directly before `n` or `t`
  (`FilterEscapes.LiteralDomain`); expressions with such a value are exactly what no filter can say.
- The comment at `src/openlabels/adapters/base.py:209` calls the start of a range inclusive. S3 and Azure exclude it,
  so a key-range fan-out misses its boundary keys there (`FanoutCoverage.KeyrangeListing`), and the keys from the last quantile
  on when the partitions do not divide the sample (`FanoutCoverage.TailMissedIff`).
- With one partition per prefix every worker lists the whole bucket, and stripping slashes can put grouped boundaries
  out of order or leave one empty (`PrefixFanout.EachPrefixListsAll`, `FanoutCoverage.StrippingBreaksOrder`,
  `PrefixFanout.SlashDoubles`); `PrefixFanout.ListedOnceIff` says when a key is listed once.
- A text that is no filter can become one in parentheses (`FilterParentheses.CrossedParentheses`).
- A delta sync deletes a walked directory exactly when an ancestor by stored links was not walked
  (`DeltaSync.CascadeSparesWalkedIff`, `DeltaSync.CascadeTakesWalked`).
- `fail` does not refresh the worker's copy of its job, so a late failure writes an old retry count over the row, and a job can be
  started more than `max_retries + 1` times (`QueueWitnesses.LateFailuresExceed`, `QueueRuns.LateAttemptsAreBounded`).
- A requeue that keeps the retry count can leave a pending job over its limit (`QueueWitnesses.PendingOverLimit`,
  `QueueRuns.PendingWithinRetriesIff`).
- The two block lookups of an OCR result differ on empty spans and empty blocks (`Ocr.LookupsDifferIff`).
- A caller that sleeps as told gets up to twice the configured rate (`TokenBucket.TwiceTheRateIsReached`).
- A new file that is scanned twice with nothing but cache hits in between makes `update_file_inventory` raise, since its
  counters have no value before the session has written it (`Inventory.RefusedIff`, `Inventory.SecondScanIsRefused`).
- A compaction deletes files that it could not read (`Catalog.UnreadFileIsLost`), rows stamped at or before the saved cursor are
  never flushed, and a flush that fails half-way doubles what it had written (`Catalog.BrokenFlushDoubles`).
- With `max_concurrent_files` zero the pipeline waits forever for its first file (`Pipeline.StuckIff`).

## Model

| member | source | states |
|---|---|---|
| `FilterEscapes.UnescapeEscape` | src/openlabels/cli/filter_parser.py:121-125 | the chained replacements give a value back from its escaped form, for every value without a backslash before `n` or `t` |
| `FilterEscapes.UnescapeIsWritable` | src/openlabels/cli/filter_parser.py:121-125 | whatever is between the quotes, the value read has no backslash before `n` or `t` |
| `FilterEscapes.StringEndOfEscape` | src/openlabels/cli/filter_parser.py:116-127 | the reading loop finds the closing quote right after an escaped value, for both quote characters and whatever follows |
| `FilterEscapes.StringEndExtends` | src/openlabels/cli/filter_parser.py:116-130 | text after a literal does not move its end; an unterminated literal can only be ended by what follows |
| `FilterEscapes.LiteralDomain` | src/openlabels/cli/filter_parser.py:110-130 | a value has a string literal if and only if it has no backslash directly before `n` or `t` |
| `FilterEscapes.PathWithoutLiteral` | src/openlabels/cli/filter_parser.py:122-125 | a concrete Windows path that no literal can express |
| `FilterLexer.Lexer.SkipWhitespace` | src/openlabels/cli/filter_parser.py:105-108 | moves to the first character that is not a space, and no further |
| `FilterLexer.Lexer.ReadString` | src/openlabels/cli/filter_parser.py:110-130 | consumes through the closing quote and returns the unescaped value, or reports the start of an unterminated literal |
| `FilterLexer.Lexer.ReadNumber` | src/openlabels/cli/filter_parser.py:132-152 | consumes the longest number with one optional dot; value, sign and kind of the number |
| `FilterLexer.Lexer.ReadIdentifier` | src/openlabels/cli/filter_parser.py:154-165 | consumes the longest run of letters, digits, `_`, `-` and `.` |
| `FilterLexer.Lexer.NextToken` | src/openlabels/cli/filter_parser.py:167-226 | skips blanks, then the next token, its start position, and the remaining text are those of the scan; or the fault and its position |
| `FilterLexer.Lexer.Tokenize` | src/openlabels/cli/filter_parser.py:228-236 | terminates; the token kinds are the scan of the text, every token is located at its text, errors at their position, and the last token is the only end marker |
| `FilterText.LexOneExtends` | src/openlabels/cli/filter_parser.py:167-226 | reading one lexeme does not depend on what follows it, if that starts with a delimiter |
| `FilterText.ScanConcat` | src/openlabels/cli/filter_parser.py:228-236 | lexing is compositional: the scan of a text followed by a delimiter and more is the scan of the first part, then the scan of the rest |
| `FilterText.LexShow` | src/openlabels/cli/filter_parser.py:110-226 | a printed lexeme of any kind (strings, negative integers, decimals, keywords, operators) is read back as itself |
| `FilterText.ScanRender` | src/openlabels/cli/filter_parser.py:228-236 | a printed list of lexemes scans back to exactly that list |
| `FilterText.ScanPrintable` | src/openlabels/cli/filter_parser.py:228-236 | every lexeme that a scan returns can be printed |
| `FilterGrammar.ConditionSound` | src/openlabels/cli/filter_parser.py:349-417 | what `_parse_condition` consumed is the yield of the derivation it built, and a failure is inside the input |
| `FilterGrammar.AndSound` | src/openlabels/cli/filter_parser.py:338-347 | the same for `_parse_and_expr` |
| `FilterGrammar.OrSound` | src/openlabels/cli/filter_parser.py:327-336 | the same for `_parse_or_expr` |
| `FilterGrammar.ConditionComplete` | src/openlabels/cli/filter_parser.py:349-417 | from the yield of a condition, followed by anything, `_parse_condition` reads exactly that condition |
| `FilterGrammar.AndComplete` | src/openlabels/cli/filter_parser.py:338-347 | the same for a conjunction not followed by AND |
| `FilterGrammar.OrComplete` | src/openlabels/cli/filter_parser.py:327-336 | the same for a disjunction not followed by AND or OR |
| `FilterGrammar.ParsesExactlyItsYield` | src/openlabels/cli/filter_parser.py:318-325 | soundness and completeness: the parser returns a derivation if and only if the tokens are its yield and the end marker |
| `FilterGrammar.Unambiguous` | src/openlabels/cli/filter_parser.py:318-325 | two derivations with the same tokens are the same derivation |
| `FilterGrammar.ParenthesesTransparent` | src/openlabels/cli/filter_parser.py:359-364 | putting parentheses around a token list that parses gives one that parses, to the same expression |
| `FilterGrammar.JoinedByAnd` | src/openlabels/cli/filter_parser.py:338-347 | two parenthesised lists joined by AND parse to the conjunction of the two expressions |
| `FilterParser.Parser.Expect` | src/openlabels/cli/filter_parser.py:311-316 | consumes the expected token or reports it at the present position |
| `FilterParser.Parser.ParseValue` | src/openlabels/cli/filter_parser.py:419-430 | consumes one literal, or fails at it |
| `FilterParser.Parser.ParseFunctionCall` | src/openlabels/cli/filter_parser.py:376-405 | agrees with the grammar: result, consumed tokens, or fault and its position |
| `FilterParser.Parser.ParseConditionExpr` | src/openlabels/cli/filter_parser.py:349-374 | the same |
| `FilterParser.Parser.ParseAndExpr` | src/openlabels/cli/filter_parser.py:338-347 | the same, for the loop |
| `FilterParser.Parser.ParseOrExpr` | src/openlabels/cli/filter_parser.py:327-336 | the same, for the loop |
| `FilterParser.Parser.Parse` | src/openlabels/cli/filter_parser.py:318-325 | the expression of the derivation, or an error at the failing token; the position never passes the end marker |
| `FilterRoundTrip.ParseFilter` | src/openlabels/cli/filter_parser.py:433-460 | returns the meaning of the text, and otherwise an error located in the text; the empty filter is the only other rejection |
| `FilterRoundTrip.ChainsDenote` | src/openlabels/cli/filter_parser.py:327-347 | the precedence-aware printer derives the expression it prints, with left-associative AND and OR |
| `FilterRoundTrip.OrMinimal` | src/openlabels/cli/filter_parser.py:327-374 | no derivation of an expression has fewer tokens than the printed one: the parentheses are minimal |
| `FilterRoundTrip.RoundTrip` | src/openlabels/cli/filter_parser.py:110-430 | every writable expression, printed with minimal parentheses, lexed and parsed, is that expression |
| `FilterRoundTrip.DenotableIffWritable` | src/openlabels/cli/filter_parser.py:110-430 | some text means an expression if and only if it is writable: the exact range of the parser |
| `FilterRoundTrip.RewriteKeepsMeaning` | src/openlabels/cli/filter_parser.py:433-460 | the meaning of any filter is writable, and writing it anew keeps it |
| `FilterRoundTrip.MeaningJoinedAnd` | src/openlabels/cli/filter_parser.py:338-364 | the text `(s1) AND (s2)` means the conjunction of what two filters mean |
| `FilterRoundTrip.MeaningParenthesised` | src/openlabels/cli/filter_parser.py:359-364 | if `s` is a filter, `(s)` is one and means the same |
| `FilterParentheses.ParenthesesIff` | src/openlabels/cli/filter_parser.py:349-374 | a token list parses if and only if it parses in parentheses and closes no parenthesis that it has not opened |
| `FilterParentheses.FilterIffParenthesised` | src/openlabels/cli/filter_parser.py:433-460 | for texts: `s` is a filter if and only if `(s)` is one and `s` closes none early; so this is exactly when `(s)` is a filter and `s` is not |
| `FilterParentheses.CrossedParentheses` | src/openlabels/cli/filter_parser.py:349-374 | `a = 1) OR (b = 2` is no filter, and in parentheses it is one |
| `FilterExecutor.SelectConjunction` | src/openlabels/cli/filter_executor.py:215-220 | one filter after another selects, and raises, as the short-cut conjunction does |
| `FilterExecutor.SelectComplement` | src/openlabels/cli/filter_executor.py:227-229 | a filter and its negation raise together and otherwise share out the results, duplicates included |
| `FilterExecutor.FilteringComposes` | src/openlabels/cli/filter_executor.py:280-303 | `filter_scan_results(rs, "(s1) AND (s2)")` is filtering by `s1` and then by `s2`, including whether it raises |
| `FilterExecutor.RewrittenFilterSelectsSame` | src/openlabels/cli/filter_executor.py:280-303 | a filter written anew with minimal parentheses selects and raises the same |
| `FilterExecutor.ParenthesesNeeded` | src/openlabels/cli/filter_parser.py:327-347 | without parentheses AND binds tighter: the tokens of `a OR b AND c` are `a OR (b AND c)` |
| `FilterExecutor.DeMorgan` | src/openlabels/cli/filter_executor.py:215-229 | the laws of De Morgan hold for evaluation with short cuts and raised errors |
| `FilterExecutor.OrderLaws` | src/openlabels/cli/filter_executor.py:149-170 | exactly one of `<`, `=`, `>` holds of comparable values, `<=`, `>=` and `!=` are what they say, None is in no order, and everything else raises |
| `FilterExecutor.HasIsPositiveCount` | src/openlabels/cli/filter_executor.py:236-256 | `has(T)` is `count(T) > 0`, errors included, exactly when the stored count is not None |
| `Pipeline.StepKeepsInv` | src/openlabels/jobs/pipeline.py:75-317 | every atomic step of every coroutine keeps the whole invariant (accounts, commits, wake-up, order) |
| `Pipeline.StepKeepsAccounts` | src/openlabels/jobs/pipeline.py:75-93 | reserved bytes stay the sum of the estimates in flight, within budget or with one file in flight; permits and active counter stay exact |
| `Pipeline.StepKeepsCommits` | src/openlabels/jobs/pipeline.py:175-182 | the commit counter and the number of periodic commits stay quotient and remainder of the successes |
| `Pipeline.StepKeepsWakeUp` | src/openlabels/jobs/pipeline.py:75-102 | a parked producer whose file would fit always has a notification pending |
| `Pipeline.StepDecreases` | src/openlabels/jobs/pipeline.py:230-317 | every step makes a natural-number measure smaller |
| `Pipeline.CanStep` | src/openlabels/jobs/pipeline.py:230-317 | no deadlock: in a state of the invariant that is not finished some coroutine can step, unless there are no permits at all and the producer waits for one |
| `Pipeline.StuckIff` | src/openlabels/jobs/pipeline.py:253-268 | a run is stuck before its end if and only if `max_concurrent_files` is zero and the producer waits for a slot |
| `Pipeline.RunKeepsInv` | src/openlabels/jobs/pipeline.py:230-317 | the invariant holds after every run, and the length of the run is bounded |
| `Pipeline.BudgetInEveryRun` | src/openlabels/jobs/pipeline.py:75-93 | in every run: bytes are the sum in flight, within budget or one file in flight; high-water mark and files in flight at most `max_concurrent_files`; commits are successes divided by the interval |
| `Pipeline.ReleaseIsExact` | src/openlabels/jobs/pipeline.py:86-93 | the `max(0, ...)` in `release` never clips |
| `Pipeline.ParkedWillWake` | src/openlabels/jobs/pipeline.py:75-102 | in every reachable state with a parked producer a file is in flight or a notification is pending |
| `Pipeline.RunsEndCleanly` | src/openlabels/jobs/pipeline.py:230-317 | a run that cannot go on has finished with nothing reserved, all permits back, no active task, one outcome for each started file, and all files started unless it was cancelled or the listing failed (unless no file may be processed at all and one is listed); runs are at most 40 steps a file and 10 |
| `PipelineObjects.MemoryBudgetSemaphore.AvailableBytes` | src/openlabels/jobs/pipeline.py:71-73 | the free part of the budget, never negative |
| `PipelineObjects.MemoryBudgetSemaphore.TryAcquire` | src/openlabels/jobs/pipeline.py:75-84 | reserves exactly when there is room or nothing is reserved |
| `PipelineObjects.MemoryBudgetSemaphore.Release` | src/openlabels/jobs/pipeline.py:86-98 | gives the bytes back, clipped at zero |
| `PipelineObjects.PipelineContext.IncrementActive` | src/openlabels/jobs/pipeline.py:163-168 | counts a task and raises the high-water mark to it if it is higher |
| `PipelineObjects.PipelineContext.DecrementActive` | src/openlabels/jobs/pipeline.py:170-173 | takes a task off and leaves the rest |
| `PipelineObjects.PipelineContext.ShouldCommit` | src/openlabels/jobs/pipeline.py:175-182 | counts a success; due and reset exactly at the interval |
| `PipelineObjects.FilePipeline.ProducerStep` | src/openlabels/jobs/pipeline.py:230-294 | on the real objects: each step of `run` between two suspensions is the step of the protocol, with the reservation or the parking |
| `PipelineObjects.FilePipeline.TaskStep` | src/openlabels/jobs/pipeline.py:296-313 | on the real objects: each step of `_run_one` is the step of the protocol, with its counters and the commit decision |
| `PipelineObjects.FilePipeline.FinallyStep` | src/openlabels/jobs/pipeline.py:314-317 | the same for the `finally` block: bytes, permit and the scheduled notification are given back |
| `PipelineObjects.FilePipeline.Perform` | src/openlabels/jobs/pipeline.py:230-317 | the objects move as any possible step of the protocol does |
| `PipelineObjects.FilePipeline.Drive` | src/openlabels/jobs/pipeline.py:230-317 | driven by any schedule of the event loop, the objects keep the invariant, terminate and end clean |
| `DirectoryTree.ParentPathShorter` | src/openlabels/jobs/index.py:215-227 | the path expression of a parent gives a strictly shorter path or the path itself, with and without a trailing slash |
| `DirectoryTree.LinkGoesUp` | src/openlabels/jobs/index.py:192-233 | in a forest a resolved link goes to a strictly shorter path, so never to itself or in a circle |
| `DirectoryTree.ResolveKeeps` | src/openlabels/jobs/index.py:192-233 | resolving parents by path keeps identities unique and makes every link a link to the path parent |
| `DirectoryTree.UpsertKeeps` | src/openlabels/jobs/index.py:142-157 | an upsert of fresh rows keeps identities unique and the forest |
| `DirectoryTree.UpdateKeeps` | src/openlabels/jobs/delta_sync.py:289-324 | updates by identity keep identities and forest |
| `DirectoryTree.DeleteKeeps` | src/openlabels/jobs/delta_sync.py:327-358 | a cascading delete keeps identities and forest |
| `DirectoryTree.DeletedInBatches` | src/openlabels/jobs/delta_sync.py:340-358 | deleting in two batches, cascades included, deletes what one batch would: the batch size does not matter |
| `DirectoryTree.OtherTargetsSafe` | alembic/versions/c3d4e5f6a7b8_fix_fk_cascades_and_schema_gaps.py:107 | the cascade of a delete stays in its target |
| `DeltaSync.DirectoryIndex.ApplyWalk` | src/openlabels/jobs/delta_sync.py:100-143 | the loop with its two batches and flushes: for every batch size the table becomes the old one with one change per walked folder; the seen paths are the walked ones, and each counter is the number of folders that are new, changed or untouched |
| `DeltaSync.DirectoryIndex.DeleteMissing` | src/openlabels/jobs/delta_sync.py:327-358 | the batched deletes are one cascading delete of all given paths |
| `DeltaSync.DirectoryIndex.DeltaSync` | src/openlabels/jobs/delta_sync.py:81-175 | the table becomes the synchronised one, for every batch size; the counters are those of the walk, and add up to the number of paths seen, which is the number of directories walked |
| `DeltaSync.DirectoryIndex.Bootstrap` | src/openlabels/jobs/index.py:29-115 | for every batch size the batched full index is one upsert of the whole walk and one resolution of parents, and the total is the number of folders |
| `DeltaSync.CountsAddUp` | src/openlabels/jobs/delta_sync.py:100-175 | for distinct paths: new, changed and untouched folders add up to the number of paths seen, `total_dirs` |
| `DeltaSync.CascadeTakesWalked` | src/openlabels/jobs/delta_sync.py:145-148 | a concrete table and walk for which the sync deletes a walked directory |
| `DeltaSync.UpsertedTwice` | src/openlabels/jobs/index.py:60-80 | two upsert batches are one upsert of both: the batch size does not matter |
| `DeltaSync.CascadeSparesWalkedIff` | src/openlabels/jobs/delta_sync.py:145-148 | the cascading delete of missing paths removes no walked directory if and only if no walked directory has a missing ancestor by its stored links |
| `DeltaSync.SyncedPaths` | src/openlabels/jobs/delta_sync.py:100-148 | after a parent-closed walk the stored paths of the target are exactly the walked ones |
| `DeltaSync.OtherTargetsUnchanged` | src/openlabels/jobs/delta_sync.py:270-358 | rows of other targets keep all columns and their links |
| `DeltaSync.SyncedRow` | src/openlabels/jobs/delta_sync.py:108-143 | a new or changed row has the live columns and no `sd_hash`; an untouched one was within one second and keeps all its columns |
| `DeltaSync.SyncKeepsTree` | src/openlabels/jobs/delta_sync.py:81-175 | the synchronised table has unique identities and is a forest, linked by path |
| `DeltaSync.RebuiltRows` | src/openlabels/jobs/index.py:29-115 | the rebuilt table has exactly the walked paths with the live columns |
| `DeltaSync.SyncAgreesWithRebuild` | src/openlabels/jobs/delta_sync.py:81-175 | sync and rebuild agree on stored paths and links, and on the columns of each changed row; an untouched row differs by at most one second in its mtime |
| `Fanout.ListPage` | src/openlabels/adapters/s3.py:160-200 | one page: the wanted keys before the boundary, and whether the boundary was hit |
| `Fanout.ListPages` | src/openlabels/adapters/s3.py:160-209 | the page loop with early stop is plain filtering of the whole sorted listing, for every division into pages |
| `Fanout.ListFilesS3` | src/openlabels/adapters/s3.py:135-209 | lists exactly the files of the bucket in the range, start exclusive |
| `Fanout.ListFilesAzure` | src/openlabels/adapters/azure_blob.py:118-191 | the same, with the keys up to the start skipped in the loop |
| `Fanout.ListFilesGcs` | src/openlabels/adapters/gcs.py:106-182 | lists exactly the files in the range, start inclusive |
| `FanoutCoverage.EveryKeyCovered` | src/openlabels/jobs/coordinator.py:281-296 | in a chain of ranges with an open end every key that is no boundary is in some range, in order or not |
| `FanoutCoverage.ListedTwiceIff` | src/openlabels/jobs/coordinator.py:281-296 | such a key is in two ranges if and only if it lies between two boundaries that are out of order |
| `FanoutCoverage.Disjoint` | src/openlabels/jobs/coordinator.py:318-332 | ranges in order are pairwise disjoint |
| `FanoutCoverage.ExactCover` | src/openlabels/jobs/coordinator.py:318-332 | a key is in some range if and only if it is below the last end and, for exclusive starts, no interior boundary |
| `FanoutCoverage.AllListings` | src/openlabels/adapters/s3.py:135-209 | the workers' listings one after another are the sorted listing of the bucket without exactly those keys: each other key once |
| `FanoutCoverage.ComputeKeyrangePartitions` | src/openlabels/jobs/coordinator.py:298-332 | sorts the sample and cuts it at multiples of the step; one whole range if the sample is too small |
| `FanoutCoverage.KeyrangeChain` | src/openlabels/jobs/coordinator.py:318-332 | the computed ranges are a chain in order |
| `FanoutCoverage.KeyrangeListing` | src/openlabels/jobs/coordinator.py:298-332 | what a key-range fan-out lists of any bucket: each key once, without the sampled boundaries (exclusive starts) and the keys from `sample_keys[n * step]` on |
| `FanoutCoverage.TailMissedIff` | src/openlabels/jobs/coordinator.py:319-330 | there is such a missed tail exactly when the number of partitions does not divide the sample size |
| `FanoutCoverage.ComputePrefixPartitions` | src/openlabels/jobs/coordinator.py:249-296 | no, one or grouped partitions, with the stripped boundaries |
| `PrefixFanout.EachPrefixListsAll` | src/openlabels/jobs/coordinator.py:273-279 | with no more prefixes than partitions, the workers together list the whole bucket once for each prefix |
| `PrefixFanout.GroupsAreConsecutive` | src/openlabels/jobs/coordinator.py:281-296 | grouped prefixes give consecutive ranges from no start to no end, some boundaries possibly empty |
| `PrefixFanout.EmptyBoundaryDoubles` | src/openlabels/jobs/coordinator.py:289-294 | around a boundary that strips to nothing every key is listed on both sides |
| `PrefixFanout.ListedOnceIff` | src/openlabels/jobs/coordinator.py:249-296 | a prefix fan-out lists a key exactly once if and only if the prefixes are grouped, no boundary strips to nothing, and the key is between no two boundaries out of order; every key that is no boundary is listed |
| `PrefixFanout.ListedByWorkers` | src/openlabels/adapters/s3.py:135-209 | in the listings together a key is as often as workers cover it |
| `PrefixFanout.SlashDoubles` | src/openlabels/jobs/coordinator.py:289-294 | concrete sorted prefixes, one of them `/`, and a key that two workers list |
| `FanoutCoverage.StrippingBreaksOrder` | src/openlabels/jobs/coordinator.py:289-294 | concrete sorted prefixes whose stripped boundaries are out of order, and a key that two workers list |
| `JobQueue.RetryDelayDoubles` | src/openlabels/jobs/queue.py:43-55 | two seconds at first, then twice as long each time, up to an hour |
| `JobQueue.FlushedFresh` | src/openlabels/jobs/queue.py:230-251 | with an up-to-date copy a row becomes what the session decided |
| `JobQueue.CrossTenantPick` | src/openlabels/jobs/queue.py:773-815 | the query over all tenants picks exactly the best of what the per-tenant queries pick |
| `JobQueue.DrainOrder` | src/openlabels/jobs/queue.py:142-169 | draining a static queue takes jobs by priority descending, then creation ascending |
| `JobQueue.DrainTakesAll` | src/openlabels/jobs/queue.py:142-169 | what a drain leaves to take is what it has not taken: a drained queue has given out every due job |
| `JobQueue.DrainedAreCandidates` | src/openlabels/jobs/queue.py:142-169 | each drained job was eligible at the start and is taken once |
| `JobQueue.Queue.Get` | src/openlabels/jobs/queue.py:220 | `session.get` does not read a row again that the session holds |
| `JobQueue.Queue.Enqueue` | src/openlabels/jobs/queue.py:82-116 | adds a pending job without retries and nothing else |
| `JobQueue.Queue.Dequeue` | src/openlabels/jobs/queue.py:118-169 | claims a best eligible unlocked row, through the session, or none exactly when there is none |
| `JobQueue.Queue.Complete` | src/openlabels/jobs/queue.py:171-201 | completes the row whatever its status, and the session's copy with it; a missing row is left |
| `JobQueue.Queue.Fail` | src/openlabels/jobs/queue.py:203-251 | decides on the copy the session holds, whatever the row is by then, and writes the columns it changed; raises if the row is gone |
| `JobQueue.Queue.Cancel` | src/openlabels/jobs/queue.py:257-274 | cancels if the session's copy is pending or running; raises if the row is gone |
| `JobQueue.Queue.RequeueFailed` | src/openlabels/jobs/queue.py:342-381 | reads the row again and requeues failed jobs of the tenant only |
| `JobQueue.Queue.ReclaimStuckJobs` | src/openlabels/jobs/queue.py:504-557 | reclaims every stuck unlocked job of the tenant (at most 1000 a call) and no other row |
| `QueueRuns.RunKeepsInv` | src/openlabels/jobs/queue.py:142-169 | in every interleaving, claims are on different pending rows and held by sessions that know the row; limits never change |
| `QueueRuns.OverdrawsIff` | src/openlabels/jobs/queue.py:203-251 | a step hands out more starts than the job has left if and only if it is a failure by a session whose copy has more retries left than the row has starts left |
| `QueueRuns.RegainsIsStale` | src/openlabels/jobs/queue.py:203-251 | such a failure decides on a retry count lower than the row has by then |
| `QueueRuns.AttemptsAreBounded` | src/openlabels/jobs/queue.py:203-251 | in any run without such a failure the task of a job starts at most `max_retries + 1` times between resets of its count, and once more for each requeue that keeps the count and each claim rolled back after its task has started |
| `QueueRuns.LateAttemptsAreBounded` | src/openlabels/jobs/worker.py:665-774 | with workers failing as late as they like, on the copies they took when they claimed: at most `3 * 2^(max_retries - 1) - 1` starts (one without retries), times one more than the kept requeues, and the claims rolled back |
| `QueueWitnesses.LateFailuresExceed` | src/openlabels/jobs/queue.py:203-251 | a run with one reclaim and three late failures that starts a job with two retries five times; and five is the bound |
| `QueueRuns.PendingWithinRetriesIff` | src/openlabels/jobs/queue.py:203-251 | in every run, late calls included: a pending or running job stays within `max_retries` after every step if and only if no requeue revives a row over its limit without writing the count |
| `QueueWitnesses.PendingOverLimit` | src/openlabels/jobs/queue.py:342-422 | a run from the empty queue to a pending job over its limit |
| `QueueRuns.ClaimedOnce` | src/openlabels/jobs/queue.py:142-169 | after a start no session starts the job again without a failure, reclaim, requeue or rolled back claim in between |
| `QueueRuns.NoTwoClaims` | src/openlabels/jobs/queue.py:142-169 | two sessions never hold a claim on one job |
| `Scheduler.DueIff` | src/openlabels/jobs/scheduler.py:287-326 | due exactly when there is an occurrence since the last run, or in the last two hours for the first one |
| `Scheduler.Schedule.MaybeTrigger` | src/openlabels/jobs/scheduler.py:218-285 | creates one job and moves `last_run_at` exactly when the poll triggers; otherwise nothing changes |
| `Scheduler.RunsAreSpaced` | src/openlabels/jobs/scheduler.py:228-238 | whatever the polls and their clocks, each run is later than the one before, by at least the minimum interval |
| `Scheduler.RunsFarApart` | src/openlabels/jobs/scheduler.py:228-238 | any two runs are at least the minimum interval apart |
| `Scheduler.RunsConsumeOccurrences` | src/openlabels/jobs/scheduler.py:218-326 | runs use up distinct occurrences, in order, none after its run; the first at most two hours old |
| `Scheduler.RunsNeverOutnumberOccurrences` | src/openlabels/jobs/scheduler.py:180-326 | runs never outnumber the occurrences of the time they span |
| `Ocr.BuildText` | src/openlabels/core/ocr.py:575-604 | the line-grouping loop builds the text in which neighbours are separated by a space or, on a new line, a newline |
| `Ocr.BuildOffsets` | src/openlabels/core/ocr.py:606-629 | the offset loop gives each block the start and end it has in that text |
| `Ocr.OffsetsAreExact` | src/openlabels/core/ocr.py:575-629 | for any blocks, `full_text[start:end]` is the block's text |
| `Ocr.EntriesInOrder` | src/openlabels/core/ocr.py:606-629 | entries are in order and disjoint, with exactly one separator between neighbours |
| `Ocr.EveryPositionAccounted` | src/openlabels/core/ocr.py:575-629 | every position of the text is in an entry or is the separator before one |
| `Ocr.LinearLookup` | src/openlabels/core/ocr.py:142-166 | the scan returns exactly the blocks overlapping the span, in order |
| `Ocr.TreeFindsSharedCharacters` | src/openlabels/core/ocr.py:134-166 | the interval tree finds a block exactly when a character is in both block and span |
| `Ocr.LookupsDifferIff` | src/openlabels/core/ocr.py:134-166 | tree and scan differ on a block exactly when the span is empty or the block is, inside the other |
| `TokenBucket.Bucket.Acquire` | src/openlabels/adapters/graph_client.py:73-96 | the new level and time, and the returned wait, are those of the specification |
| `TokenBucket.LevelInRange` | src/openlabels/adapters/graph_client.py:73-96 | in every interleaving the level stays between zero and the capacity |
| `TokenBucket.GrantsAreBounded` | src/openlabels/adapters/graph_client.py:73-96 | in any window the tokens granted without a wait are at most the capacity and what flows in during the window |
| `TokenBucket.SleeperIsBounded` | src/openlabels/adapters/graph_client.py:73-96 | one caller that sleeps the returned waits: completed acquisitions against capacity and twice the inflow |
| `TokenBucket.SleeperWithinTime` | src/openlabels/adapters/graph_client.py:73-96 | at most `capacity + 2 * rate * T` acquisitions within `T` |
| `TokenBucket.TwiceTheRateIsReached` | src/openlabels/adapters/graph_client.py:86-96 | the factor two is attained: `2n + 1` acquisitions in `n` seconds at rate and capacity one, for every `n` |
| `CircuitBreaker.Breaker.TransitionTo` | src/openlabels/core/circuit_breaker.py:160-175 | counts the change and resets the counters that the new state resets |
| `CircuitBreaker.Breaker.RecordSuccess` | src/openlabels/core/circuit_breaker.py:177-190 | the whole new state |
| `CircuitBreaker.Breaker.RecordFailure` | src/openlabels/core/circuit_breaker.py:192-206 | the whole new state; a failure while open moves the recovery time |
| `CircuitBreaker.Breaker.AllowRequest` | src/openlabels/core/circuit_breaker.py:152-225 | the whole new state; allowed exactly when not open |
| `CircuitBreaker.CountsHold` | src/openlabels/core/circuit_breaker.py:152-206 | the counters mean the straight failures, or the successes, since the present state was entered |
| `CircuitBreaker.OpensIff` | src/openlabels/core/circuit_breaker.py:192-206 | a closed breaker opens exactly on the failure that makes the last `failure_threshold` outcomes since it closed failures |
| `CircuitBreaker.ClosesIff` | src/openlabels/core/circuit_breaker.py:177-206 | a half-open breaker closes exactly on the `success_threshold`-th straight success and opens exactly on a failure |
| `CircuitBreaker.LeavesOpenIff` | src/openlabels/core/circuit_breaker.py:152-158 | an open breaker is left only by a question asked a timeout after the latest failure |
| `CircuitBreaker.RejectedIff` | src/openlabels/core/circuit_breaker.py:208-225 | a request is rejected exactly when the breaker is open and the latest failure is less than the timeout ago |
| `CircuitBreaker.OutageLasts` | src/openlabels/core/circuit_breaker.py:152-225 | within the timeout of the latest failure every request is rejected and the breaker stays open, whatever late outcomes arrive |
| `CircuitBreaker.StatisticsAreExact` | src/openlabels/core/circuit_breaker.py:177-225 | the counters of calls, rejections and state changes are those of the history |
| `InventoryService.Service.CacheFile` | src/openlabels/jobs/inventory.py:834-839 | the path becomes the most recent and the oldest are evicted down to the limit |
| `InventoryService.Service.GetFileInv` | src/openlabels/jobs/inventory.py:807-825 | returns the record of the table, cached or not, and touches the cache as LRU does; a miss makes the session write its new records |
| `InventoryService.Service.ShouldScanFile` | src/openlabels/jobs/inventory.py:995-1039 | the reason, by the record of the table |
| `InventoryService.Service.UpdateFileInventory` | src/openlabels/jobs/inventory.py:1108-1185 | the new rows and cache order, and whether the update raises on a counter without a value |
| `InventoryService.Service.MarkMissingFiles` | src/openlabels/jobs/inventory.py:1187-1213 | flags exactly the rows of other jobs |
| `Inventory.CacheIsMostRecent` | src/openlabels/jobs/inventory.py:807-839 | after every run the cache is exactly the most recently used tracked paths up to the limit, in recency order |
| `Inventory.ChangesAreCounted` | src/openlabels/jobs/inventory.py:1129-1180 | across evictions a row has the hash of the last recorded scan, has counted the scans, and `content_changed_count` is the number of adjacent differing hashes |
| `Inventory.RefusedIff` | src/openlabels/jobs/inventory.py:1131-1150 | an update raises exactly when the row was created by the latest query: a new file scanned again after nothing but cache hits |
| `Inventory.SecondScanIsRefused` | src/openlabels/jobs/inventory.py:1131-1150 | the second scan of a new file right after the first raises, with any cache; with a commit in between it does not |
| `Inventory.CacheIsTransparent` | src/openlabels/jobs/inventory.py:807-839 | for every limit, as long as no update raises, the rows are those of a service without a cache |
| `Inventory.DueAgainIff` | src/openlabels/jobs/inventory.py:995-1039 | after a recorded scan and any unrelated events, the file is due again exactly when its hash differs, it is newer or its size differs |
| `Catalog.CompactionAccounts` | src/openlabels/analytics/compaction.py:91-144 | whatever fails, a compaction loses exactly the rows of files deleted unread and doubles exactly those of files merged and not deleted |
| `Catalog.CompactedToOne` | src/openlabels/analytics/compaction.py:91-144 | without faults one file is left in the directory, with the same rows |
| `Catalog.StepAccounts` | src/openlabels/analytics/flush.py:136-255 | what each flush, broken flush, insertion or compaction does to the balance |
| `Catalog.Conservation` | src/openlabels/analytics/flush.py:151-255 | over every run with fresh names: content and missing rows are the source up to the cursor and the doubled rows |
| `Catalog.StepExactIff` | src/openlabels/analytics/flush.py:151-255 | from an exact catalog a step leads to an exact one if and only if it is harmless: no row at or before the cursor, no flush broken off after writing rows, no file with rows deleted unread, none merged and left |
| `Catalog.ExactIff` | src/openlabels/analytics/flush.py:151-255 | for distinct rows and fresh names: the catalog holds the source up to the cursor, each row once, after every step of a run if and only if every step is harmless |
| `Catalog.UnreadFileIsLost` | src/openlabels/analytics/compaction.py:105-144 | a compaction of two files of which one cannot be read loses its row |
| `Catalog.BrokenFlushDoubles` | src/openlabels/analytics/flush.py:151-199 | a flush that breaks off after a file, and the next one: a row is held twice |
| `Catalog.RowsInPlace` | src/openlabels/analytics/flush.py:204-255 | over every run each row is in the directory of its tenant and date |
| `CatalogWriter.Group` | src/openlabels/analytics/flush.py:210-213 | groups the positions by partition, in order, none left out |
| `CatalogWriter.Writer.WritePartitioned` | src/openlabels/analytics/flush.py:204-219 | one file per partition with its rows, until a write fails |
| `CatalogWriter.Writer.WriteNewRows` | src/openlabels/analytics/flush.py:151-167 | reads what is after the cursor, writes the groups and returns the cursor to be saved |
| `CatalogWriter.FlushEvents` | src/openlabels/analytics/flush.py:136-200 | three tables and one save: all cursors move if every write succeeds, and otherwise none, which for a table already written is a broken flush |
| `CatalogWriter.Writer.CompactPartition` | src/openlabels/analytics/compaction.py:91-144 | merges what can be read, writes it, and deletes every listed file |
| `CatalogWriter.Writer.CompactTable` | src/openlabels/analytics/compaction.py:36-88 | compacts each partition with enough files, counting them |
| `CatalogWriter.TableCompactionIsRun` | src/openlabels/analytics/compaction.py:36-88 | a table compaction is a run of compactions, one for each partition |

## Left out

- Unicode: letters, digits and spaces of the filter language are the ASCII ones, and case conversion is that of ASCII.
- Floats: decimals of filters, token levels and clock readings are exact reals; rounding, infinities and the digit limit of
  Python's `int` are not modelled.
- Regular expressions and Python's `str` of values that are not strings are parameters of the executor.
- Enum attributes of objects other than the unwrapping of `.value`, and sequences or other types that define their own order.
- Pipeline: cancellation of the asyncio tasks themselves, and the tier counters of `record_result`; what `process_fn` and
  `commit_fn` do is an arbitrary outcome of a step. Locks are held only within a step, so they do not appear.
- Directory index: the walk and the identities of new rows are parameters; inode-based parent resolution, security descriptors,
  checkpoints and the row counts that the database returns for a delete. Distinct walked paths are required, because
  the database refuses an upsert that touches a row twice.
- Fan-out: how samples and prefixes are obtained, and the decision whether to fan out.
- Job queue: a session holds one job at a time and commits each write but a claim at once; what it sees of a row deleted meanwhile is
  an error of the call. Payloads, results and error texts; the per-tenant `max_concurrent` check of `dequeue`, which counts and then claims and so
  bounds nothing under concurrency; expiry statistics. The bulk requeue is one event for each row.
- Scheduler: cron expressions are sets of times with their next and previous occurrence; `next_run_at` is written and never read by the
  decision.
- OCR: recognition and bounding boxes; the line group of each block is given. The interval tree is taken to return the stored
  intervals that overlap the half-open span.
- Token bucket: the HTTP retry loop around it.
- Circuit breaker: the times of last success and failure in the statistics, the exceptions that do not count as failures, and the registry.
- Inventory: risk, label and exposure fields, the folder twins of the same code, Redis, and rows that other sessions change meanwhile.
- Catalog: the order of rows within a file, scan results and inventory snapshots, and the three event tables, which share one shape. Two writes in the same
  microsecond can take the same name; conservation is stated for fresh names.
- InventoryService.Service.MarkMissingFiles: does not return the row count.
- Scheduler.Schedule.MaybeTrigger: does not model the job row that is enqueued beyond counting it.
