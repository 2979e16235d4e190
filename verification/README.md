# code-indexer: models and proofs

This project models the parts of code-indexer whose correctness depends on loops,
shared state and failure paths, and proves what they promise. Every statement holds
for all inputs, all runs or all schedules; git, the daemon, the indexer, the embedding
providers and the event loop are scripts or steps that may answer in any way. Reading
and writing the progress file may fail, silently or not, at every point where the
source reads or writes it.

| module | models |
|---|---|
| `WatchSteps`, `WatchMarks`, `WatchLoss`, `WatchHandler` | the temporal watch handler: a polling thread and a file-event thread over a shared hash, branch, in-memory set and persisted set |
| `DaemonConnection`, `DaemonDelegation` | connecting to the daemon with back-off; the attempt / restart / fallback loops of the query, the temporal query and the index command |
| `ErrorCodes`, `EligibleCalls`, `CallRewriting`, `CallReading`, `Splicing`, `Overlaps`, `ErrorLogMigrator`, `MigratedFiles` | handing out error codes over syntax trees and files; the text of a rewritten call and what a reader finds in it; splicing the calls bottom-up, also when they overlap; the whole migration |
| `Brackets`, `BalancedText`, `ExtraDict`, `CorrelationUpdater`, `UpdatedLines` | the quote-aware parenthesis scanners; adding a correlation id to a logging call |
| `PlainScanner`, `MultilineFixer`, `FixedLines`, `MultilineSecondPass` | the same for calls over several lines: the third scanner, a loop that splices the list it walks, and a second pass |
| `SlimDescriptions` | setting `slim_description` in the frontmatter of a document |
| `QueryArgs`, `QueryWords` | the hand-written parser of the fast query path |
| `ProviderLoop` | temporal indexing with further embedding providers, and its exit code |
| `Escalation`, `Metrics`, `Sorting` | semaphore-bounded requests, concurrency levels, nearest-rank percentiles |
| `AsyncFinder` | the syntax-tree visitor that finds async definitions |
| `Text` | Python's string operations on sequences |

`dafny verify dfyconfig.toml` checks the whole project.

## Where a promise fails

The code is modelled as it is. Where a promise does not hold for all inputs, a lemma
gives an input on which it fails and another one states when it holds: exactly, except
for the second pass of the multi-line fixer, for the error codes that keep a rewritten
call balanced and for the place of a merged dict, where the condition is sufficient, and
for the close found by the multi-line scanner, where the exact statement is about the
scanners' states and two misleading escapes can cancel.

- Watch handler: the catch-up adds commits to memory before it writes them, so a write
  that fails is not retried by the next catch-up (`FailedWriteIsNotRetried`,
  `CatchUpCanLose`). A progress file that cannot be read is taken for an empty one, so a
  handler can end without an error and leave only its own commits on disk
  (`UnreadWriteErases`, `CommitHandlerCanErase`). `NoCommitLostIff` covers both. Without
  an indexer the catch-up marks commits that were never indexed (`MarksUnindexed`). An
  empty `rev-list` output lists one empty commit (`EmptyListing`).
- Connect loop: a socket leaks exactly when setting its timeout fails
  (`LeakIffSetTimeoutFailed`, `SocketCanLeak`).
- Delegation: an error while starting the daemon leaves the command without an answer
  and without fallback (`ExitMeaning`, `StartFailurePropagates`). The index command can close a connection
  twice (`IndexClosesAgainIff`, `IndexCanCloseAgain`). The temporal query announces
  standalone mode but only returns 1 (`GaveUp`); the model follows the code.
- Migration: calls that overlap are spliced with stale line numbers. When one starts below
  the first line of the other, the lines behind the outer call are lost that the inner one
  gave up (`NestedCallSwallows`, `LineIsSwallowed`). When both start on the same line, the
  first message is wrapped twice and the second is gone (`SameStartWrapsTwice`); the lines
  behind stay if the second call is on one line (`SecondMessageIsLost`) and are lost by its
  further lines otherwise (`LineBehindIsSwallowed`), and the order of recording matters
  (`OrderMatters`). The rewriting is the simultaneous substitution when the ranges are
  disjoint, and `RecordedDisjointIff` says for which syntax trees they are. Other text on
  the lines of a call is lost (`OnlyTheCallSurvives`, `ConditionIsLost`). A code that ends
  in a backslash leaves the new call open (`BackslashCodeStaysOpen`).
- Correlation ids on one line: a dict is merged where its text stands, also inside a string
  literal, and then the message is edited and the call gets no argument
  (`MessageIsEdited`); a new argument is always outside strings (`ArgumentOutsideStrings`).
- Slim descriptions: the rewritten document does not split into the same parts when a
  trailing slim line is removed and the line before it ends in a dash
  (`RewrittenSplitsIff`, `DashDocument`). A value with a newline can leave lines behind
  (`LastWriteWinsIff`), and applying it twice is then not applying it once
  (`DocumentIdempotentIff`); `TwoLinesFail` shows both for one value, and
  `TwoLinesDocument` the second for the smallest document.
- Multi-line scanner: it ignores backslashes. It stays in step with the other two scanners
  exactly when every escaped character before the close is one it ignores anyway
  (`InStepIff`), and then finds the same close (`ScannerAgrees`). `EscapedQuoteMisleads`
  is a text on which it does not, `TwoEscapesCancel` one on which it does although out
  of step. `PrefixDecides` says which text before the call misleads it.
- Multi-line fixer: the new argument goes in front of the last `)` of the lines, which can
  belong to another call (`FixLandsInside`, `FixCanMissTheCall`). A second pass over the
  file can insert again (`SecondPassCanInsert`, `SecondPassChangesNothing`).
- Concurrency 0 never returns unless there is nothing to send, and a negative one is
  refused (`MaximalRunsFinishIff`, `RunScenarioEscalation`).

## Model

| member | source | states |
|---|---|---|
| `WatchMarks.MarkedOnlyAfterIndexing` | src/code_indexer/cli_temporal_watch_handler.py:176-447 | over every interleaving of both threads with any failures, a commit enters the persisted set only through another program or through a handler that listed it and then, in the same activation, indexed without error |
| `WatchMarks.EachEntryIsEarned` | src/code_indexer/cli_temporal_watch_handler.py:176-447 | the same at every single step of a run: each time a commit enters the persisted set, also again after it was erased, another program put it there or a handler that listed it and then indexed without error |
| `WatchLoss.NoCommitLostIff` | src/code_indexer/cli_temporal_watch_handler.py:205-398 | over every run, with failing, silently failing and raising reads and writes: a handler that ends without error leaves all it listed persisted iff, where its own write could read the file, every listed commit that the run had erased (for a catch-up, also one an earlier catch-up failed to write) is on disk or about to be written, and where it could not, it took every listed commit for new |
| `WatchLoss.NoCommitLost` | src/code_indexer/cli_temporal_watch_handler.py:205-398 | in runs in which files are read before they are written, other programs only add and no write of the file-event thread fails beforehand, every handler that ends without error leaves all it listed persisted |
| `WatchLoss.RunInv` | src/code_indexer/cli_temporal_watch_handler.py:59-66 | run invariant: memory is on disk, about to be, lost by a failed catch-up write or erased; so is what a handler listed and did not take for new |
| `WatchLoss.FailedWriteIsNotRetried` | src/code_indexer/cli_temporal_watch_handler.py:388-390 | after a failed write the next catch-up listing the same commits ends without error and writes nothing |
| `WatchLoss.CatchUpCanLose` | src/code_indexer/cli_temporal_watch_handler.py:388-390 | a concrete run in which the only commit is lost |
| `WatchLoss.UnreadWriteErases` | src/code_indexer/services/temporal/temporal_progressive_metadata.py:135-148 | a commit handler whose write cannot read the file ends without error and leaves exactly its own new commits on disk |
| `WatchLoss.CommitHandlerCanErase` | src/code_indexer/services/temporal/temporal_progressive_metadata.py:193-217 | a concrete run in which a listed commit completed before is gone |
| `WatchSteps.ListingReadsBack` | src/code_indexer/cli_temporal_watch_handler.py:209-216 | for every non-empty list of commits without white space at their ends, and any white space around the output, what git printed one per line is what is listed |
| `WatchSteps.EmptyListing` | src/code_indexer/cli_temporal_watch_handler.py:209-216 | an empty listing is one empty commit |
| `WatchLoss.MarksUnindexed` | src/code_indexer/cli_temporal_watch_handler.py:386-447 | without an indexer the catch-up persists commits in a run that indexed nothing |
| `WatchHandler.TemporalWatchHandler.constructor` | src/code_indexer/cli_temporal_watch_handler.py:46-66 | starts in an initial state: the given branch and hash, memory loaded from disk (empty if it cannot be read), nothing running |
| `WatchHandler.TemporalWatchHandler.OnModified` | src/code_indexer/cli_temporal_watch_handler.py:146-171 | a refs-directory event checks for a commit, a HEAD event for a branch switch, others do nothing; each is a run of the step system with the given answers, and the whole new state of hash, branch, memory and disk is stated |
| `WatchHandler.TemporalWatchHandler.CheckForCommit` | src/code_indexer/cli_temporal_watch_handler.py:154-185 | reads the hash, and only if it changed stores it and handles the commit, with what that leaves on disk; a run of the step system |
| `WatchHandler.TemporalWatchHandler.HandleCommitDetected` | src/code_indexer/cli_temporal_watch_handler.py:204-280 | load, list, index, mark is a run of the step system following the given answers, also on each failure; the disk gets exactly the listed commits if all four succeed and is unchanged if one fails |
| `WatchHandler.TemporalWatchHandler.IndexAndMark` | src/code_indexer/cli_temporal_watch_handler.py:232-280 | the second half: nothing is marked unless indexing returned |
| `WatchHandler.TemporalWatchHandler.HandleBranchSwitch` | src/code_indexer/cli_temporal_watch_handler.py:324-344 | a new branch is stored, then caught up; the same branch changes nothing |
| `WatchHandler.TemporalWatchHandler.CatchUpTemporalIndex` | src/code_indexer/cli_temporal_watch_handler.py:356-398 | list and filter by memory is a run of the step system following the given answers; memory gets the listed commits, the disk those memory did not have |
| `WatchHandler.TemporalWatchHandler.IndexIncrementally` | src/code_indexer/cli_temporal_watch_handler.py:386-447 | index, then memory, then disk, in that order, as steps |
| `WatchHandler.ProgressiveMetadata.MarkCompleted` | src/code_indexer/services/temporal/temporal_progressive_metadata.py:93-97 | adds the given commits to what it could read: to nothing, if the file cannot be read; unchanged if it fails before the write |
| `WatchHandler.ProgressiveMetadata.LoadCompleted` | src/code_indexer/services/temporal/temporal_progressive_metadata.py:99-111 | the persisted set, or nothing if the file cannot be read |
| `DaemonConnection.ConnectToDaemon` | src/code_indexer/cli_daemon_delegation.py:97-149 | result and actions of the retry loop, try by try |
| `DaemonConnection.TriesMadeMeaning` | src/code_indexer/cli_daemon_delegation.py:100-149 | the tries made are the consecutive ones up to the first that connects, fails for good or is the last allowed |
| `DaemonConnection.ConnectOutcome` | src/code_indexer/cli_daemon_delegation.py:97-149 | a connection iff the last try made connects; nothing iff the list of delays is empty; else the last try's error |
| `DaemonConnection.ConnectRhythm` | src/code_indexer/cli_daemon_delegation.py:100-141 | tries and pauses alternate: between a try and the next exactly the delay of the first, and no other pause |
| `DaemonConnection.SocketsOfTries` | src/code_indexer/cli_daemon_delegation.py:103-131 | a try made creates its socket unless that fails and closes it exactly if anything from connecting on fails |
| `DaemonConnection.ConnectSleepBounded` | src/code_indexer/cli_daemon_delegation.py:139-141 | sleeps at most the sum of all delays but the last |
| `DaemonConnection.LeakIffSetTimeoutFailed` | src/code_indexer/cli_daemon_delegation.py:103-131 | each created socket is closed or returned, except exactly those whose timeout could not be set in a try that was made |
| `DaemonConnection.SocketCanLeak` | src/code_indexer/cli_daemon_delegation.py:103-107 | a script whose socket is neither closed nor returned |
| `DaemonDelegation.QueryViaDaemon` | src/code_indexer/cli_daemon_delegation.py:427-511 | exit and actions of the query's recovery loop, attempt by attempt: connect, call and display before the protected close |
| `DaemonDelegation.QueryTemporalViaDaemon` | src/code_indexer/cli_daemon_delegation.py:1337-1425 | exit and actions of the temporal query's loop: an error reply closes and returns 1, a display error retries |
| `DaemonDelegation.IndexViaDaemon` | src/code_indexer/cli_daemon_delegation.py:759-1117 | exit and actions of the index command's loop, with the connection variable shared by all attempts: an unprotected close before the display, and the status decides the code |
| `DaemonDelegation.ExitMeaning` | src/code_indexer/cli_daemon_delegation.py:436-511 | how a run ends, in terms of the script alone, both directions: first attempt that does not fail answers; fallback (or giving up) iff all three fail; error iff a start raises; the trailing return is unreachable |
| `DaemonDelegation.StartFailurePropagates` | src/code_indexer/cli_daemon_delegation.py:484-497 | a script for which every command ends with the error of the failed start |
| `DaemonDelegation.ProtocolFollowed` | src/code_indexer/cli_daemon_delegation.py:436-508 | an independent monitor accepts every run of all three commands: the attempts the script reaches, at most three; a clean-up and one restart between two, followed by 1000 ms of rest, 1500 if a daemon was launched; as many calls as connections, one per attempt that connects; an answer only after a call and after showing the reply, shown with the connection open by the queries and after closing it by the index command; the connection closed before anything else; fallback once and last iff the exit says so; queries never close twice |
| `DaemonDelegation.OneCallPerConnection` | src/code_indexer/cli_daemon_delegation.py:441-475 | in every trace of every command exactly one call stands between a connection and its first close |
| `DaemonDelegation.CalledInTime` | src/code_indexer/cli_daemon_delegation.py:441-475 | the same for any trace the monitor accepts |
| `DaemonDelegation.EveryConnectionClosed` | src/code_indexer/cli_daemon_delegation.py:470-482 | after every connection a close of it follows, before the next attempt, restart, fallback or the end |
| `DaemonDelegation.ClosedInTime` | src/code_indexer/cli_daemon_delegation.py:470-482 | what the monitor's acceptance means for any trace |
| `DaemonDelegation.IndexClosesAgainIff` | src/code_indexer/cli_daemon_delegation.py:773-1064 | the index command closes a closed connection iff a reached attempt fails behind its own close, or cannot connect after an earlier one could |
| `DaemonDelegation.IndexCanCloseAgain` | src/code_indexer/cli_daemon_delegation.py:934-1064 | a script in which it does |
| `DaemonDelegation.SleepBounded` | src/code_indexer/cli_daemon_delegation.py:436-497 | no command sleeps longer than three connect back-offs plus three seconds |
| `Splicing.SplicingIsSubstitution` | scripts/migration/migrate_to_format_error_log.py:230-258 | for disjoint ranges in any order, the bottom-up splice loop is the simultaneous substitution of each range by text computed from the original lines |
| `Splicing.SpliceOrderIrrelevant` | scripts/migration/migrate_to_format_error_log.py:230-258 | two listings of the same disjoint ranges give the same lines |
| `ErrorLogMigrator.RecordedDisjointIff` | scripts/migration/migrate_to_format_error_log.py:42-70 | for any number of codes, the ranges recorded for a syntax tree are disjoint iff the calls that got one are pairwise apart; with enough codes iff no eligible call has another one inside and no two share a line |
| `ErrorLogMigrator.ContentIsSubstitution` | scripts/migration/migrate_to_format_error_log.py:224-274 | for disjoint ranges the rewritten file is the simultaneous substitution, plus the import line |
| `MigratedFiles.CallReadsBack` | scripts/migration/migrate_to_format_error_log.py:230-258 | after the substitution every transformed call is read from a line, with the indentation of its first line, its level, its code and its message |
| `MigratedFiles.MigratedFileReadsBack` | scripts/migration/migrate_to_format_error_log.py:224-274 | the same for the whole migrated file: the k-th eligible call with the k-th code |
| `MigratedFiles.SilentCallKept` | scripts/migration/migrate_to_format_error_log.py:245-247 | a call from which nothing can be extracted keeps its lines |
| `MigratedFiles.ImportIff` | scripts/migration/migrate_to_format_error_log.py:263-266 | a line counts as an import iff behind white space it begins with one of the two words and goes on |
| `MigratedFiles.ImportPlaced` | scripts/migration/migrate_to_format_error_log.py:260-272 | the import line goes behind the last import, or to the top |
| `Overlaps.NestedCallSwallows` | scripts/migration/migrate_to_format_error_log.py:230-258 | for a call inside another the outer slice reaches beyond its own end by the lines the inner one gave up |
| `Overlaps.FollowingLinesAreGone` | scripts/migration/migrate_to_format_error_log.py:230-258 | if that slice has content, those lines are gone and all others stay |
| `Overlaps.LineIsSwallowed` | scripts/migration/migrate_to_format_error_log.py:230-258 | five concrete lines of which the last, outside both calls, is lost |
| `Overlaps.SameStartOrder` | scripts/migration/migrate_to_format_error_log.py:230-258 | two calls that start on the same line are spliced in the order in which they were recorded |
| `Overlaps.SameStartWrapsTwice` | scripts/migration/migrate_to_format_error_log.py:176-258 | the exact result for any two calls with the same start: the first message wrapped with both codes, the second gone, and behind the first call as many lines lost as the second spans beyond its first |
| `Overlaps.SecondMessageIsLost` | scripts/migration/migrate_to_format_error_log.py:176-258 | two calls on one concrete line, with the line behind kept |
| `Overlaps.LineBehindIsSwallowed` | scripts/migration/migrate_to_format_error_log.py:176-258 | a concrete file of four lines of which the last, outside both calls, is lost |
| `Overlaps.OrderMatters` | scripts/migration/migrate_to_format_error_log.py:230-258 | a line for which the two orders of recording give different files |
| `Overlaps.OnlyTheCallSurvives` | scripts/migration/migrate_to_format_error_log.py:230-258 | a line is rewritten as if only its indentation and its first call stood there |
| `Overlaps.ConditionIsLost` | scripts/migration/migrate_to_format_error_log.py:230-258 | a concrete line whose condition disappears |
| `Splicing.SpliceCalls` | scripts/migration/migrate_to_format_error_log.py:230-258 | the in-place loop is the fold of single splices over the ranges sorted by descending start |
| `Splicing.SortDescending` | scripts/migration/migrate_to_format_error_log.py:233 | the sort used is descending in the start line |
| `ErrorLogMigrator.TransformFileContent` | scripts/migration/migrate_to_format_error_log.py:224-274 | the spliced lines, with one import line behind the last import iff it was missing and there are transformations |
| `ErrorLogMigrator.FindImportPoint` | scripts/migration/migrate_to_format_error_log.py:260-272 | the loop finds the insertion point |
| `ErrorLogMigrator.ImportPointIsLast` | scripts/migration/migrate_to_format_error_log.py:260-272 | that point is behind the last import line, or 0 without one |
| `CallRewriting.RewrittenCallIsBalanced` | scripts/migration/migrate_to_format_error_log.py:176-221 | a rewritten call is one call whose own parenthesis closes at its very end, whatever the original held and whatever follows, for every code that can stand in a double-quoted literal |
| `CallReading.FindLoggerCallIff` | scripts/migration/migrate_to_format_error_log.py:187-193 | the call found is exactly the leftmost `logger.`, word, white space and parenthesis, and none iff there is none |
| `CallReading.ContentMeaning` | scripts/migration/migrate_to_format_error_log.py:176-200 | the content is what the call's own parentheses enclose, stripped, and empty iff there is no call, it never closes or it encloses only white space |
| `CallReading.ReadBack` | scripts/migration/migrate_to_format_error_log.py:203-221 | an independent reader finds in a rewritten call, whatever follows it, exactly the indentation, level and code it was given and the message of the original |
| `CallRewriting.RewrittenContent` | scripts/migration/migrate_to_format_error_log.py:176-221 | extracting from a rewritten call, whatever follows it, gives its wrapped arguments |
| `CallRewriting.PlainCode` | scripts/migration/migrate_to_format_error_log.py:82-102 | a code without quotes and backslashes can stand in such a literal |
| `CallRewriting.BackslashCodeStaysOpen` | scripts/migration/migrate_to_format_error_log.py:82-102 | with a backslash as its code the rewritten call never closes |
| `EligibleCalls.EligibleReport` | scripts/migration/migrate_to_format_error_log.py:42-79 | the calls recorded are exactly the `warning`, `error` and `critical` calls of `logger` with no call of `format_error_log` among their positional arguments and below no call that has one, in pre-order of their paths, each with its own lines and level |
| `ErrorCodes.LoggerCallTransformer.LooksMigrated` | scripts/migration/migrate_to_format_error_log.py:71-79 | the loop over the arguments finds whether one is a call of `format_error_log` |
| `ErrorCodes.LoggerCallTransformer.Visit` | scripts/migration/migrate_to_format_error_log.py:42-70 | visiting records exactly the eligible calls of the tree with the next codes |
| `ErrorCodes.LoggerCallTransformer.VisitAll` | scripts/migration/migrate_to_format_error_log.py:42-70 | the same for a list of trees |
| `ErrorCodes.RecordIsAssign` | scripts/migration/migrate_to_format_error_log.py:42-70 | recording one by one pairs the sites with the unspent codes until either runs out |
| `ErrorLogMigrator.MigrateFiles` | scripts/migration/migrate_to_format_error_log.py:277-323 | over all files the recorded calls are the eligible ones in file and traversal order paired with exactly a prefix of the codes, distinct if these are, running out only when all are spent; all four statistics agree; each file gets the codes behind those of the files before it and is rewritten with its own calls |
| `ErrorLogMigrator.MigrateFile` | scripts/migration/migrate_to_format_error_log.py:105-128 | one file: its eligible calls with the available codes, and what is written back |
| `Brackets.FindMatchingParen` | scripts/update_logging_correlation_ids.py:121-172 | the first position where the quote- and backslash-aware depth returns to zero, or -1 iff there is none |
| `Brackets.FindMatchingParenAfter` | scripts/migration/migrate_to_format_error_log.py:131-173 | the distance to the first close; 0 iff there is none or it follows at once |
| `Brackets.ScannersAgree` | scripts/migration/migrate_to_format_error_log.py:131-173 | on every text and open parenthesis the two scanners agree after rebasing, and exactly when the second one's 0 is ambiguous |
| `BalancedText.CloseIffBalanced` | scripts/update_logging_correlation_ids.py:134-172 | the scanners find q iff a close stands at q and the text before it is a balanced forest of a grammar with string literals |
| `BalancedText.QuotesHide` | scripts/update_logging_correlation_ids.py:134-172 | a parenthesis between two quotes of either kind is passed over |
| `BalancedText.BackslashHides` | scripts/update_logging_correlation_ids.py:134-172 | so is any character behind a backslash |
| `Brackets.FirstCloseMeaning` | scripts/update_logging_correlation_ids.py:134-172 | the search finds exactly the first return to depth zero |
| `Brackets.ReplacementShiftsClose` | scripts/update_logging_correlation_ids.py:134-172 | replacing text by text that leads to the same scanner state moves the close by the difference in length |
| `ExtraDict.MergeIsEdit` | scripts/update_logging_correlation_ids.py:215-238 | the nested string replaces make exactly one edit at the matched dict |
| `ExtraDict.MatchUnique` | scripts/update_logging_correlation_ids.py:216-217 | a position has at most one match of the dict pattern |
| `ExtraDict.FirstOccurrenceIsMatch` | scripts/update_logging_correlation_ids.py:216-235 | the first textual occurrence of the matched dict is the match itself |
| `CorrelationUpdater.LoggingCorrelationUpdater.UpdateLoggingCall` | scripts/update_logging_correlation_ids.py:174-240 | the counter moves by one exactly when the line changes |
| `CorrelationUpdater.UpdateIsEdit` | scripts/update_logging_correlation_ids.py:189-240 | an update is one edit strictly inside the call's parentheses and always changes the line |
| `UpdatedLines.FindCallIff` | scripts/update_logging_correlation_ids.py:192-194 | the call found is exactly the leftmost `logger.`, level, white space and parenthesis anywhere on the line, and none iff there is none |
| `UpdatedLines.IdIff` | scripts/update_logging_correlation_ids.py:70-80 | an id is recognised exactly as a quoted key in the braces of an `extra` argument |
| `UpdatedLines.DictIff` | scripts/update_logging_correlation_ids.py:216-217 | the dict pattern matches exactly `extra`, `=` and braces, with white space around the `=` |
| `UpdatedLines.UpdatedIff` | scripts/update_logging_correlation_ids.py:189-240 | a line changes iff it has no id, a call that closes, and in it no `extra=` or a dict |
| `UpdatedLines.NewArgumentAdded` | scripts/update_logging_correlation_ids.py:206-213 | the text of the new line, for every call in parts: the whole argument in front of the call's own close |
| `UpdatedLines.DictIsMerged` | scripts/update_logging_correlation_ids.py:215-238 | the same for a dict: a blank one is filled, another one gets the item at its end |
| `CorrelationUpdater.ArgumentOutsideStrings` | scripts/update_logging_correlation_ids.py:200-212 | where a new argument is inserted the scanner is outside string literals |
| `CorrelationUpdater.MessageIsEdited` | scripts/update_logging_correlation_ids.py:214-238 | a family of lines, for both quotes and any items, on which the edit lands inside the message |
| `CorrelationUpdater.CloseMovesByGrowth` | scripts/update_logging_correlation_ids.py:121-240 | rescanning an updated line from the same open parenthesis finds the close moved by exactly the growth |
| `CorrelationUpdater.UpdateUndone` | scripts/update_logging_correlation_ids.py:189-240 | putting the replaced text back restores the line; unless an empty dict was filled this is a plain deletion |
| `CorrelationUpdater.UpdatedHasId` | scripts/update_logging_correlation_ids.py:70-80 | every changed line passes the test for a correlation id |
| `CorrelationUpdater.UpdateIdempotent` | scripts/update_logging_correlation_ids.py:174-240 | updating twice is updating once, for every line and level |
| `PlainScanner.FindFunctionCallEnd` | scripts/fix_multiline_logging_calls.py:59-108 | the line-by-line loop with its span limit |
| `PlainScanner.CallEndIsLineOfClose` | scripts/fix_multiline_logging_calls.py:80-108 | it finds the line of the first close of the joined text iff that is at most the span away |
| `PlainScanner.ScannerAgrees` | scripts/fix_multiline_logging_calls.py:80-108 | it finds the same close as the other scanners if the text before the call leaves it as it began and every escaped character up to the close is one it ignores |
| `PlainScanner.InStepIff` | scripts/fix_multiline_logging_calls.py:93-106 | it is in the same state as the other scanners all the way to the close iff every escaped character before it is one it ignores |
| `PlainScanner.PrefixDecides` | scripts/fix_multiline_logging_calls.py:80-108 | for a call that closes, with harmless escapes and no string open before it: the same close iff the text before the call closes nothing and leaves no parenthesis open |
| `PlainScanner.EscapedQuoteMisleads` | scripts/fix_multiline_logging_calls.py:93-106 | a text of seven characters on which it stops two early |
| `PlainScanner.TwoEscapesCancel` | scripts/fix_multiline_logging_calls.py:93-106 | a text on which it finds the same close although out of step, so that being in step is not necessary |
| `PlainScanner.NoBackslashIsHarmless` | scripts/fix_multiline_logging_calls.py:93-106 | text without backslashes meets the condition |
| `FixedLines.CandidateIff` | scripts/fix_multiline_logging_calls.py:186-189 | a candidate is a line with a call of one of the six levels and without the word |
| `FixedLines.ArgumentAdded` | scripts/fix_multiline_logging_calls.py:132-142 | the text of a call that gets the argument |
| `FixedLines.DictMerged` | scripts/fix_multiline_logging_calls.py:144-168 | the text of a call whose first dict is merged |
| `FixedLines.IdWordsIff` | scripts/fix_multiline_logging_calls.py:118-120 | a call has the id iff it contains the name of the function that yields it |
| `FixedLines.FixedIff` | scripts/fix_multiline_logging_calls.py:122-170 | a call changes iff it has no id and either no `extra=` but a parenthesis, or a dict |
| `FixedLines.SegmentMeaning` | scripts/fix_multiline_logging_calls.py:182-222 | a line is taken alone unless it is a candidate whose call ends within the span; then its lines are taken and rewritten iff the call changes |
| `MultilineFixer.FixIsEdit` | scripts/fix_multiline_logging_calls.py:122-170 | a fix is one edit, and exactly the edited calls change |
| `MultilineFixer.FixLandsInside` | scripts/fix_multiline_logging_calls.py:132-162 | a new argument lands between the call's own parentheses iff no other closing parenthesis follows them in the text; a merged dict if it stands there and not if it stands outside |
| `MultilineFixer.FixCanMissTheCall` | scripts/fix_multiline_logging_calls.py:133-142 | a line on which the argument goes to another call |
| `MultilineFixer.FixedHasId` | scripts/fix_multiline_logging_calls.py:118-170 | every changed call carries the id |
| `MultilineFixer.FixIdempotent` | scripts/fix_multiline_logging_calls.py:122-170 | fixing a call twice is fixing it once |
| `MultilineFixer.FixLineCount` | scripts/fix_multiline_logging_calls.py:122-170 | a fix removes exactly the newlines of the blank dict it fills and adds none |
| `MultilineFixer.MultiLineLoggingFixer.ProcessLines` | scripts/fix_multiline_logging_calls.py:172-222 | the loop that splices the list it walks terminates with the results of the segments; modified iff the counter grew, by the number of rewritten segments |
| `MultilineFixer.SegmentsPartition` | scripts/fix_multiline_logging_calls.py:182-222 | the segments cover the original lines in order without gaps |
| `MultilineFixer.SegmentsAreLawful` | scripts/fix_multiline_logging_calls.py:182-222 | lines outside rewritten calls are unchanged; a rewritten span is within the limit and holds the fixed call |
| `MultilineFixer.LineCountNeverGrows` | scripts/fix_multiline_logging_calls.py:182-222 | the list never grows |
| `MultilineSecondPass.SecondPassChangesNothing` | scripts/fix_multiline_logging_calls.py:172-222 | a second pass changes nothing if after the first one each segment, with the lines behind it, is a call that ends with it and needs no fix, or is walked line by line with no candidate but a first line whose call stays open |
| `MultilineSecondPass.SecondPassRewrites` | scripts/fix_multiline_logging_calls.py:172-222 | a family of files in which it rewrites a further line |
| `MultilineSecondPass.SecondPassCanInsert` | scripts/fix_multiline_logging_calls.py:172-222 | two concrete lines to which it adds a second argument |
| `SlimDescriptions.EscapeIsPerCharacter` | scripts/mcp/apply_slim_descriptions.py:46-53 | the two sequential replaces are one map over the characters |
| `SlimDescriptions.ValueReadsBack` | scripts/mcp/apply_slim_descriptions.py:46-58 | reading the line as a YAML double-quoted scalar (section 7.3.1 of YAML 1.2.2) gives the value with nothing left over iff it has no line break or control character |
| `SlimDescriptions.ApplySlimToLines` | scripts/mcp/apply_slim_descriptions.py:76-102 | the in-place replace / pop / insert loop on the lines |
| `SlimDescriptions.ApplySlimToFrontmatter` | scripts/mcp/apply_slim_descriptions.py:61-102 | the same on text |
| `SlimDescriptions.OtherLinesKept` | scripts/mcp/apply_slim_descriptions.py:76-102 | around the new line stand exactly the other lines, in order |
| `SlimDescriptions.PlaceOfSlim` | scripts/mcp/apply_slim_descriptions.py:76-102 | the new line takes the place of the first slim line, all further ones being dropped; without one it goes right behind the first `tl_dr` line, without either to the end |
| `SlimDescriptions.LinesBegin` | scripts/mcp/apply_slim_descriptions.py:80-94 | the texts by which the two kinds of lines are known |
| `SlimDescriptions.AppliedLines` | scripts/mcp/apply_slim_descriptions.py:76-102 | the lines of the edited text, also for values with newlines |
| `SlimDescriptions.ExactlyOneSlimLine` | scripts/mcp/apply_slim_descriptions.py:76-102 | a value without newline leaves exactly one slim line, the new one, and all other lines in order |
| `SlimDescriptions.LastWriteWinsIff` | scripts/mcp/apply_slim_descriptions.py:76-102 | applying a then b equals applying b iff a leaves no residue |
| `SlimDescriptions.OneLineNoResidue` | scripts/mcp/apply_slim_descriptions.py:76-102 | a value without newline leaves none |
| `SlimDescriptions.SplitsBackIff` | scripts/mcp/apply_slim_descriptions.py:148-161 | a rebuilt document splits into the same parts iff prefix and frontmatter are clean |
| `SlimDescriptions.CleanMeaning` | scripts/mcp/apply_slim_descriptions.py:148-161 | clean means no delimiter inside and no final dash |
| `SlimDescriptions.PartsAreClean` | scripts/mcp/apply_slim_descriptions.py:148-161 | a document that splits is the rebuilding of its parts, and these are clean |
| `SlimDescriptions.RewrittenSplitsIff` | scripts/mcp/apply_slim_descriptions.py:148-161 | the rewritten document splits into the same prefix, the edited frontmatter and the same body iff the value has no delimiter and the remaining frontmatter no final dash |
| `SlimDescriptions.DocumentIdempotentIff` | scripts/mcp/apply_slim_descriptions.py:148-161 | applying the same value twice is applying it once iff the value has no delimiter and no residue |
| `SlimDescriptions.DocumentIdempotent` | scripts/mcp/apply_slim_descriptions.py:148-161 | hence for every document and every value without newline and delimiter |
| `SlimDescriptions.DashNeedsTrailingSlim` | scripts/mcp/apply_slim_descriptions.py:76-102 | the final dash only comes up when the last line was a slim line |
| `SlimDescriptions.DashComesUp` | scripts/mcp/apply_slim_descriptions.py:76-161 | a family of documents that split into their parts and, whatever the value, do not split into the edited parts after the rewrite |
| `SlimDescriptions.DashDocument` | scripts/mcp/apply_slim_descriptions.py:76-161 | one such document in full |
| `SlimDescriptions.ResidueOfTwoLines` | scripts/mcp/apply_slim_descriptions.py:76-102 | the residue of a value with a newline |
| `SlimDescriptions.TwoLinesFail` | scripts/mcp/apply_slim_descriptions.py:76-161 | for that value no later write wins and no document that splits survives a second application unchanged |
| `SlimDescriptions.TwoLinesDocument` | scripts/mcp/apply_slim_descriptions.py:76-161 | the smallest document, changed by a second application of a value with a newline |
| `QueryArgs.ParseQueryArgs` | src/code_indexer/cli_daemon_fast.py:39-168 | the index-stepping loop is the fold over the token list |
| `QueryArgs.ParsedMeaning` | src/code_indexer/cli_daemon_fast.py:57-168 | accepted iff no unknown flag or unreadable integer stands in flag position; every component is what the tokens say, each filter all its values in order, as nothing, scalar or list |
| `QueryWords.ClassifyIff` | src/code_indexer/cli_daemon_fast.py:57-68 | unknown iff it begins with two dashes and is none of the ten flags; a known flag iff it is that flag's text |
| `QueryWords.FirstTokenMeaning` | src/code_indexer/cli_daemon_fast.py:80-160 | exactly six flags take the argument behind them, if there is one |
| `QueryWords.ParseIntIff` | src/code_indexer/cli_daemon_fast.py:96 | accepted exactly are digits in groups joined by single underscores, with or without a sign, white space around; the value is their decimal value |
| `QueryArgs.PrintParseRoundTrip` | src/code_indexer/cli_daemon_fast.py:57-168 | for every accepted argument list, printing the result and parsing it again gives the same result |
| `QueryArgs.ShownIntParses` | src/code_indexer/cli_daemon_fast.py:96 | a shown integer parses back |
| `ProviderLoop.Turn` | src/code_indexer/cli_provider_loop.py:133-191 | one provider, from health check to the restoring block: the configured provider is as before, result and log depend on this provider's answers only |
| `ProviderLoop.RecordedMeaning` | src/code_indexer/cli_provider_loop.py:133-191 | from the answers alone: skipped iff the health check says no; failed iff it raises, or says yes and resolving, creating or indexing raises, with the error of the first that does; success iff all four answer, with exactly the counts returned |
| `ProviderLoop.RunExtraProviderTemporalLoop` | src/code_indexer/cli_provider_loop.py:109-191 | the whole loop; the configuration is restored |
| `ProviderLoop.ResultsMeaning` | src/code_indexer/cli_provider_loop.py:133-191 | keys are exactly the listed providers, each with the result of its own last turn |
| `ProviderLoop.NonInterference` | src/code_indexer/cli_provider_loop.py:133-191 | for every provider listed in two runs, over any two lists, the same result is recorded if its last turn gets the same answers in both |
| `ProviderLoop.EveryIndexerClosedOnce` | src/code_indexer/cli_provider_loop.py:133-191 | every indexer created is closed exactly once and marked as failed iff its turn fails |
| `ProviderLoop.RunExitCode` | src/code_indexer/cli_provider_loop.py:234-253 | the exit code of a whole run in terms of the answers of each provider's last turn |
| `ProviderLoop.ExitCode` | src/code_indexer/cli_provider_loop.py:234-253 | 2 iff some succeeded and some failed, 1 iff some failed and none succeeded, else 0 |
| `Escalation.RunConcurrentRequests` | tools/perf-suite/escalation.py:71-78 | for any schedule: refused iff the concurrency is negative, hangs iff it is 0 with work to do, else result i is task i's own |
| `Escalation.ReachableBounds` | tools/perf-suite/escalation.py:71-78 | in every reachable state at most the allowed number is in flight, queued plus in flight plus done is the count, and steps taken plus steps to come is twice the count |
| `Escalation.MaximalRunsFinishIff` | tools/perf-suite/escalation.py:71-78 | every run that cannot go on has finished all tasks in two steps each iff the concurrency is at least 1 or there are none |
| `Escalation.ResultsAreOwn` | tools/perf-suite/escalation.py:77-78 | in every run task i is done with r iff it finished with r |
| `Escalation.MeasureLevel` | tools/perf-suite/escalation.py:114-144 | warm-up and measurement at one level, each a complete run of the step system; when it is refused or hangs |
| `Escalation.RunScenarioEscalation` | tools/perf-suite/escalation.py:111-144 | level keys are exactly the requested levels, each with the metrics of its last measurement and as many requests as asked; refused iff some level is negative, hangs iff none is negative, level 0 is requested and there is work to do |
| `Metrics.PercentileMeaning` | tools/perf-suite/metrics.py:84-96 | defined iff the list is non-empty and the percentage between 0 and 100; then the least timing with at least that share up to it |
| `Metrics.PercentileUnique` | tools/perf-suite/metrics.py:84-96 | there is only one such timing |
| `Metrics.PercentilePermuted` | tools/perf-suite/metrics.py:84-96 | the order of the timings does not matter |
| `Metrics.PercentileMonotone` | tools/perf-suite/metrics.py:84-96 | a higher percentage never gives a smaller value |
| `Metrics.AggregateMeaning` | tools/perf-suite/metrics.py:131-174 | raw timings are the results' own, in order, and the error count is the number of failed results; p50 <= p95 <= p99 and each is its percentile; the error rate times the count is a hundred times the failures; throughput times time is the count; everything is zero without results |
| `Sorting.SortedMeaning` | tools/perf-suite/metrics.py:89 | sorting keeps the elements and puts them in ascending order |
| `AsyncFinder.AsyncFunctionFinder.Visit` | scripts/utils/async_to_sync_converter.py:75-117 | visiting appends the tree's entries, restores the current function, and leaves its own await flag to exactly the awaits no nested definition claims |
| `AsyncFinder.AsyncFunctionFinder.GenericVisit` | scripts/utils/async_to_sync_converter.py:75-117 | the same over all children |
| `AsyncFinder.AsyncFunctionFinder.ExtractDecorators` | scripts/utils/async_to_sync_converter.py:98-111 | the loop collects the names of plain, attribute and called decorators in order |
| `AsyncFinder.FindAsyncFunctions` | scripts/utils/async_to_sync_converter.py:66-96 | a fresh visitor reports the entries of the tree |
| `AsyncFinder.FinderReport` | scripts/utils/async_to_sync_converter.py:75-117 | on every tree: one entry per async definition, in strict post-order of paths, with its own name, lines and decorator names, and `hasAwait` iff some await has that definition as its nearest enclosing one |
| `AsyncFinder.BeforeIsStrict` | scripts/utils/async_to_sync_converter.py:75-96 | post-order never puts a path before itself, so no definition is reported twice |

## Left out

- The Click and Rich command files, progress display, RPyC, sockets, subprocess, git, watchdog and asyncio themselves: they appear only as outcomes.
- The server, the indexers, HNSW storage and embedding clients: outside the modelled core.
- Cache invalidation after indexing in the watch handler: the connect function is called with one argument where two are required and the error is swallowed, so it has no effect on the state.
- A watch handler without progress metadata, and commits staged but not flushed in that metadata: the handler stages none.
- Marking the progress file is one atomic step between the two threads; the fallback lock in `src/code_indexer/utils/file_locking.py` does not exclude threads of one process.
- A progress file in the legacy format, which loading rewrites without the lock.
- `git_refs_file` in the watch handler: it follows the branch and only selects which events arrive.
- A request function that raises in `run_concurrent_requests`: the default one returns failures as results.
- `detect_inflection`, fingerprint comparison, result files and the atomic results write: short walks or I/O that would add easy members.
- Floating-point rounding: timings and percentages are exact numbers.
- The regular expressions are written out as predicates for the fixed patterns used; `\w` is ASCII and the method name is a literal.
- `int()` on digits outside ASCII in query arguments, and the display half of the fast path.
- Hexadecimal escapes of YAML double-quoted scalars: the writer never produces them.
- `visit_ImportFrom` of the migrator: whether the import is present is an input; so is the parse result of each file.
- SplicingIsSubstitution: disjoint ranges only, since overlapping ones have no simultaneous substitution; what the loop does for two overlapping calls is NestedCallSwallows and SameStartWrapsTwice, and RecordedDisjointIff says when ranges overlap.
- SpliceOrderIrrelevant: disjoint ranges only; for calls that start on the same line the order matters (OrderMatters).
- ContentIsSubstitution: disjoint ranges only, as SplicingIsSubstitution.
- RewrittenCallIsBalanced: codes that cannot stand in a double-quoted literal are excluded, since the new call then need not close (BackslashCodeStaysOpen).
- Three and more calls that overlap.
- How Python's syntax tree counts lines where `splitlines` sees more breaks than the tokenizer.
- The probe socket and the process launch in `_start_daemon`; an import failure of RPyC is a first try that fails for good; `KeyboardInterrupt` is not modelled.
- SecondPassChangesNothing: a sufficient condition only; whether an unsettled segment is rewritten again depends on the lines that follow it.
- ScannerAgrees: a sufficient condition only, because out-of-step scanners can meet again (TwoEscapesCancel); the exact statement is InStepIff.
- The await-removal regular expression and the caller search of the async converter; `config.py`, `cli_fast_entry.py` and other tables and validators.
- Backups, dry runs and printing in the scripts.
