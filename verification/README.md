# OpenOxide: verified core

Dafny models of the parts of OpenOxide whose correctness is not visible from a single function:
two wildcard matchers, the file tree builder, the change-capture protocol, the crash-safe panel
restore, two stream decoders, the metric pipeline of the monitoring agent, the audit export and
the life of an AI generation. `dafny verify dfyconfig.toml` checks everything.

| file | models |
|---|---|
| Common.dfy | what several modules need: `Option`, enumerations of a set |
| Globs.dfy | what a wildcard pattern means: a text splits into one piece per token |
| Filter.dfy | agent/src/filter.rs, the one-pass matcher that remembers only the last star |
| WatchPaths.dfy | src/utils/watch_paths.rs, the recursive `*`/`**` matcher and the rule fold |
| Paths.dfy, FileTree.dfy | src/services/traefik.rs, flat file list to sorted tree |
| Reactive.dfy, ReactiveRuns.dfy, ReactiveHooks.dfy | src/db/reactive.rs, SQLite hooks, request buffers, background publishers: the steps, every run, the code |
| PanelRestore.dfy | src/db/connection/sqlite.rs, applying a staged restore at start-up |
| JsonLines.dfy | agent/src/docker/json_lines.rs, cutting a stream into JSON objects |
| Logs.dfy | agent/src/logs.rs, demultiplexing Docker log frames |
| Store.dfy | agent/src/store.rs, pruned deques against the full history |
| Rollup.dfy | agent/src/rollup.rs, average and peak windows |
| Containers.dfy, Streamer.dfy | agent/src/docker/types.rs and stream.rs, stream tokens |
| Cgroup.dfy | agent/src/collector/cgroup.rs, CPU accounting |
| Audit.dfy | src/api/handlers/audit.rs, CSV export |
| AiGenerations.dfy | src/db/repository/ai_generations.rs and the deployment in src/services/ai/service.rs |

## How the models are built

Code that loops or updates fields is a method or a class, proved against a function or a
declarative predicate. A protocol is a datatype of actions with a step function; the theorems
are about every sequence of actions, in any interleaving, and the class methods are tied to that
machine by a ghost history `run`. Bytes are integers 0..255, `f64` is `real`, and the clock is
a parameter.

Where an expected property does not hold of the code, the model keeps the code and the theorem
states exactly when it does:

- The container filter compares bytes before it looks for a star, so a star byte in the text can
  be taken for the pattern's. A text is judged correctly for every pattern exactly when no star
  stands before its last byte (`Filter.ExactTexts`).
- A path with an empty component gets a node beside the regular one of the same name, and the
  listing order shows (`FileTree.OrderMattersExactly`).
- Committed changes are lost exactly when a request that buffered some is dropped before it ends
  (`ReactiveRuns.LostExactlyByDrop`, reached by `CommittedCanBeLost`); a publisher that could not begin
  a transaction is early exactly while its own commit is still going on
  (`ReactiveRuns.EarlyExactlyWhileCommitting`, reached by `SetCanBeEarly`).
- A restore that stops between removing the marker and writing the history is applied but never
  recorded so (`PanelRestore.AppliedIsRecordedExactly`, `FailedCanBeStale`); the old `-wal` file is
  removed before the rename and is in no recovery copy, so a database that had one cannot be put
  back together from then on (`RecoverableExactly`, `OldWalLostExactly`, reached by `OldWalCanBeLost`); recovery copies are
  named by the second, and a name used twice can overwrite the old file (`OldFileSurvivesExactly`,
  reached by `OldFileCanBeLost`).
- A JSON object the parser rejects stays at the front of the buffer (`JsonLines.RejectedObjectBlocks`).
- The log decoder stops at the first frame without payload (`Logs.ReadsBackExactly`,
  `EmptyFrameHidesLines`).
- A row that is too old or has no readable time stays when it stands behind a fresh one
  (`Store.PrunedIsWindowExactly`, reached by `OldRowCanStay`).
- Server rows are stored in the order of their ids exactly if none was stored while one with a
  smaller id was still on its way (`Store.ServerIdsInOrderExactly`, `ServerIdsCanBeOutOfOrder`).
- Peaks start at zero (`Rollup.PeakIsSampledExactly`, reached by `PeakCanBeUnsampled`).
- CPU charges are the usage plus what a counter went back, minus what it grew between readings
  within one microsecond (`Cgroup.ChargesAreUsageExactly`, reached by `DropCanBeKept` and
  `GrowthCanBeMissed`).
- A review is accepted while a deployment holds its claim. The claim is exclusive all along a run
  exactly if no review takes it from a holder (`AiGenerations.ExclusiveExactly`,
  `ReviewBreaksExclusion`, `StolenClaimMismatches`), and what is deployed is what the row says all
  along exactly if no review changes the text under a deployment (`DeployedIsReviewed`,
  `OutdatedReadIsDeployed`, `DeployedMatchesExactly`).

## Assumptions

- Reactive: SQLite calls the pre-update hook for every row change of a transaction, rollback undoes
  a whole transaction, locks are not poisoned, a commit hook is followed by the commit, SQLite has
  one write lock, and whether a hook runs inside a request scope is the caller's matter (any value
  is allowed). A request does not finish while its own commit is still in progress.
- PanelRestore: rename and remove are atomic, a copy can leave a part of its source, the staged
  files do not change between attempts, and the replacement and recovery paths differ from the
  database path.
- JsonLines: the parser is a parameter. Of a text ending in `}` that it accepts, only this is
  used: it is one object with balanced braces outside strings, possibly after white space
  (sections 2, 4 and 7 of RFC 8259).
- Store and Cgroup: the clock does not go backwards.

## Model

| member | source | states |
|---|---|---|
| Filter.GlobMatch | agent/src/filter.rs:36-67 | the loop accepts only texts that split along the pattern, on texts with no star before the last byte exactly those, and makes at most (text+1)*pattern+text rounds |
| Filter.VerdictIsSound | agent/src/filter.rs:45-66 | from any state of the walk, acceptance means a match is reachable from there |
| Filter.VerdictIsComplete | agent/src/filter.rs:45-66 | from any state of the walk nothing that can still match is lost by having forgotten all stars but the last |
| Filter.AcceptedTextMatches | agent/src/filter.rs:36-67 | an accepted text always matches, whatever bytes it holds |
| Filter.AcceptsExactly | agent/src/filter.rs:36-67 | acceptance if and only if the pattern's literal pieces can be placed in the text with every star covering some bytes |
| Filter.ExactTexts | agent/src/filter.rs:45-53 | a text is judged correctly for all patterns if and only if it has no star before its last byte |
| Filter.MonitoredExactly | agent/src/filter.rs:12-22 | exclusion wins, an empty include list admits the rest, with patterns taken by their meaning |
| WatchPaths.MatchesExactly | src/utils/watch_paths.rs:87-100 | the recursive matcher accepts exactly the paths that split along the compiled tokens: `**` with a swallowed slash anything, `*` slash-free text |
| WatchPaths.LiteralRule | src/utils/watch_paths.rs:99 | text without a star in front of a pattern must begin the path, and the rest match behind it |
| WatchPaths.SegmentRule | src/utils/watch_paths.rs:95-98 | a single star stands for any text without a slash |
| WatchPaths.DeepRule | src/utils/watch_paths.rs:90-94 | two stars that no slash follows stand for any text |
| WatchPaths.DirectoriesRule | src/utils/watch_paths.rs:90-94 | two stars and a slash stand for any directories and for none: the rest may match anywhere in the path |
| WatchPaths.BelowDirectory | src/utils/watch_paths.rs:80-94 | as a rule, behind fixed text: the path begins with the text and the rest matches somewhere behind it |
| WatchPaths.StarRuleIsPattern | src/utils/watch_paths.rs:80-85 | a rule with a star is a pattern for the whole path |
| WatchPaths.MatchersAgree | src/utils/watch_paths.rs:87-100 | on slash-free input the recursive and the one-pass matcher give the same answer |
| WatchPaths.PlainRuleIsDeepRule | src/utils/watch_paths.rs:80-85 | a rule without a star covers itself and exactly what it covers with a slash and `**` appended |
| WatchPaths.ShouldDeploy | src/utils/watch_paths.rs:11-24 | deploy if and only if there are no rules or paths, or the last rule matching some path includes it |
| FileTree.InsertFileTreeNode | src/services/traefik.rs:717-760 | search, append and overwrite or descend compute the insertion used in the tree theorems |
| FileTree.InsertedDescribes | src/services/traefik.rs:717-760 | inserting a file turns the tree of a set of files into the tree of that set with the file added or replaced |
| FileTree.SortFileTree | src/services/traefik.rs:762-776 | the recursive sort computes the stable sort of every sibling list, in listing order at every level |
| FileTree.SortTreeSorts | src/services/traefik.rs:762-776 | at every level directories come first, then names by their first different character, a prefix before its continuations |
| Paths.LessMeans | src/services/traefik.rs:770 | the order of names is the lexicographic one: equal up to some position, and there the end or the smaller character |
| FileTree.SortTreeDescribes | src/services/traefik.rs:762-776 | sorting keeps the tree a tree of the same files |
| FileTree.BuildFileTree | src/services/traefik.rs:698-715 | the result is in listing order, and for regular paths it is the tree of the given files: unique sibling names, paths the join of the names, metadata only on files |
| FileTree.ListedFileIsThere | src/services/traefik.rs:698-760 | whatever its path looks like, the file listed last is found with its metadata by its non-empty components |
| FileTree.BuiltIsCanonical | src/services/traefik.rs:698-776 | a tree is the built one if and only if it is in listing order and describes the files |
| FileTree.OrderDoesNotMatter | src/services/traefik.rs:698-776 | any permutation of distinct regular files gives the same tree |
| FileTree.FileNodesAreTheFiles | src/services/traefik.rs:698-776 | following names reaches a file node with some metadata if and only if such a file was listed |
| FileTree.OrderMattersExactly | src/services/traefik.rs:702-738 | a path can be listed with every regular path in either order if and only if it has no empty component among others |
| Paths.JoinSplit | src/services/traefik.rs:727-732 | joining the split components gives the path back |
| Paths.SplitJoin | src/services/traefik.rs:727-732 | splitting joined slash-free components gives them back |
| Reactive.StepKeepsInv | src/db/reactive.rs:50-149 | every hook, scope and publisher step keeps the vector equal to SQLite's open transaction, every written change accounted for, and buffers, log, lock and visibility consistent |
| ReactiveRuns.VectorIsTransaction | src/db/reactive.rs:104-124 | while a connection writes, its vector holds exactly the row changes of its open transaction, in order |
| ReactiveRuns.WrittenIsAccountedFor | src/db/reactive.rs:104-149 | every change ever written is in its connection's vector and in no buffer, or rolled back and nowhere, or committed, logged and in no vector |
| ReactiveRuns.ChangesAreTheWrites | src/db/reactive.rs:107-112 | changes are numbered by the row changes of the run, and every change in any vector, request, publisher or published set has the table, both row ids and the operation of its row change |
| ReactiveRuns.CommitIsRouted | src/db/reactive.rs:114-143 | a commit inside a request adds the whole transaction to its buffer, any other spawns one publisher with it |
| ReactiveRuns.RolledBackIsNeverPublished | src/db/reactive.rs:145-149 | a change of a rolled-back transaction is in no buffer and no published set, however the run goes on |
| ReactiveRuns.OneOccurrence | src/db/reactive.rs:116-140 | no change is in two buffers or twice in one, over all request buffers, publishers and published sets |
| ReactiveRuns.CommittedHasOneHome | src/db/reactive.rs:116-140 | every change of a committed transaction is at exactly one position of exactly one buffer, or in none and a request that held changes was dropped |
| ReactiveRuns.TransactionStaysWhole | src/db/reactive.rs:116-140 | a committed transaction lies in one piece and in order in one buffer, unless abandoned with its request |
| ReactiveRuns.WritingOrderIsKept | src/db/reactive.rs:50-140 | in every run each request buffer, publisher and published set lists its changes in the order they were written, across transactions |
| ReactiveRuns.PublishedExactlyOnce | src/db/reactive.rs:50-101 | once all scopes and publishers have ended and no request holding changes was dropped, every committed change is published exactly once |
| ReactiveRuns.TransactionPublishedWhole | src/db/reactive.rs:50-101 | and its transaction is contiguous and in order in one published set |
| ReactiveRuns.LostExactlyByDrop | src/db/reactive.rs:89-101 | some committed change is in no buffer and no published set if and only if a request that held some was dropped |
| ReactiveRuns.CommittedCanBeLost | src/db/reactive.rs:89-101 | some run ends with a committed and visible change that nobody holds or published |
| ReactiveRuns.AssuredSetsAreVisible | src/db/reactive.rs:74-101 | a published set is visible to readers if a request sent it or its publisher's BEGIN IMMEDIATE succeeded earlier in the run |
| ReactiveRuns.RequestPublishesVisible | src/db/reactive.rs:89-101 | a request that ends publishes all it has as one set, nothing if it has nothing, visible then and for good |
| ReactiveRuns.WaitingPublishesVisible | src/db/reactive.rs:74-87 | once a publisher's BEGIN IMMEDIATE succeeded its changes are visible, whenever it publishes |
| ReactiveRuns.PublisherPublishesOnce | src/db/reactive.rs:74-87 | a publisher publishes the transaction it was spawned for as one set |
| ReactiveRuns.EarlyExactlyWhileCommitting | src/db/reactive.rs:74-87 | a publisher's changes are visible if and only if its own commit is not still in progress |
| ReactiveRuns.SetCanBeEarly | src/db/reactive.rs:74-87 | some run publishes a set without BEGIN IMMEDIATE that readers cannot see yet |
| ReactiveHooks.ChangeCapture.OnPreupdate | src/db/reactive.rs:107-112 | the hook appends the change to its connection's vector |
| ReactiveHooks.ChangeCapture.OnCommit | src/db/reactive.rs:114-143 | the hook takes the vector and queues it on the request or spawns a publisher; the commit is allowed |
| ReactiveHooks.ChangeCapture.OnRollback | src/db/reactive.rs:145-149 | the hook clears the vector |
| ReactiveHooks.ChangeCapture.StartScope | src/db/reactive.rs:89-94 | a request starts with an empty buffer of its own |
| ReactiveHooks.ChangeCapture.CancelScope | src/db/reactive.rs:89-101 | a request that is dropped before its end takes its buffer with it |
| ReactiveHooks.ChangeCapture.WaitForCommit | src/db/reactive.rs:74-85 | a publisher has got the write lock once and knows its changes visible |
| ReactiveHooks.ChangeCapture.FinishScope | src/db/reactive.rs:93-99 | the end of a request drains its buffer into one published set, none if it is empty |
| ReactiveHooks.ChangeCapture.FinishPublisher | src/db/reactive.rs:74-87 | the end of a background publisher publishes its transaction |
| PanelRestore.OldFileOrWholeSnapshot | src/db/connection/sqlite.rs:116-161 | after any run of starts, failures and crashes the database path holds the untouched old file or the whole snapshot without sidecars, until a server ran |
| PanelRestore.ServesOnlyTheSnapshot | src/db/connection/sqlite.rs:163-197 | serving, a removed marker or APPLIED each imply that snapshot and staged configuration are in place |
| PanelRestore.OldFileSurvivesExactly | src/db/connection/sqlite.rs:137-146 | after the rename the old file is in a recovery copy if and only if a name it was saved under was not used again |
| PanelRestore.OldFileCanBeLost | src/db/connection/sqlite.rs:132-146 | from every usable start, for every name, two attempts under that name can leave no copy of the old file |
| PanelRestore.DistinctNamesKeepOldFile | src/db/connection/sqlite.rs:137-146 | with distinct recovery names the old file is never lost |
| PanelRestore.AppliedIsRecordedExactly | src/db/connection/sqlite.rs:179-197 | a serving panel has APPLIED recorded if and only if no stop fell between removing the marker and the record |
| PanelRestore.FailedCanBeStale | src/db/connection/sqlite.rs:90-108 | from every usable start some run ends serving the snapshot with FAILED on record |
| PanelRestore.RecoverableExactly | src/db/connection/sqlite.rs:137-161 | at every moment the old database, main file with its -wal, can still be had if and only if: before the rename, it had no -wal or that was not removed; after it, it had none and a saved name was not used again |
| PanelRestore.OldWalLostExactly | src/db/connection/sqlite.rs:137-161 | with distinct recovery names the old database can still be had if and only if it had no -wal or no attempt removed it |
| PanelRestore.OldWalCanBeLost | src/db/connection/sqlite.rs:147-158 | from every usable start with a -wal, one attempt cut after its removal leaves the old database beyond recovery |
| PanelRestore.CanBeCompleted | src/db/connection/sqlite.rs:116-200 | after any run from a usable start, however interrupted, one more start can complete the restore and serve |
| PanelRestore.UnusableMarkerTouchesNothing | src/db/connection/sqlite.rs:119-131 | an unusable marker keeps the panel down and every file but the record as it was |
| PanelRestore.UnusableIsRecordedExactly | src/db/connection/sqlite.rs:90-125 | an unusable restore can get recorded as FAILED if and only if its marker still names it |
| PanelRestore.Panel.SaveOldFile | src/db/connection/sqlite.rs:137-146 | the old file, or a part of it, is under the given name, and the run recovered or broke off accordingly |
| PanelRestore.Panel.SwapDatabase | src/db/connection/sqlite.rs:147-161 | copy, sidecar removal and rename are done in this order, stopping anywhere: which files are gone or replaced after how many steps |
| PanelRestore.Panel.FinishRestore | src/db/connection/sqlite.rs:163-197 | configuration, marker and record are done in this order, stopping anywhere, with their state after how many steps |
| PanelRestore.Panel.GiveUp | src/db/connection/sqlite.rs:90-108 | a failure is recorded if and only if the marker still names the restore |
| PanelRestore.Panel.Restore | src/db/connection/sqlite.rs:137-200 | a usable restore is applied if and only if every operation succeeds; what every file, the marker and the record are then, and after a stop anywhere |
| PanelRestore.Panel.ApplyPendingRestore | src/db/connection/sqlite.rs:116-200 | one start ends serving if and only if nothing is pending or the restore is usable and every operation succeeds; the old file saved, the snapshot in place, the record written, or what a failure leaves |
| PanelRestore.Panel.Connect | src/db/connection/sqlite.rs:9-13 | the database is opened if and only if no restore is pending or it was completed; otherwise old file or bare snapshot |
| JsonLines.PrefixFree | agent/src/docker/json_lines.rs:31-40 | no object is a proper prefix of another, so a text has at most one accepted front |
| JsonLines.JsonAccumulator.TakeOne | agent/src/docker/json_lines.rs:28-43 | longest-first search takes the document at the front exactly when there is one, and only it |
| JsonLines.JsonAccumulator.Push | agent/src/docker/json_lines.rs:13-26 | a push emits the documents of buffer and chunk and keeps the remainder |
| JsonLines.PushAll | agent/src/docker/json_lines.rs:13-26 | the documents and the buffer depend only on the concatenated text, not on the chunks |
| JsonLines.DecodeInParts | agent/src/docker/json_lines.rs:13-26 | decoding a first part and then its remainder with the rest is decoding the whole |
| JsonLines.EmittedExactlyWhenClosed | agent/src/docker/json_lines.rs:13-43 | after any number of characters, in any chunks, exactly the documents whose closing brace has arrived are out, in order, and the buffer is the rest, less than the next document |
| JsonLines.RejectedObjectBlocks | agent/src/docker/json_lines.rs:34-42 | something is emitted if and only if the parser accepts the object in front; else the buffer stays as it is |
| Logs.DemuxLogStream | agent/src/logs.rs:30-85 | the offset loop computes the frame-by-frame decoding |
| Logs.PiecesJoinBack | agent/src/logs.rs:58-61 | the pieces of a payload with newlines put back are the payload |
| Logs.TrimEnd | agent/src/logs.rs:62-65 | the result is the longest prefix not ending in white space |
| Logs.LinesAcross | agent/src/logs.rs:58-61 | a newline separates the lines before it from those behind it |
| Logs.SingleLine | agent/src/logs.rs:58-66 | text without a newline is one line on its stream, trimmed at its end, and none if it is empty |
| Logs.OutputsAreShown | agent/src/logs.rs:30-72 | whatever lines a container prints on either stream, framed and decoded, come back text by text, in order, with their streams |
| Logs.TerminalIsShown | agent/src/logs.rs:31-37 | lines of a body that is not framed come back as they are, as standard output |
| Logs.FramedExactly | agent/src/logs.rs:74-85 | a body is taken for frames if and only if it begins with the header of some frame of stream 0, 1 or 2 |
| Logs.RecognisedByFirstFrame | agent/src/logs.rs:74-85 | a body of at least a header is taken for frames if and only if its first stream byte is at most 2 |
| Logs.CutStreamReadsBack | agent/src/logs.rs:42-69 | any cut of at least a header of non-empty frames reads as the lines of the complete frames and those of the cut payload, with their streams |
| Logs.WholeBodyReads | agent/src/logs.rs:51-55 | a whole body reads as its frames up to the first empty one |
| Logs.ReadsBackExactly | agent/src/logs.rs:42-69 | decoding gives back all encoded lines if and only if no frame from the first empty one on has a line |
| Logs.EmptyFrameHidesLines | agent/src/logs.rs:51-55 | with an empty frame between any two frames, the lines of the second are never read |
| Store.Prune | agent/src/store.rs:156-170 | popping from the front leaves the rows from the first fresh one on |
| Store.OlderMeans | agent/src/store.rs:156-170 | outside the window means more than five minutes old or without a readable time |
| Store.SavingPrunes | agent/src/store.rs:80-170 | after every save and query the deque is what pruning the full history at that moment leaves |
| Store.BatchIsStored | agent/src/store.rs:112-124 | a batch is stored row by row as handed in, with consecutive ids |
| Store.ServerRowIsStored | agent/src/store.rs:80-87 | whatever happens between taking the id and the lock, the stored row is the one handed in, with that id |
| Store.SessionIsHistoryFromFirstFresh | agent/src/store.rs:80-170 | pruning the session equals pruning the full history, after any interleaving |
| Store.FreshRowsAreKept | agent/src/store.rs:112-124 | no container row inside the window is dropped, in whatever order rows were saved |
| Store.FreshServerRowsAreKept | agent/src/store.rs:80-87 | the same for server rows |
| Store.PrunedIsWindowExactly | agent/src/store.rs:156-170 | what is left is the window if and only if no older row stands behind the first fresh one |
| Store.OldRowCanStay | agent/src/store.rs:112-124 | a batch whose second row has no readable time leaves that row in the session |
| Store.NewestMeans | agent/src/store.rs:133-139 | an answer is the matching rows read backwards, cut off at the limit |
| Store.ContainsMeans | agent/src/store.rs:133-139 | a name matches if and only if the searched part stands somewhere in it |
| Store.QueriesSeeTheWindow | agent/src/store.rs:126-140 | saved in time order, a container query answers as if asked of the window of the full history |
| Store.ServerQueriesSeeTheWindow | agent/src/store.rs:89-101 | the same for server queries |
| Store.IdsAreUnique | agent/src/store.rs:151-153 | ids are unique in and across both deques and increase in the container deque, under any interleaving |
| Store.ServerIdsInOrderExactly | agent/src/store.rs:80-87 | after any interleaving the ids of server rows are stored in order, those in flight still to come, if and only if no row was stored before one with a smaller id; with none in flight the stored ids increase if and only if so |
| Store.ServerIdsCanBeOutOfOrder | agent/src/store.rs:82-84 | two overlapping saves that are stored against the order of their ids |
| Store.MetricStore.ReserveServerRow | agent/src/store.rs:81-82 | the id of a server row is taken before the lock |
| Store.MetricStore.PushServerRow | agent/src/store.rs:83-86 | under the lock the row is appended and the deque pruned |
| Store.MetricStore.SaveContainerMetricsBatch | agent/src/store.rs:112-124 | a batch appends each row with the next id and then prunes |
| Store.MetricStore.GetLastNServerMetrics | agent/src/store.rs:89-101 | answers from the full history's fresh rows, in time order from its window |
| Store.MetricStore.GetLastNContainerMetrics | agent/src/store.rs:126-140 | answers from the full history's fresh rows, in time order from its window |
| Store.MetricStore.CleanupOldMetrics | agent/src/store.rs:142-149 | prunes both deques and returns how many rows that removed |
| Rollup.WindowsSummariseRecentRows | agent/src/rollup.rs:26-43 | after any run a window is the count, sums, maxima and last values of its container's rows since the last flush, with a count below the window size |
| Rollup.FinishedIsFaithful | agent/src/rollup.rs:45-80 | the emitted pair is the mean, the peak and the last values of the summarised rows |
| Rollup.FlushesWhenFull | agent/src/rollup.rs:96-114 | after adding rows all windows are emitted if some container has as many rows since the last flush as the window size, and none otherwise |
| Rollup.EmittedAtTheTime | agent/src/rollup.rs:45-80 | what a call emits carries the time of that call |
| Rollup.RowsAreThePairs | agent/src/rollup.rs:79-80 | the emitted rows are averages and peaks in turn |
| Rollup.Conservation | agent/src/rollup.rs:96-127 | for every container and gauge, averages times counts plus the pending sum equal the sum of all inputs |
| Rollup.AverageBelowPeak | agent/src/rollup.rs:52-77 | every emitted average is at most its peak |
| Rollup.PeakIsSampledExactly | agent/src/rollup.rs:30-34 | a peak is the value of some sample if and only if some sample is not negative |
| Rollup.PeakCanBeUnsampled | agent/src/rollup.rs:26-34 | for every negative sample some run emits the peak zero, which it does not have |
| Rollup.Windows.AddAndMaybeFlush | agent/src/rollup.rs:96-114 | adding rows emits the windows exactly as the machine does, in some map order |
| Rollup.Windows.FlushAll | agent/src/rollup.rs:116-127 | a flush emits every window once and empties the map |
| Audit.Export | src/api/handlers/audit.rs:77-93 | an RFC 4180 reader finds the header and one record per row in the export |
| Audit.ReadsBack | src/api/handlers/audit.rs:77-99 | the export of any rows reads as the header and one eight-field record per row, texts with CR and LF as spaces |
| Audit.ColumnsMean | src/api/handlers/audit.rs:77-91 | which field of the row stands in which named column, missing values as 0 or empty |
| Audit.CleanMeans | src/api/handlers/audit.rs:97-99 | a line break becomes a space and every other character stays |
| Audit.RunEscaped | src/api/handlers/audit.rs:97-99 | inside quotes an escaped text reads as the text with line breaks as spaces |
| Audit.NumbersReadBack | src/api/handlers/audit.rs:83-84 | printed numbers read back as themselves |
| Audit.DecimalMeans | src/api/handlers/audit.rs:83-84 | a printed number has a sign only below zero and no superfluous zero in front |
| Audit.TextReadsBackExactly | src/api/handlers/audit.rs:97-99 | a text comes back unchanged if and only if it has no line break |
| Audit.ExportIsInjective | src/api/handlers/audit.rs:77-93 | rows without line breaks are determined by their export, up to missing values |
| Containers.WithoutSlashesMeans | agent/src/docker/types.rs:88-95 | a listed name loses its leading slashes, all of them and nothing else |
| Containers.DisplayNameMeans | agent/src/docker/types.rs:89-97 | a container goes by its first name without leading slashes, or without names by the first twelve bytes of its id |
| Streamer.MonitoredExactly | agent/src/docker/stream.rs:72-81 | an id is monitored if and only if some entry with it has an admitted name |
| Streamer.ReconciledExactly | agent/src/docker/stream.rs:88-109 | a successful listing leaves streams of exactly the monitored ids, keeps their tokens, and cancels exactly the others |
| Streamer.OneLiveTokenEach | agent/src/docker/stream.rs:92-109 | in every run a container has at most one uncancelled token, and it is in the map |
| Streamer.StreamsFollowLastListing | agent/src/docker/stream.rs:62-110 | failed listings change nothing: the streams are those of the last successful one |
| Streamer.StreamedExactly | agent/src/docker/stream.rs:72-97 | with ordinary names, a container is streamed if and only if the patterns' meaning admits one of its listed names |
| Streamer.KeptWhileListed | agent/src/docker/stream.rs:92-96 | a container in every later listing keeps its token |
| Streamer.RemoveGone | agent/src/docker/stream.rs:99-109 | the removal loop keeps the listed streams and returns the tokens of the rest |
| Streamer.ContainerStreamer.Reconcile | agent/src/docker/stream.rs:62-110 | one reconciliation is one step of the machine; a failed listing changes nothing |
| Cgroup.ChargesAreUsageExactly | agent/src/collector/cgroup.rs:97-153 | percent times elapsed over 100 adds up to the counter's growth since first read, plus its drops, minus what it grew within a microsecond; for a counter that never goes back at most the growth, equal if and only if there was no such growth |
| Cgroup.GrowthCanBeMissed | agent/src/collector/cgroup.rs:142-146 | for every admitted container and every growth some run charges nothing for it |
| Cgroup.DropCanBeKept | agent/src/collector/cgroup.rs:148-150 | for every admitted container and every drop of its counter some run charges more than the growth |
| Cgroup.RowReportsTheCharge | agent/src/collector/cgroup.rs:97-101 | the percentage of a row over the time since the last reading is what the container is charged, the growth of its counter |
| Cgroup.RowMeans | agent/src/collector/cgroup.rs:103-125 | a row names its container, carries its labels, and reports the share of the memory limit used without cache |
| Cgroup.ElapsedMeans | agent/src/collector/cgroup.rs:143 | the elapsed time is the whole microseconds between two instants, none if the clock stood |
| Cgroup.RememberedAreMonitored | agent/src/collector/cgroup.rs:66-67 | remembered readings belong to monitored containers |
| Cgroup.KeptWhileAdmitted | agent/src/collector/cgroup.rs:66-67 | while every refresh admits a container, its past readings stay, whatever ticks miss it |
| Cgroup.AdmittedExactly | agent/src/collector/cgroup.rs:49-64 | a refresh monitors an id if and only if some entry with it has an admitted name |
| Cgroup.AdmittedIdentity | agent/src/collector/cgroup.rs:54-63 | name and labels are those of the last admitted entry with the id |
| Cgroup.SampleAll | agent/src/collector/cgroup.rs:88-130 | one row per read monitored container, computed from the readings before the tick, in some order |
| Cgroup.CgroupCollector.RefreshContainers | agent/src/collector/cgroup.rs:43-75 | a refresh is one step of the machine; a failed one changes nothing |
| Cgroup.CgroupCollector.TakeSample | agent/src/collector/cgroup.rs:77-131 | a tick is one step of the machine and returns its rows |
| AiGenerations.DeployedIsFinal | src/db/repository/ai_generations.rs:80-144 | from DEPLOYED on status and output never change, and the compose id only by deletion of the project |
| AiGenerations.MarkedOnce | src/db/repository/ai_generations.rs:101-120 | at most one mark ever changes the row |
| AiGenerations.ComposeComesFromMark | src/db/repository/ai_generations.rs:101-120 | the row has a compose id if and only if it was marked with it and that project was not deleted since; it is DEPLOYED then |
| AiGenerations.ForeignCallsDoNothing | src/db/repository/ai_generations.rs:80-144 | statements for another organization never change the row |
| AiGenerations.ClaimsAreSeparated | src/db/repository/ai_generations.rs:122-144 | between two successful claims a release or a review took the first away |
| AiGenerations.MarkFollowsClaim | src/db/repository/ai_generations.rs:101-132 | a successful mark follows a claim not taken away since |
| AiGenerations.ClaimableExactly | src/db/repository/ai_generations.rs:80-144 | a row can be claimed if and only if it was reviewed or released and not claimed since |
| AiGenerations.OutputIsLastReview | src/db/repository/ai_generations.rs:80-99 | the output is the text of the last review that was applied |
| AiGenerations.GenerationRow.ReviewOutput | src/db/repository/ai_generations.rs:80-99 | the guarded update of a review, and whether it applied |
| AiGenerations.GenerationRow.ClaimForDeploy | src/db/repository/ai_generations.rs:122-132 | the guarded update of a claim, and whether it applied |
| AiGenerations.GenerationRow.ReleaseDeploy | src/db/repository/ai_generations.rs:134-144 | the guarded update of a release |
| AiGenerations.GenerationRow.SetDeployed | src/db/repository/ai_generations.rs:101-120 | the guarded update of a mark, and whether it applied |
| AiGenerations.EventsAreCalls | src/services/ai/service.rs:249-362 | every event of a deployment does to the row exactly what the statements it issues do |
| AiGenerations.NothingDeployedUnreviewed | src/services/ai/service.rs:273-306 | before the first review nothing is read, claimed or built |
| AiGenerations.GivenUpCanBeClaimed | src/services/ai/service.rs:322-362 | after a deployment gives up the row is REVIEWED again with no project, and the next one reads and claims it |
| AiGenerations.ExclusiveExactly | src/services/ai/service.rs:249-362 | after every event of a run at most one deployment holds the row, and then it is DEPLOYING, if and only if no review of the run takes the claim from a holder |
| AiGenerations.ClaimIsExclusive | src/services/ai/service.rs:298-362 | if no review takes the claim from a holder, at most one deployment holds it and its final mark succeeds |
| AiGenerations.ReviewBreaksExclusion | src/services/ai/service.rs:249-262 | from every state with a holder, one review lets a second holder in |
| AiGenerations.StolenClaimMismatches | src/services/ai/service.rs:356-362 | the first holder can then finish on the second's claim, under an output it did not deploy |
| AiGenerations.DeployedIsReviewed | src/services/ai/service.rs:249-362 | after every event of a run all deployments have the row's text and a deployed project was built from it, if and only if no review changes the text under a running deployment |
| AiGenerations.DeployedMatchesExactly | src/services/ai/service.rs:356-362 | the project of a deployed row agrees with its output for good if and only if the text that was read is still the row's at the mark |
| AiGenerations.OutdatedReadIsDeployed | src/services/ai/service.rs:273-306 | from every state after the read, a review before the claim leads to such a mismatch |

## Left out

- Parsing of watch rules and filter lists, `normalize`, the trims: one-pass string handling; rules and paths are given as parsed.
- Text decoding: lossy UTF-8, Unicode white space outside ASCII, JSON and RFC 3339 parsing are parameters or are restricted to bytes and characters.
- In-place update of the node lists of the file tree: the methods take and return the list, so aliasing of nodes is not captured.
- The sort routine of the standard library: taken as the stable sort it promises.
- Integer widths: the row id counter (i64), the window count (u32) and the instants do not wrap.
- Rounding of `f64`: numbers are real.
- The body of the broadcast channel: capacity, lagging receivers and table notifications.
- Conversion to megabytes, and network and block counters of the cgroup rows: plain field copies.
- Stream tasks themselves: reconnecting, timeouts and shutdown; only their tokens are modelled.
- Building a compose project, its environment and domains: one step that yields a project id.
- HTTP controllers, data transfer objects, SSH, registries, the schedule runner and the deployment queue: wiring, or logic outside these files.
