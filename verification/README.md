# GreenSecOps: verified models of its stateful core

GreenSecOps scans repositories, keeps findings, has a language model rewrite offending files and delivers the rewrites
as pull requests. This project models the parts of it whose state is shared by concurrent workers, and a few smaller
algorithms, and proves what they keep over every run. Where a comment in the code promises more than the code keeps, the
project holds a concrete run that breaks the promise and the exact condition under which it holds.

| Files | What they model |
|---|---|
| `wrappers.dfy` | optional values; the edges of the fix state machine that the modelled code fires |
| `workflow_sync.dfy`, `workflow_history.dfy`, `workflow_protocol.dfy`, `workflow_store.dfy` | syncing a branch's workflow files: one transaction, any log of commits, stamp/read/commit interleaved with pushes, and the loops of the code |
| `fix_vetting.dfy`, `fix_pipeline.dfy`, `fix_safety.dfy`, `fix_provenance.dfy`, `fix_ownership.dfy`, `fix_table.dfy`, `fix_moves.dfy`, `fix_delivery.dfy`, `pr_body.dfy`, `pr_body_order.dfy` | the file-fix pipeline: the gates, the queue/generate/deliver state machine, what every run keeps, where content comes from, who owns a row, the code over tables, what a step does to one row, one delivery, and what it says in the pull request and in what order |
| `finding_store.dfy`, `scan_runner.dfy`, `scan_lock.dfy` | scans: the finding upsert and stale resolution, the usage ledger, and the timed Redis lock |
| `ref_cache.dfy` | the double-checked cache of GitHub refs |
| `marked_text.dfy`, `landing.dfy`, `landing_laws.dfy`, `landing_settled.dfy`, `landing_layout.dfy` | rewriting generated regions of the landing pages |
| `containers.dfy` | the container usage accumulator of the GitHub action |
| `scoring.dfy`, `averages.dfy` | scores, grades, and repository averages |
| `effects.dfy` | effects that wait for a commit |

Code that changes things step by step is modelled by classes and methods with loops (`Store`, `Table`, `Tables`,
`LockService`, `Cache`, `DbSession`, `Build`, `Accumulate`), each proved against a function of the old state; the laws
are then proved about those functions over any sequence of events.

## What the code does not keep

- The sync's comment (workflow_sync.py:257-259) says that a concurrent sync that resolved later must win. The winner is
  the later *stamp*, and the stamp is taken before the ref is resolved, so an older read can overwrite a newer one:
  `ContentCanGoBack` is such a run. `WriteGoesBackExactlyWhen` says, for the row itself, when one commit does it;
  `FetchIsSafeExactlyWhen` says of two racing syncs when both commit orders keep the newer read; and when every fetch
  goes in stamp order no run ever goes back (`OrderedRunsNeverGoBack`, `NewestReadIsStored`).
- Deletions are guarded by shared paths only. A late, older listing that shares no path with the newer one still deletes
  (`DisjointLateSyncStillDeletes`), and one that lists a withdrawn path restores it (`LateSyncStillRestores`);
  `DeletesExactlyWhen` and `RestoresExactlyWhen` say when.
- The comment at workflow_sync.py:219-220 calls the restore a no-op from any state but `superseded_by_deleted_file`;
  the machine (state_machines/fix.py:119) also restores `superseded_by_closed_pr`. The model follows the machine:
  `FixRevivedExactlyWhen`.
- A delivery selects rows, then talks to GitHub, then claims them. A selection that went stale in between breaks
  ownership, exactly then (`ClaimIsSafeExactlyWhenFresh`; `StaleClaimArises` is a run from the empty pipeline).
- A commit message and the description's section for the same file are written from two readings of the findings, before
  and after the claim commits. A scan in between can make them differ (`ScanInBetweenMakesThemDiffer`); they agree
  exactly when it closed as many of the claimed findings as it reopened (`CountIsSectionLengthExactlyWhen`).
- A file-fix row whose worker died holding it is stuck (`OrphanArises`, `OrphanIsStuckForever`), and only such a row is
  (`RowCanMoveExactlyWhenNotOrphaned`): the sweeper covers only the workflow engine's fixes
  (workers/tasks/maintenance.py:74).
- Reopening a finding clears its resolution time but not its status (`ReopenedStillSaysResolved`). The two agree after a
  scan exactly when it reported nothing resolved (`StatusAgreesExactlyWhenNothingReopens`), and after a run exactly when
  nothing open was ever resolved (`RunAgreesExactlyWhenNothingOpenWasResolved`).
- A crash between the two commits of a scan leaves stale findings open; `OpenIsLastScanExactlyWhen` is exact.
- Fetches of a cache key can overlap, exactly after a lock that fails, a fetch that raises or a lock that expires
  (`OverlapPossibleExactlyAfterAFault`, with runs from the empty cache in `ExpiredLockAllowsOverlap` and
  `FailedLockAndRaisingFetchAllowOverlap`). The scan lock expires too: `SecondGetsInExactlyAfterOverstay`,
  `LateLeaverDeletesAnothersKey`.
- After a commit past the wrapper, rolling back the next transaction drops the effects of the committed one
  (`RollbackDropsEffectsOfACommittedTransaction`); `QueuedEffectRunsExactlyWhen` is exact.

## Assumptions

- One transaction is one atomic step: workflow_sync.py:294-322, a whole queue request, and each claim and each finish
  of the fix pipeline.
- The clock the syncs stamp with may stand still but never turns back.
- SHA-256 is a free, hence injective, function. Times are integers; floats are reals.
- Paths in one fetched listing are distinct. A queue request names each file once, as the keys of a dict do.
- The engine's own checks (`validate`, `comment_deletion_error`, `rescan`, response parsing, fingerprints) and everything
  GitHub, Redis or a model answers are parameters.
- A commit that fails rolls the outermost transaction back.

## Model

| member | source | states |
|---|---|---|
| WorkflowSync.CleanSyncMirrorsListing | backend/app/services/workflow_sync.py:303-322 | a reconciling sync that lost no write leaves the branch's live rows equal to its listing, missing rows with no open finding, and other branches untouched |
| WorkflowSync.CursorNeverDecreases | backend/app/services/workflow_sync.py:194-229 | no commit drops a row or moves its write cursor back |
| WorkflowSync.FixRevivedExactlyWhen | backend/app/services/workflow_sync.py:215-222 | a fix becomes ready again exactly when its path is listed without a lost write and it was superseded, by a deleted file or a closed pull request |
| WorkflowSync.FixWithdrawnExactlyWhen | backend/app/services/workflow_sync.py:378-382 | a fix is superseded exactly when its path is found missing by a sync entitled to say so while it is pending, generating, ready, delivering or delivered; afterwards no fix of a missing path can still be delivered |
| WorkflowSync.CommitMovesOneRow | backend/app/services/workflow_sync.py:194-229 | whatever status a fix and its row are in: a row listed in time is live and its superseded fix ready again; one found missing keeps its text and its first deletion time and has its unfinished or delivered fix superseded; any other is as it was |
| WorkflowHistory.RowIsLargestStampedRead | backend/app/services/workflow_sync.py:194-229 | after any log of commits in any order a row exists exactly when some sync listed it, and holds what the largest-stamped sync that listed it read, hash included |
| WorkflowHistory.LosesAWriteExactlyWhenOvertaken | backend/app/services/workflow_sync.py:194-201 | a sync skips a write exactly when a later stamp already reached one of its paths |
| WorkflowHistory.DeletesExactlyWhen | backend/app/services/workflow_sync.py:312-317 | a live row is withdrawn exactly when its branch was read without it by a reconciling, readable sync that nothing overtook |
| WorkflowHistory.DeletionTimeStays | backend/app/services/workflow_sync.py:361-367 | over any log, a live row withdrawn by a commit carries the time of that commit, through every later one, withdrawing or not, until one restores it |
| WorkflowHistory.LiveExactlyWhen | backend/app/services/workflow_sync.py:210-214 | after any log a stored row is live exactly when each withdrawal of it, and its deletion before the log, was followed by a restoring commit |
| WorkflowHistory.CommitMovesRowExactlyWhen | backend/app/services/workflow_sync.py:312-317 | which of the three a commit does to a row, and to its fix, is told by the listings and stamps of the log before it |
| WorkflowHistory.NewRowIsLive | backend/app/services/workflow_sync.py:180-192 | a path met for the first time gets a live row without a fix, holding what the sync read |
| WorkflowHistory.FindingResolvedExactlyWhen | backend/app/services/workflow_sync.py:353-377 | over any log in any order an open finding is resolved by the first sync that read its known file's branch without it, reconciled and was not overtaken, as of that commit and for file removal, and by no other; one resolved before keeps its time and reason |
| WorkflowHistory.LateSyncWithdrawsNothing | backend/app/services/workflow_sync.py:312-317 | a sync that commits after a later-stamped one sharing a path deletes no row, resolves no finding and supersedes no fix |
| WorkflowHistory.DisjointLateSyncStillDeletes | backend/app/services/workflow_sync.py:312-317 | a run in which an older listing sharing no path deletes what the newer one stored |
| WorkflowHistory.RestoresExactlyWhen | backend/app/services/workflow_sync.py:210-214 | a withdrawn row comes back exactly when a sync lists it that no later-stamped listing of that path overtook |
| WorkflowHistory.LateSyncStillRestores | backend/app/services/workflow_sync.py:361-367 | withdrawing moves no cursor, so an older sync still brings the path and its older text back |
| WorkflowHistory.OrderedRunStoresLastListing | backend/app/services/workflow_sync.py:294-322 | commits in stamp order refine "the live rows are the last listing" |
| WorkflowProtocol.StoredTextIsNoOlderThanItsStamp | backend/app/services/workflow_sync.py:257-264 | in every interleaving with pushes a stored text is its path at one version of the branch, no older than the head when the row's stamp was taken |
| WorkflowProtocol.StampsAndReadsAreTraced | backend/app/services/workflow_sync.py:257-264 | in every interleaving each sync took its stamp in one step and read in a later one: its floor is the head of the branch at the first, its version and its listing those of the head at the second |
| WorkflowProtocol.NewestReadIsStored | backend/app/services/workflow_sync.py:257-264 | over every run in which each fetch comes after those of the same branch with earlier stamps only, a row holds the newest version any committed sync read, whatever the commit order |
| WorkflowProtocol.OrderedRunsNeverGoBack | backend/app/services/workflow_sync.py:194-201 | in such a run no commit puts an older version on a row |
| WorkflowProtocol.WriteGoesBackExactlyWhen | backend/app/services/workflow_sync.py:194-229 | in every interleaving a commit leaves its own read on the row unless the stored stamp is later; so the stored version goes down exactly when the read was older and the stored stamp is not later, and then the lost version was pushed after the sync's stamp |
| WorkflowProtocol.OnlyVersionsPushedMeanwhileAreLost | backend/app/services/workflow_sync.py:257-264 | a commit that puts an older version on a row loses one pushed after its sync's stamp, stored by a sync of the same branch that stamped no later |
| WorkflowProtocol.FetchIsSafeExactlyWhen | backend/app/services/workflow_sync.py:257-264 | when another sync has read an older text of the path and is still to commit, both commit orders end with this fetch's read exactly when the other's stamp is earlier and no later stamp is stored |
| WorkflowProtocol.FetchOutOfOrderCanGoBack | backend/app/services/workflow_sync.py:257-264 | wherever a fetch breaks stamp order after a push that changed the path, the run goes on to replace the newer text by the older |
| WorkflowProtocol.ContentCanGoBack | backend/app/services/workflow_sync.py:257-261 | a run of two syncs and one push that overwrites the newer text with the older |
| WorkflowStore.Store.UpsertOne | backend/app/services/workflow_sync.py:158-229 | one path is stored as the transaction says, the result gets the stored text, and the path lands in the one list its old row calls for |
| WorkflowStore.Store.ReconcileMissing | backend/app/services/workflow_sync.py:335-382 | every unlisted row of the branch is withdrawn with its findings and fix, nothing else moves, and `deleted` holds each newly deleted path once |
| WorkflowStore.Store.SyncWorkflowFiles | backend/app/services/workflow_sync.py:232-332 | the loops leave the committed tables; contents agree with stored rows, the lists partition the listing, `deleted` is exact; an unreadable listing or an empty unresolved one changes nothing |
| WorkflowStore.ListsPartitionTheListing | backend/app/services/workflow_sync.py:67-104 | added, updated, unchanged and skipped_stale together hold each listed path exactly once |
| WorkflowStore.ListsSayWhatChanged | backend/app/services/workflow_sync.py:67-104 | from the rows alone: a path is added when it had no row, skipped when its row has a later stamp, unchanged or updated when the stored text is the same or another, restored when its row was deleted, each once; and deleted when its row was live before and is not after |
| WorkflowStore.LoopsMakeTheCommit | backend/app/services/workflow_sync.py:294-322 | upserting and then reconciling when nothing was skipped is the specified transaction |
| FixVetting.KeepsExactlyWhatPasses | backend/app/services/file_fix_generation.py:92-162 | a rewrite is kept exactly when there is one and it passes validation, the comment check and the re-scan against the fetched files, and then it is the restored rewrite |
| FixVetting.RejectsExactlyWhen | backend/app/services/file_fix_generation.py:106-162 | exactly when each error is given and what it carries: no rewrite, the message of the validation, that of the comment check, or the rules broken after and not before |
| FixVetting.SourceIsFirst | backend/app/services/file_fix_generation.py:238-238 | the original a rewrite is judged against is the first fetched file of its path |
| FixVetting.NoSourceExactlyWhen | backend/app/services/file_fix_generation.py:238-240 | there is no original exactly when no fetched file has the path |
| FixProvenance.OnlyVettedContentIsPushed | backend/app/services/file_fix_generation.py:106-131 | over every run, forced or not and however stale its workers, each stored, selected or pushed content of a file is what one earlier generation, by a worker holding that file's row, ended with; and pushed content passed every gate against the files that generation fetched |
| FixProvenance.OutcomeIsWhatPasses | backend/app/services/file_fix_generation.py:234-293 | a generation ends with content exactly when the model answered with a rewrite, the file was fetched, and the restored rewrite passes every gate against the fetched files |
| FixSafety.RunKeepsSafe | backend/app/api/engine_routes.py:510-540 | over every run there is one row per file, waiting and generating rows hold no content, and generations claimed plus rows waiting never exceed charges |
| FixSafety.QueueAllKeeps | backend/app/api/engine_routes.py:510-540 | queueing keeps one row per file, adds one waiting row without content per file queued and touches no row in flight |
| FixTable.QueuesExactlyWhenQueueable | backend/app/api/engine_routes.py:512-540 | a request queues exactly the files asked for that had no row, or an idle one that failed or is forced, when it came; those wait with no content and every other row is as it was |
| FixMoves.RowMovesExactlyWhen | backend/app/services/state_machines/fix.py:80-89 | each step of queueing, generation and delivery moves each row exactly as that row, its key and the acting worker's job say, from the statuses named, and adds only rows that wait for a file asked for |
| FixOwnership.FreshRunsAreExclusive | backend/app/services/file_fix_delivery.py:202-259 | in every run with fresh claims each generating or delivering row has one holder, every finish is legal, charges equal generations plus waiting rows, and a delivered row holds what was pushed |
| FixOwnership.ClaimIsSafeExactlyWhenFresh | backend/app/services/file_fix_delivery.py:142-207 | a delivery claim keeps ownership exactly when every selected row is idle and still holds the selected content |
| FixOwnership.GenerationsEndLegally | backend/app/services/file_fix_generation.py:274-292 | under exclusive ownership a generation ends by a legal edge from the row as stored: ready with the rewrite exactly when one was vetted, else failed with the content it had; and touches no other row |
| FixOwnership.DeliveriesEndLegally | backend/app/services/file_fix_delivery.py:250-259 | under exclusive ownership a delivery ends by a legal edge from every row it sent, delivered or failed with its content kept, and touches no other |
| FixOwnership.UnforcedSelectionIsLegal | backend/app/services/file_fix_delivery.py:142-207 | an unforced delivery selects exactly the target's rows from which delivery may legally start, the ready ones, that hold content and are not withheld |
| FixOwnership.ForcedSelectionExactlyWhen | backend/app/services/file_fix_delivery.py:38-41 | a forced one selects exactly the target's rows that are ready, delivered or failed, hold content and are not withheld, each with the content stored |
| FixOwnership.ForcedDeliveryResends | backend/app/services/file_fix_delivery.py:148-160 | however a delivery ends, the next forced one of its target takes up again every row it sent that holds content and is not withheld, with the content it sent as long as ownership held |
| FixOwnership.OnlySelectionsAreSent | backend/app/services/file_fix_delivery.py:201-207 | in every state only a claim adds to what was ever sent, and it adds exactly each selected content under its row's key |
| FixOwnership.SelectionStartsFresh | backend/app/services/file_fix_delivery.py:142-160 | a selection claimed before anyone else moves is fresh |
| FixOwnership.StaleClaimDeliversNothing | backend/app/api/engine_routes.py:512-523 | a forced request between selection and claim ends with a delivered row that holds no content while its old content was pushed |
| FixOwnership.StaleClaimArises | backend/app/services/file_fix_delivery.py:142-259 | the same as one run from the empty pipeline, for any accepted answer |
| FixOwnership.OrphanIsStuckForever | backend/app/services/state_machines/fix.py:24-28 | a row whose worker died holding it stays as it is in every fresh run, forced or not |
| FixOwnership.RowCanMoveExactlyWhenNotOrphaned | backend/app/api/engine_routes.py:512-523 | some fresh action changes a row exactly when no worker died holding it: a waiting row is claimed, a worked one ended by its holder, any other reset by a forced request |
| FixOwnership.OrphanArises | backend/app/services/file_fix_generation.py:213-227 | from the empty pipeline, one file queued, claimed and its worker gone leave such a row in generating |
| FixTable.Table.PreparePendingFix | backend/app/api/engine_routes.py:485-568 | creates or resets the one row of a file and charges it once, or changes nothing |
| FixTable.Table.QueueFileFixes | backend/app/api/engine_routes.py:826-877 | refused whole, or as many charges and waiting rows as files reported and dispatched, at most one per file asked; the charges name the rows of those files in order, their findings are linked to them, and every other link and charge stays |
| FixTable.Table.GenerateFileFix | backend/app/services/file_fix_generation.py:201-302 | one generation changes only the claimed row, which ends ready with content accepted for its file or failed with its old content |
| FixTable.Table.SelectFixes | backend/app/services/file_fix_delivery.py:142-160 | exactly the target's rows that are ready, or under force delivered or failed too, that hold content and are not withheld, each once and in order, with the content read |
| FixDelivery.DeliverFileFixes | backend/app/services/file_fix_delivery.py:118-261 | which of the four early answers is given, and when; they leave every row alone; otherwise exactly the selected rows with their content are pushed, and they alone end delivered or failed; counts come from the findings as claimed, the body from the findings as read after that commit |
| FixDelivery.NothingPickedExactlyWhen | backend/app/services/file_fix_delivery.py:148-162 | nothing is selected exactly when no row of the target has a sendable status, content, and either nothing open or something open that it fixes |
| FixDelivery.DescribedFaithfully | backend/app/services/file_fix_delivery.py:199-241 | each commit counts the findings its rewrite fixes as claimed, at least one unless none was open; each section lists those open and fixed when the body is written, and the body names every finding then open once |
| FixDelivery.CountIsSectionLengthExactlyWhen | backend/app/services/file_fix_delivery.py:215-241 | a commit's count is the length of its file's section exactly when the scans in between resolved as many of its findings as they reopened |
| FixDelivery.ScanInBetweenMakesThemDiffer | backend/app/services/file_fix_delivery.py:215-241 | one finding of three resolved in between: the commit says three, the section lists two |
| PrBody.BuildPrBody | backend/app/services/file_fix_delivery.py:72-115 | the loops write the specified lines |
| PrBodyOrder.SectionsInPathOrder | backend/app/services/file_fix_delivery.py:88-95 | read off the lines, the file headings are in ascending path order and name each fix's path, each once when the paths differ |
| PrBodyOrder.ManualWorkInPathOrder | backend/app/services/file_fix_delivery.py:87-113 | read off the lines, the manual-work list is in ascending path order and holds for each file exactly its open findings left for manual work, in the order the file has them |
| PrBodyOrder.ManualHeadingCounts | backend/app/services/file_fix_delivery.py:96-113 | there is one manual-work heading exactly when the list is not empty; its number is that of the findings listed after it, and no file section follows |
| PrBody.BeforeExactlyWhen | backend/app/services/file_fix_delivery.py:88-88 | path order is that of the first difference, a path coming before those it begins |
| PrBody.FindingsByFlags | backend/app/services/file_fix_delivery.py:90-94 | open, fixed and manual findings are those their two flags say, each as often as given and in the order given |
| PrBody.WithheldExactlyWhen | backend/app/services/file_fix_delivery.py:44-56 | a rewrite is withheld exactly when something is open and all that is open is left for manual work |
| PrBody.BodyAccountsForEveryFinding | backend/app/services/file_fix_delivery.py:87-115 | fixed lines under their own file plus the manual-work list name every open finding exactly once |
| PrBody.CommitCountIsSectionLength | backend/app/services/file_fix_delivery.py:88-95 | for one reading of the findings, those listed under a file's heading are exactly the ones a commit message would count |
| PrBody.DeliveredExactlyWhenItFixes | backend/app/services/file_fix_delivery.py:44-56 | a fix is delivered exactly when nothing is open or its commit can claim a finding |
| PrBody.SortKeeps | backend/app/services/file_fix_delivery.py:88-88 | the sections come in path order and are the fixes given |
| FindingStore.OpenIsWhatGoodScansSaw | backend/app/services/scan_runner.py:173-190 | over any run of scans, each with the rules it loaded, the unresolved findings are those of the last scan that ran to its end plus those of later scans that crashed before resolving |
| FindingStore.OpenIsLastScanExactlyWhen | backend/app/services/scan_runner.py:186-190 | the unresolved findings are what the last successful scan saw if and only if it resolved its stale ones or had none |
| FindingStore.OpenFindingsHaveEnabledRules | backend/app/services/scan_support.py:92-116 | after a run that ends with a good scan every open finding's rule is one that scan had loaded, so findings of removed or disabled rules are resolved |
| FindingStore.RunKeepsHistory | backend/app/services/scan_runner.py:272-296 | no run removes a finding or changes its id, rule, creation time or ignore mark |
| FindingStore.RowIsLastReport | backend/app/services/scan_runner.py:264-296 | over any run each finding says what the last report in the last scan that saw it says (severity, file, message), under that scan |
| FindingStore.UnseenRunSaysTheSame | backend/app/services/scan_runner.py:285-296 | a finding no scan of a run saw says what it said before |
| FindingStore.RowRemembersFirstReport | backend/app/services/scan_runner.py:272-284 | a finding new to a run keeps the rule of its first report and the time of the scan that made it, unignored |
| FindingStore.LastReportIsStored | backend/app/services/scan_runner.py:264-296 | a finding reported by one scan ends open with what the last report of it says, whatever was stored before |
| FindingStore.FirstReportIsInserted | backend/app/services/scan_runner.py:272-284 | the first sighting stores the rule, a new id and the time, open and not ignored |
| FindingStore.SeenExactlyWhenCarried | backend/app/services/scan_runner.py:255-258 | a scan has seen a fingerprint exactly when a report of a known rule has it |
| FindingStore.ResolvedByFirstScanMissingIt | backend/app/services/scan_support.py:105-115 | over any run a finding stays open from its last sighting to the first later scan that runs to its end, and then carries that scan's time for good |
| FindingStore.AttemptOneRow | backend/app/services/scan_support.py:111-115 | what one attempt does to status and resolution time: open and fix-in-progress become resolved when the scan misses the finding, other statuses stay |
| FindingStore.ReopenedStillSaysResolved | backend/app/services/scan_runner.py:285-295 | three finished scans of a new target over the same files, the second alone not reporting a finding, leave it unresolved by its time and resolved by its status |
| FindingStore.StatusAgreesExactlyWhenNothingReopens | backend/app/services/scan_runner.py:272-296 | status and resolution time of all findings still agree after a scan exactly when it reported no finding that was resolved |
| FindingStore.StatusSaysEverResolved | backend/app/services/scan_support.py:111-115 | over any run a finding's status says resolved exactly when some scan ever resolved it |
| FindingStore.RunAgreesExactlyWhenNothingOpenWasResolved | backend/app/services/scan_runner.py:272-296 | after any run status and time agree exactly when no open finding was ever resolved on the way |
| FindingStore.ChargesAreFinishedScans | backend/app/services/scan_runner.py:93-186 | over any run the charges name, once each and in order, the committed billable scans that completed or failed |
| FindingStore.AttemptRecords | backend/app/services/scan_runner.py:93-186 | what each kind of attempt records: no scan, or one with its outcome, billability and score, and a charge naming it if it is billable and was analysed |
| FindingStore.ScanScoreIs | backend/app/services/scan_runner.py:302-324 | the score of a scan is the mean over all fetched files of the score each has for its own known reports, or the score of all known reports together |
| ScanRunner.Tables.PersistFindings | backend/app/services/scan_runner.py:220-299 | the loop upserts as specified, reports exactly the fingerprints it opened and counts the reports of known rules |
| ScanRunner.Tables.ResolveStaleFindings | backend/app/services/scan_support.py:84-118 | exactly the open findings not seen are resolved, and counted |
| ScanRunner.Tables.RunFileScan | backend/app/services/scan_runner.py:65-217 | which answer is given, and when; refused, unfetchable, empty and failed scans move no finding, the first three charge nothing, and a successful one leaves open exactly what it saw, counts what it was told of known rules, and alone moves the last scan time |
| ScanLock.TimelyRunsAreExclusive | backend/app/services/scan_support.py:48-65 | while nobody stays past its time, in every run at most one block is inside each key and leaving deletes only the leaver's own key |
| ScanLock.TimelyRunsFromTheStartAreExclusive | backend/app/services/scan_support.py:48-65 | the same for every timely run from a server without locks |
| ScanLock.SecondGetsInExactlyAfterOverstay | backend/app/services/scan_support.py:58-60 | a second block gets in beside the first exactly when the first has overstayed |
| ScanLock.LateLeaverDeletesAnothersKey | backend/app/services/scan_support.py:61-63 | one overstay lets two blocks in that are both on time |
| ScanLock.DeadHolderBlocksUntilItsDeadline | backend/app/services/scan_support.py:37-45 | a dead holder blocks its key until exactly its deadline |
| ScanLock.LockService.Enter | backend/app/services/scan_support.py:58-60 | entering acquires exactly when the key is absent or expired, sets that key alone for the time asked, and does the protocol's step |
| ScanLock.LockService.Leave | backend/app/services/scan_support.py:61-63 | leaving deletes the key only if the entry had acquired it, and touches no other key |
| RefCache.ReturnsComeFromFetches | backend/app/services/ref_cache.py:87-105 | whatever fails or expires, a returned value came from some fetch |
| RefCache.FetchesNeverOverlap | backend/app/services/ref_cache.py:90-99 | while the lock neither fails nor expires and no fetch raises, fetches of a key never overlap, whatever reads and stores fail and whenever the value expires |
| RefCache.OverlapPossibleExactlyAfterAFault | backend/app/services/ref_cache.py:90-105 | overlapping fetches become possible exactly with a lock failure of a waiting caller, a fetch that raises, or the expiry of a lock somebody is inside |
| RefCache.OneFetchBringsTheValue | backend/app/services/ref_cache.py:87-99 | without failures and expiry at most one fetch brings a value |
| RefCache.AfterStoreEveryoneGetsTheValue | backend/app/services/ref_cache.py:87-99 | once a value is stored it stays, nobody fetches again and everyone still to finish returns it |
| RefCache.ExpiredLockAllowsOverlap | backend/app/services/ref_cache.py:92-105 | a run from the empty cache in which an expired lock lets a second caller fetch, and the first fetches twice |
| RefCache.FailedLockAndRaisingFetchAllowOverlap | backend/app/services/ref_cache.py:100-105 | runs from the empty cache in which a caller that cannot lock, or whose fetch raises, fetches beside the one inside |
| RefCache.Cache.CachedFetch | backend/app/services/ref_cache.py:70-105 | one caller's code follows the protocol whatever fails; which of the cached value, the fetch inside the lock and the fetch without it is returned, and when it raises; only a fetched value is ever written, and a returned one is unless the write fails |
| Landing.RegionReplaced | landing/build.py:51-62 | whatever stood in the first region is replaced, and the text before its start and after its end marker is what it was |
| Landing.WrittenRegion | landing/build.py:52-62 | the same with the comments written out: the partial stands between them on lines of its own |
| Landing.MissingRegionIsLeft | landing/build.py:54-56 | a page without the region is left alone |
| Landing.TailIsStripped | landing/build.py:62-62 | only white space at the end of a partial is lost, and all of it |
| Landing.StopsExactlyWhenUnterminated | landing/build.py:54-61 | rendering stops exactly when a start marker has no end marker after it |
| Landing.RenderPage | landing/build.py:44-63 | the loop over the partials computes the specified rendering |
| Landing.Build | landing/build.py:75-96 | a build writes every page up to the first it stops at, `--check` writes none and exits 1 exactly when some page would change |
| LandingLaws.LastBuildWins | landing/build.py:44-63 | building from one set of partials and then another gives what the other alone gives from the original page, and both stop on the same pages at the same region |
| LandingLaws.RenderIsIdempotent | landing/build.py:44-63 | rendering a rendered page changes nothing, nested regions included |
| LandingLaws.OutsideTheRegionsUnchanged | landing/build.py:44-63 | on any page with unique starts, overlapping regions included, building and then emptying every region gives what emptying them gives at once |
| LandingLayout.BuildRewritesOnlyTheRegions | landing/build.py:44-63 | on a page of text and regions, regions inside regions included, each outermost region with a partial holds exactly that partial, and any other region and every piece of text outside are what they were |
| LandingLaws.EveryRegionHoldsItsPartial | landing/build.py:44-63 | in a rendered page each region left holds exactly its own partial |
| LandingLaws.CheckPassesAfterBuild | landing/build.py:75-96 | `--check` passes on the pages a build has written |
| LandingLaws.RepeatedStartIsBuiltTwice | landing/build.py:51-62 | with a start marker twice in the page a second build can still change it |
| LandingSettled.StaysSettledExactlyWhenSpared | landing/build.py:51-62 | repeated markers or not, rewriting a region keeps another one settled exactly when it does not swallow that one's first copy, or what follows is settled too |
| LandingSettled.SparingBuildIsIdempotent | landing/build.py:44-63 | building twice is building once on every page whose build spares the regions it has written |
| LandingSettled.UniqueStartsAreSpared | landing/build.py:51-57 | a region whose start marker occurs once is always spared |
| MarkedText.FindIsFirst | landing/build.py:54-57 | partitioning splits at the first occurrence, and fails only when there is none |
| Containers.FinalSweepIsOneFoldOfTheLog | action/src/post.ts:31-45 | after any lost, repeated, overlapping or reordered windows and lost files, the final sweep gives every container the flags of one in-order fold of the log |
| Containers.ReplayIsHarmlessExactlyWhen | action/src/containers.ts:274-281 | folding a window in changes no flag exactly when it tells nothing that is not recorded |
| Containers.ReplayOfAPartGoesBack | action/src/containers.ts:274-281 | a window that changes a flag back, which none of the callers folds: only the first of two deaths |
| Containers.PeaksAreHighWaterMarks | action/src/containers.ts:228-272 | each peak is the maximum of all readings that are not null, null exactly when there were none, and each sample is counted once |
| Containers.PeaksIgnoreOrder | action/src/containers.ts:228-272 | runs with the same readings have the same peaks, whatever the order |
| Containers.EntriesAndIds | action/src/containers.ts:252-281 | after any run there is an entry for exactly the containers sampled or named by an event since the file was last lost, with the id of the last sample |
| Containers.ReadingIsKernelsFirst | action/src/containers.ts:254-269 | the kernel's mark is read when there is one, else the momentary reading; throttling has only the kernel's |
| Containers.Accumulate | action/src/containers.ts:245-284 | the two loops compute the specified accumulator; a flag is set or an exit code replaced exactly as the events say |
| Scoring.ScoreInRange | backend/app/services/scoring.py:45-78 | for non-negative weights the score is in 0..100 |
| Scoring.GroupMeanIsMean | backend/app/services/scoring.py:69-76 | without violations of the target the score is the mean of the scores its groups would have alone |
| Scoring.TargetCostsComeOff | backend/app/services/scoring.py:76-78 | violations of the target lower that score by exactly the sum of their costs, or to zero when they cost more; nothing at all scores 100 |
| Scoring.ViolationCosts | backend/app/services/scoring.py:19-48 | what a violation of each severity costs, an unknown one included, times its weight; several cost the sum |
| Scoring.TargetViolationNeverHelps | backend/app/services/scoring.py:51-85 | one more violation of the target never raises the score or improves the grade |
| Scoring.GroupViolationNeverHelps | backend/app/services/scoring.py:69-78 | the same for one more violation in any group |
| Scoring.CleanGroupNeverHurts | backend/app/services/scoring.py:69-76 | a clean group never lowers the score |
| Scoring.PerFileNeverBelowPooled | backend/app/services/scan_runner.py:302-324 | averaging per file, clean files included, never grades below pooling the same violations |
| Scoring.ScoreToGrade | backend/app/services/scoring.py:81-85 | the scan of the thresholds gives the rung the score falls on, with the thresholds and grades written out |
| Averages.AverageLatestScores | backend/app/services/scoring.py:88-107 | the loop averages the scores of each file's first row |
| Averages.AverageIsSumOverCount | backend/app/services/scoring.py:103-107 | an average is there exactly when some row has a score, and is the sum of the scores over their number |
| Averages.RepoAverageIs | backend/app/services/scoring.py:147-151 | the same for the rows of one repository |
| Averages.ComputeAvgScoresBatch | backend/app/services/scoring.py:139-151 | the single pass gives each asked repository the average over its files' first rows |
| Averages.LatestIsNewestPerFile | backend/app/services/scoring.py:91-102 | on rows ordered by file, newest first, those are one row per file and its newest |
| Averages.BatchEqualsSingleExactlyWhenFilesDoNotSpan | backend/app/services/scoring.py:139-145 | the single pass keeps for every repository what its own pass would keep, if and only if no file spans two repositories |
| Effects.EffectsRunOnceInQueueOrder | backend/app/core/db.py:35-59 | every run starts each queued effect at most once and in queue order |
| Effects.RunsFromTheStartKeepOrder | backend/app/core/db.py:35-59 | the same for every run of a new session |
| Effects.RunsExactlyWhen | backend/app/core/db.py:44-59 | a waiting effect runs exactly when the first event that empties the queue is a wrapped commit that succeeds and no effect before it raises |
| Effects.QueuedEffectRunsExactlyWhen | backend/app/core/db.py:35-59 | the same for an effect as it is queued |
| Effects.WaitingAfterCommit | backend/app/core/db.py:44-49 | after a commit through the wrapper what waits is exactly what the called effects queued in turn, in order, and nothing when it failed |
| Effects.RollbackDropsEffectsOfACommittedTransaction | backend/app/core/db.py:52-59 | a commit past the wrapper followed by a rollback drops the committed transaction's effects |
| Effects.DbSession.CommitSession | backend/app/core/db.py:44-49 | the wrapper pops, commits and calls as specified, and fails exactly when the commit does or an effect raises |
| Effects.DbSession.OnSoftRollback | backend/app/core/db.py:52-59 | a savepoint rollback drops nothing, an outermost one drops all |

## Left out

- FixDelivery.DeliverFileFixes: its rows are not disturbed by others here; interference with them between selection, claim and end is in FixPipeline and FixOwnership. Between its two readings the findings of a fix stay the same ones. The pull-request record, the expected base contents, titles and error texts are not modelled.
- ScanRunner.Tables.RunFileScan: all times one scan writes are one time; the rounding of the score in the answer, the head SHA and the file count are left out.
- RefCache.Cache.CachedFetch: one caller's code with failures around it; other callers are in the protocol's `Step`.
- Effects.DbSession.CommitSession: an effect that itself commits the session it was queued on is not modelled.
- Containers.Accumulate: entries are values, so the in-place update of the previous map's entries, which its callers never look at again, is not captured; neither are NaN readings.
- Averages.ComputeAvgScoresBatch: rows whose file id is null, which the batch skips, are not modelled; the query's filters are inputs.
- Landing.Build: pages are an array of texts in the order they are visited; reading and writing files and messages are left out.
- FixVetting.KeepsExactlyWhatPasses: a restored rewrite may be empty and still be kept; it is then never selected for delivery, since content must be non-empty.
- Rows are values in tables; sharing of ORM objects within a session is not captured.
- The per-engine columns of findings, `resolution_reason` of scan findings, line numbers and context are left out; they are copied through.
- Which findings a model says it could not fix (`needs_manual_work`) is an input of the delivery; parsing it is left out.
- User rejection, sweeping and merge webhooks fire other edges of the fix machine and are left out.
- The workflow engine's own fix route and delivery repeat the charging shape with other rows.
- Quota internals, activity reads, rule loading, category scores, badges, SARIF, plans and version helpers would add only easy members.
- Whether a delivery ever ends is not claimed; an exception that escapes it is a crash.
- Duplicate paths in one fetch when scoring per file collapse in the source's dict; the model takes fetched paths as distinct.
