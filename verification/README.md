# VibeTable release and data-exchange core, modelled in Dafny

The project models the parts of VibeTable whose correctness is an argument rather than a lookup: the race-lane
scheduler, the export and import protocols, the transactional upgrade, the identity and publication of a release,
and two small interpreters. Code that changes things step by step is modelled by methods and classes proved against
a specification; the properties themselves are lemmas about that specification.

Anything outside the program (the Host, the plan owner, the query port, the file system, GitHub) is an environment.
It answers arbitrarily within the contract the code relies on: every call may fail before or after taking effect,
replies may be lost or malformed, and a cancellation may land at any `await`. A statement about a method is therefore
a statement about every interleaving.

| files | component |
|---|---|
| `Scheduling`, `RaceLanes`, `RaceWeights`, `RaceSelection`, `RaceCoverage`, `RaceBalance` | race-lane scheduler (`qa/next.py`) |
| `FileWork`, `HostFiles`, `Paging`, `TaskStatus`, `ExportService`, `TaskRuntime`, `TaskHandles` | export protocol and task runtime |
| `ImportApply`, `ImportRetries`, `PlanBudget`, `PlanText` | import protocol and the preview size check |
| `FileSystem`, `TreeHash`, `Upgrade` | transactional upgrade (`scripts/release.py`) |
| `TreeDigest`, `TreeIdentity`, `Publish`, `Eligibility` | release identity, publication and eligibility |
| `JsonSchema`, `YamlScalar` | the two interpreters |
| `Common`, `Ordering` | results, options, Python's string order and its stable sort |

## Findings

Places where the code does not keep a promise on all inputs. Each has a lemma or a clause that shows the failure and
one that says exactly when the promise holds.

- **A long idempotency prefix loses the settlement.** The request contract admits prefixes of 128 characters; the key
  is the prefix plus `-0` and the chunk result accepts 128. A prefix of 127 or 128 characters makes building the chunk
  result fail after the commit was confirmed: the plan is never settled and the Host grant is released for another
  import (`ImportApply.LongPrefixLosesSettlement`; exact condition in `ImportApply.OneSettlementExactly`).
- **Reusing a task id too early gives two terminal statuses.** `settle_export_grant` pops handles by task id after
  waiting for the executions it captured. If the id is started again meanwhile, the new execution's handle is popped
  and it is reported twice (`TaskHandles.ReuseGetsTwo`; exact condition in `TaskHandles.SafeToStartExactly`).
- **A Lookup export whose first page has no snapshot is not one view.** Such a fetch can complete with rows that are
  no view at all (`Paging.UnboundFetch`); a first page makes every complete fetch one view exactly when it carries a
  snapshot (`Paging.OneViewExactly`).
- **`_replace_tree` alone is not failure-atomic.** If only moving the old tree aside fails, the handler removes it
  where it stands (`Upgrade.FirstRenameLosesTree`); `Upgrade.OldTreeKept` says exactly which failing steps keep the old
  tree. The transaction as a whole recovers from its backup (`Upgrade.ActivateUpgrade`).
- **The backup hash does not separate names from contents.** `_tree_hash` feeds each path and then its bytes with
  nothing between them. In any tree, moving the first byte of a file to the end of its name goes unseen if the file
  keeps its place in the listing (`TreeHash.HashCollides`). The hash tells apart any two trees with the same paths and
  sizes (`TreeHash.HashDetermines`). On its own it pins down exactly the empty tree and single files whose stream
  cannot be read as another name or as two files (`TreeHash.PinnedExactly`), whatever paths the platform admits; two
  files or more are never pinned down. A file `a` holding `bc` could be `ab` holding `c` (`TreeHash.PosixExamples`).
- **An error text beyond 1024 characters crashes the report.** `TaskStatus` rejects it, so `execute` ends with no
  terminal status and its handle stays (`TaskRuntime.LongTextCrashes`; exact condition in
  `TaskRuntime.CrashesExactly` and in the contract of `TaskRuntime.Execute`).
- **A manifest that cannot be downloaded counts as absent.** When no other command fails, reconciliation succeeds
  exactly if the identity matches or the manifest was not read; in the second case a release of another identity is
  replaced (`Publish.Reconcile`).
- **Three publishing states no later run leaves.** A tag set in the clone whose push failed stops every creation,
  which asks for the tag on the remote (`Unpushed` in `Publish.Publish`); a prerelease under the tag stops every run;
  and so does a draft left by an interrupted creation if the query by tag shows drafts, which this model leaves open.
  `Publish.Publish` states exactly from which states a run without failing commands succeeds.
- **Counters can outgrow the report envelope.** The task contract bounds no counter. The budget covers exactly the
  counters whose digits, with the state, take at most 3787 bytes (`PlanBudget.CountersExactly`).
- **References that lead only to references never end.** The schema validator then recurses on the unchanged instance
  without bound. It ends on every instance if no way leads from its schema to such a reference (`JsonSchema.Validate`),
  and that condition fails exactly when some way does (`JsonSchema.EndlessExactly`).

## Model

| member | source | states |
|---|---|---|
| `RaceBalance.HeaviestLane` | `qa/next.py:249-296` | Graham's bound: no lane is heavier than (4/3 − 1/(3m)) times the heaviest lane of any other way of dealing the same work items into m lanes |
| `RaceBalance.AverageLane` | `qa/next.py:285-296` | the heaviest lane is at most total/m + (1 − 1/m) times the largest item |
| `RaceBalance.AsAssignment` | `qa/next.py:285-296` | any way of dealing the items into lanes, as multisets, is an assignment of the sorted items with the same lane weights |
| `RaceBalance.PackageWeightConserved` | `qa/next.py:259-283` | the items a package is split into weigh together exactly the weight on record, or else one for each command and at least one |
| `RaceBalance.WorkConserved` | `qa/next.py:257-284` | all work items together weigh what all packages weigh |
| `RaceBalance.OrderedDescends` | `qa/next.py:289-292` | items are placed in descending weight, all of them positive |
| `Scheduling.Spread` | `qa/next.py:293-296` | at every step of the loop no two totals differ by more than the largest item placed so far |
| `Scheduling.TotalsConserve` | `qa/next.py:288-296` | the lane totals always add up to the items placed so far |
| `Scheduling.RoomWhileBig` | `qa/next.py:289-296` | Graham's counting step: while every item exceeds a third of what another assignment needs per lane, some lane still has room within that need |
| `Scheduling.LptWithin` | `qa/next.py:289-296` | the greedy assignment stays within any bound that admits items of at most a third |
| `RaceSelection.Distribute` | `qa/next.py:285-296` | the loop that mutates totals and assignments ends with exactly the lanes and totals of the greedy assignment |
| `RaceSelection.Place` | `qa/next.py:293-296` | one turn changes only the first least loaded lane, by the item placed |
| `RaceSelection.CollectWork` | `qa/next.py:257-284` | the work items; of two commands of one split package a long test weighs ten times an ordinary one, and two of a kind weigh the same |
| `RaceWeights.PlanItemsMean` | `qa/next.py:259-283` | a plan is one item for the whole package, or one for each of its commands in order if it is split |
| `RaceWeights.LongByName` | `qa/next.py:264-273` | a command is long exactly if its first test-selecting argument, without the anchors, names a long test |
| `RaceWeights.OrderedPrecedes` | `qa/next.py:289-292` | the placing order: heavier first, equally heavy ones by package and then by command |
| `Ordering.StringLeMeans` | `qa/next.py:309-309` | strings compare by prefix, or by the first character in which they differ |
| `RaceSelection.GroupLane` | `qa/next.py:298-306` | the dictionary filled item by item is the grouping by package |
| `RaceSelection.SelectRacePackagePlans` | `qa/next.py:249-324` | refuses exactly the invalid shard coordinates and an index beyond the commands of a repeated package's last plan; with distinct packages returns that lane's slice |
| `RaceLanes.GroupsCharacterized` | `qa/next.py:298-306` | one group per package present, holding that package's plan and exactly its indexes |
| `RaceCoverage.OneLane` | `qa/next.py:285-296` | every work item is assigned to exactly one lane |
| `RaceCoverage.SelectedCut` | `qa/next.py:298-323` | a lane's entry is the package's plan cut to the commands assigned to that lane, in the plan's order |
| `RaceCoverage.SelectedPresent` | `qa/next.py:298-323` | a package has an entry in a lane exactly when one of its units is assigned there |
| `RaceCoverage.SelectedAscends` | `qa/next.py:308-323` | a lane lists its packages in strictly ascending order, so each at most once |
| `RaceCoverage.LaneRunsPositions` | `qa/next.py:902-929` | a lane runs the tests at its positions, in the package's order, commands unchanged |
| `RaceCoverage.EveryTestOnce` | `qa/next.py:1061-1071` | over all lanes together every discovered test of every package runs in exactly one lane, although ordinary packages are assigned before discovery and split ones after it |
| `FileWork.RunFileWork` | `backend/application/file_work.py:17-51` | never returns, raises or passes on a cancellation while the worker runs; on cancellation the worker's own error surfaces, otherwise the cancellation |
| `FileWork.Join` | `backend/application/file_work.py:46-48` | however many cancellations arrive, ends only with the job |
| `HostFiles.BlocksCarrySpool` | `backend/application/host_files.py:158-173` | the blocks start where the previous one ended, all but the last are full, and they concatenate to the whole spool |
| `HostFiles.SendBlocks` | `backend/application/host_files.py:158-173` | sends a prefix of the blocks; a normal end means all were acknowledged and the Host holds exactly the spool |
| `HostFiles.Commit` | `backend/application/host_files.py:185-200` | marks the phase before issuing the one commit; a normal end means the confirmed byte count is the spool's; every failure is `export_outcome_unknown` |
| `HostFiles.EndWrite` | `backend/application/host_files.py:131-210` | exactly one finish per transfer, nothing after it; a commit only after every block was acknowledged; a token set before it prevents the commit; if nothing fails and no cancellation comes, a complete spool is committed and the end is normal |
| `HostFiles.RequestsCommit` | `backend/application/host_files.py:146-205` | in the request sequence of a transfer only the last request is a finish, and a commit was issued exactly when it is that one |
| `Paging.OneView` | `backend/application/export_service.py:561-616` | accepted pages after a first page with a snapshot are a prefix of one view, and all of it once a page is short |
| `Paging.BindAllExactly` | `backend/application/export_service.py:585-616` | pages can be bound together exactly if each is ready with a well-typed snapshot or none, and once one has carried a snapshot every later one carries the same |
| `Paging.IdentityExactly` | `backend/application/export_service.py:561-582` | different snapshots name different views |
| `Paging.BoundPagesCarrySnapshots` | `backend/application/export_service.py:585-616` | every accepted page of a bound export carries the bound identity |
| `Paging.UnboundFetch` | `backend/application/export_service.py:257-362` | after any acceptable first page without a snapshot, short or full, a fetch can complete with rows that are no view |
| `Paging.OneViewExactly` | `backend/application/export_service.py:585-616` | whatever the views are, every complete fetch that starts with an acceptable page is one view if and only if that page carries a snapshot |
| `TaskStatus.ProgressReporter.Report` | `backend/application/task_runtime.py:45-77` | reported progress never moves backwards |
| `ExportService.RecordPages` | `backend/application/export_service.py:364-462` | ends with every row of the accepted pages up to a short one, or because the token was set; without failing calls it is refused only for pages that cannot be bound together; it terminates although the table may change |
| `ExportService.LookupPages` | `backend/application/export_service.py:257-362` | the same for the Lookup plane, whose pages may lack a snapshot |
| `ExportService.HeaderComplete` | `backend/application/export_service.py:280-306` | an accepted first Lookup page describes exactly the requested Lookups, and the columns are the base ones followed by the new keys, none twice |
| `ExportService.HeaderAccepted` | `backend/application/export_service.py:278-300` | exactly when a first Lookup page is accepted |
| `ExportService.ExportBody` | `backend/application/export_service.py:158-210` | a body that ends normally spooled all rows of a complete fetch, and the token was not set beforehand; without failures and cancellations it ends normally exactly if there is no reason to refuse |
| `ExportService.Export` | `backend/application/export_service.py:137-211` | a normal return means the target is the encoding of all rows; an unauthorized export never reaches the Host; without failures and cancellations an authorized one returns normally exactly if there is no reason to refuse; without a submitted commit the target is unchanged; after one, every raised error is `export_outcome_unknown` |
| `TaskRuntime.CompleteIsOneView` | `backend/application/export_service.py:373-404` | a complete fetch is one full unpaged view, each row once and in order |
| `TaskRuntime.Execute` | `backend/application/task_runtime.py:110-189` | for every interleaving: at most one terminal status, last, and none exactly when the handler raised a text too long for a status and the task does not count as cancelled; succeeded exactly for a returned value, which it carries; cancelled exactly for a cancellation or an error under a set token, both without a commit; the not-committed receipt exactly on a failure in the write phase without a commit; cancelled or not-committed means no commit was ever issued; succeeded means the Host's target holds every row of one view and `rows_written` is its length |
| `TaskRuntime.ClassifyMeans` | `backend/application/task_runtime.py:127-184` | the classification of every way the handler can end |
| `TaskRuntime.CrashesExactly` | `backend/application/task_runtime.py:144-184` | when building the terminal status fails, in terms of the handler's error, the token and the submission |
| `TaskRuntime.LongTextCrashes` | `backend/contracts/task.py:98-98` | a text of 1025 characters does it |
| `TaskHandles.AtMostOneTerminal` | `backend/application/task_runtime.py:91-208` | over every run that reuses no id a settling call still holds, no execution gets two terminal statuses, and one that ended without a handle got exactly one |
| `TaskHandles.ReuseGetsTwo` | `backend/application/task_runtime.py:198-208` | from any reachable state, starting an id that a settling call still holds can end in two terminal statuses |
| `TaskHandles.SafeToStartExactly` | `backend/application/task_runtime.py:91-208` | a start keeps the one-terminal promise in all continuations if and only if no settling call holds its id |
| `ImportApply.ApplySerialized` | `backend/application/import_service.py:805-834` | reserve, apply, settle the grant on the way out: the calls and the result of one attempt, whose meaning the following rows state |
| `ImportApply.ApplyReserved` | `backend/application/import_service.py:836-1001` | the calls, the result and the commit mark of the reserved part, for every answer of the outside world |
| `ImportApply.HandleFailure` | `backend/application/import_service.py:938-973` | settles before notifying; unknown exactly when submitted without a definite rejection |
| `ImportApply.SettlesAs` | `backend/application/import_service.py:811-1001` | which settlement each attempt issues, in terms of what the outside world answers |
| `ImportApply.GrantSettled` | `backend/application/host_files.py:218-242` | a returned, named reservation is settled exactly once, as the last call, as consumed exactly after a confirmed commit whose key fits; no other attempt settles a grant |
| `ImportApply.KeysAreBound` | `backend/application/import_service.py:850-865` | every bind offers the caller's prefix or the token's, and every submission carries the key of the prefix just accepted |
| `ImportApply.CommittedSurfaces` | `backend/application/import_service.py:974-1001` | a confirmed commit comes back with the authority's counts, whatever goes wrong afterwards |
| `ImportApply.UnsubmittedSurfaces` | `backend/application/import_service.py:836-896` | what an attempt that submitted nothing comes back with, case by case |
| `ImportApply.RejectedSurfaces` | `backend/application/import_service.py:938-973` | a definite rejection comes back with every valid row as failed, unless a later error replaces it |
| `ImportApply.OneSettlementExactly` | `backend/application/import_service.py:811-1001` | an attempt settles exactly once whatever happens if and only if its key fits the chunk result or it cannot submit at all |
| `ImportApply.LongPrefixLosesSettlement` | `backend/contracts/data_io.py:204-230` | a 128-character prefix: confirmed commit, no settlement, grant released |
| `ImportApply.RejectionsAreHonest` | `backend/application/import_service.py:850-973` | `rejected` only if nothing was submitted or the code is one of the four definite rejections |
| `ImportApply.CommitsAreHonest` | `backend/application/host_files.py:212-242` | `committed` exactly after a confirmed commit whose key fits; the grant is consumed exactly then if the reservation has a name, as the very last call |
| `ImportApply.ResultsAreHonest` | `backend/application/import_service.py:836-1001` | a normal result counts rows only after a confirmed commit and reports failure only when nothing was applied |
| `ImportApply.UndecidedSurfaces` | `backend/application/import_service.py:1102-1108` | an undecided submission never returns normally; it surfaces as `import_outcome_unknown` unless a cancellation in the settlement, a failing notification or a failing release replaces it |
| `ImportRetries.AppliedAtMostOnce` | `backend/application/import_service.py:853-865` | over any sequence of attempts and late deliveries all submissions carry the one bound key, and rows are written at most once |
| `ImportRetries.ConfirmedExactlyOnce` | `backend/application/import_service.py:1090-1095` | if some attempt was confirmed, rows are written exactly once |
| `ImportRetries.StepKeepsInv` | `sidecar/internal/app/import_plan_rpc.go:246-288` | the owner never swaps a bound prefix, and nothing written is lost |
| `PlanBudget.LimitsMean` | `backend/application/import_service.py:363-389` | the limits of the check and of the frame in bytes |
| `PlanBudget.BudgetExactly` | `backend/application/import_service.py:356-393` | every plan that passes the size check fits its frame if and only if envelope and real token together cost at most the budget more than the placeholders |
| `PlanBudget.CountersExactly` | `backend/contracts/task.py:59-71` | for every task id, kind and message within the contract, every minted token and every plan that passes the check, the report fits if and only if the digits of its counters and its state take at most 3787 bytes |
| `PlanBudget.MintedPlanArrives` | `backend/application/import_service.py:759-789` | within those counters, with worst-case escaping, a plan that passed before minting is what the Host receives |
| `PlanBudget.CompactExactly` | `backend/__main__.py:193-206` | for every task id, kind and message within the contract, the compact failure fits the frame if and only if counters and notice leave it room |
| `PlanBudget.DeliveredFits` | `backend/__main__.py:176-206` | with such counters and notice some terminal report always fits |
| `PlanBudget.FrameSize` | `backend/rpc/framing.py:32-42` | the bytes of the report frame, field by field |
| `PlanBudget.SizeIsBytes` | `backend/rpc/framing.py:33-38` | the size computed by structure is the UTF-8 length of the encoded text |
| `PlanBudget.EscapeBytes` | `backend/application/import_service.py:356-362` | JSON escaping costs at most six bytes a character, and control characters do cost six |
| `PlanText.QuoteReadsBack` | `backend/rpc/framing.py:33-36` | a quoted string reads back as itself, whatever follows it |
| `PlanText.DigitsReadBack` | `backend/rpc/framing.py:33-36` | a counter reads back as itself |
| `PlanText.WidthMeans` | `backend/rpc/framing.py:33-36` | the counted width is that of a UTF-8 encoding that reads back |
| `Upgrade.ReplaceTree` | `scripts/release.py:201-228` | for every choice of failing steps: nothing but the destination changes, and whether it returns and what it leaves there are functions of what was there and of the steps |
| `Upgrade.OldTreeKept` | `scripts/release.py:213-228` | on failure the destination is as before if and only if the copy failed, the old tree (if any) was moved aside and back, clearing it failed before anything was gone, or the new tree equals it |
| `Upgrade.FirstRenameLosesTree` | `scripts/release.py:213-223` | with only the first rename failing, the destination is gone |
| `Upgrade.Swap` | `scripts/release.py:212-223` | the guarded part of the tree replacement, failure by failure |
| `Upgrade.ReplaceFile` | `scripts/release.py:231-237` | failure-atomic: the destination is the new file if it returns normally and the old one otherwise |
| `TreeHash.HashDetermines` | `scripts/release.py:59-66` | among trees with the same paths and sizes the tree hash is equal exactly for equal trees |
| `TreeHash.HashCollides` | `scripts/release.py:63-65` | in any tree, moving the first byte of a file to the end of its name leaves the hash unchanged if the file keeps its place in the listing |
| `TreeHash.PinnedExactly` | `scripts/release.py:126-134` | for every platform: the recorded hash admits no other tree if and only if the tree is empty, or a single file whose stream has no other prefix that is a name and no second name, listed later, within its content |
| `TreeHash.ManyUnpinned` | `scripts/release.py:59-66` | a tree of two files or more always shares its hash with a single file |
| `TreeHash.PosixSound` | `scripts/release.py:63-64` | relative paths in ascending order are such a platform |
| `TreeHash.PosixExamples` | `scripts/release.py:63-65` | there, one file holding a zero byte is pinned down and `a` holding `bc` is not |
| `Upgrade.PrepareUpgrade` | `scripts/release.py:69-123` | a backup of both sides that verifies, or a failure, which comes exactly when a precondition does not hold or a step fails; the installation is untouched |
| `Upgrade.Install` | `scripts/release.py:313-321` | for every choice of failing steps: succeeds exactly when every step of it works, and then the migrated copy and the candidate binary are live; otherwise what is left of each side |
| `Upgrade.Restore` | `scripts/release.py:322-347` | each side is restored exactly when the steps of its own replacement work, independently of the other |
| `Upgrade.InstallOrRestore` | `scripts/release.py:313-356` | the ending as a function of the data that was there and of the steps |
| `Upgrade.ActivateUpgrade` | `scripts/release.py:271-356` | for every choice of failing steps: refused exactly when a check or the staging fails; no recorded state touches the backup or the candidate; activated means both sides new; after a failed installation, restoration steps that work leave exactly the backed-up pair |
| `Upgrade.UpgradeInstallation` | `scripts/release.py:69-356` | prepare and activate together: both sides new, or untouched, or both as they were backed up (a missing data directory then is an empty one), unless a step of a restoration failed; when each of these comes |
| `TreeDigest.SerializeInjective` | `qa/release_candidate.py:38-49` | different lists of entries are never serialized alike |
| `TreeDigest.FeedDigest` | `qa/release_candidate.py:38-49` | the bytes fed to the digest are the serialization behind the domain prefix, with the entry count |
| `TreeDigest.PackageEntries` | `qa/release_candidate.py:52-66` | lists every file in the order of full paths, or fails on an empty package |
| `TreeIdentity.SamePackages` | `qa/release_candidate.py:38-66` | from files to digested bytes: equal exactly if two packages hold the same paths with the same contents, wherever they are |
| `TreeDigest.ArchiveEntries` | `qa/release_candidate.py:69-99` | the entries of an archive, refused for duplicates, unreadable members or emptiness |
| `TreeIdentity.ReadArchive` | `qa/release_candidate.py:73-99` | accepted exactly if names are distinct, every member is a readable relative path below the root, and there is a file; the entries describe name, size and hash of each file |
| `TreeIdentity.SameArchives` | `qa/release_candidate.py:38-99` | for two accepted archives: equal bytes exactly for the same files with the same contents in the same order |
| `TreeIdentity.JoinSplit` | `qa/release_candidate.py:79-87` | joining undoes splitting, for every name |
| `TreeDigest.SplitJoin` | `qa/release_candidate.py:79-87` | splitting an archive name gives back the path it was joined from |
| `TreeDigest.MembersSorted` | `qa/release_candidate.py:140-150` | the archive's members are already in the order the reader sorts them into: a common prefix does not change the order |
| `TreeDigest.MembersAgree` | `qa/release_candidate.py:125-165` | directory and archive yield the same entries in the same order |
| `TreeDigest.RefusedExactly` | `qa/release_candidate.py:80-91` | an archive of a package is refused exactly when some name has a backslash |
| `TreeDigest.CreateArchive` | `qa/release_candidate.py:125-165` | succeeds exactly for packages with a file and no backslash in a name, with one member per file under the root holding its content |
| `Publish.EnsureTag` | `scripts/automation_publish.py:27-32` | an existing tag is never moved; tagging and pushing may each fail; without a failing command it succeeds exactly when the tag fits |
| `Publish.DeleteStale` | `scripts/automation_publish.py:83-114` | removes only stale assets, never one that matched |
| `Publish.Reconcile` | `scripts/automation_publish.py:68-156` | success means exactly the candidate; when nothing but the manifest download fails, it succeeds if and only if the identity matches or the manifest was not read; changes nothing when the release already matches or a read manifest has another identity |
| `Publish.Publish` | `scripts/automation_publish.py:20-156` | one run from any remote state: without a failing command it succeeds if and only if the state is ready; never moves a tag; an unpushed tag, a prerelease and a shown draft are left as they are |
| `Publish.PublishAgain` | `scripts/automation_publish.py:20-156` | from any state and however the first run went: a second run without failing commands succeeds exactly if the first left a ready state, which it does after success or from a ready published release; the run after a success sends no change |
| `Eligibility.ProductPartition` | `qa/release_eligibility.py:151-176` | refuses exactly the configurations that do not fit the manifest |
| `Eligibility.SelectedOnce` | `qa/release_eligibility.py:151-176` | every scenario is selected by exactly one stage, at most once there |
| `Eligibility.SelectionMeans` | `qa/release_eligibility.py:168-176` | a lane's stage selects exactly its own scenarios, the default stage those of no lane |
| `Eligibility.SelectedIsListed` | `qa/release_eligibility.py:168-176` | nothing outside the manifest is selected |
| `Eligibility.KeepOrder` | `qa/release_eligibility.py:168-176` | a selection keeps the manifest's order |
| `Eligibility.AggregateReports` | `qa/release_eligibility.py:214-339` | accepts exactly the report sets in which every required lane reported once under one identity, every required stage passed, each race lane appears in order, and the E2E runs selected the partition |
| `Eligibility.EveryScenarioRan` | `qa/release_eligibility.py:285-302` | in an accepted release every scenario is named by exactly one of all reported product E2E runs, once there, and that run passed |
| `Eligibility.EveryScenarioOnce` | `qa/release_eligibility.py:285-302` | the same in terms of the reports alone: one result of a product stage names it, under the one identity |
| `Eligibility.EveryStageOnce` | `qa/release_eligibility.py:258-302` | every required stage but the race has exactly one result in all reports, which passed under the one identity |
| `Eligibility.EveryRaceLane` | `qa/release_eligibility.py:297-299` | the race has exactly one result for each race lane, in order |
| `Eligibility.RunsMean` | `qa/release_eligibility.py:260-266` | the runs of a stage are its results in all reports, each once and in order |
| `Eligibility.ReportedMeans` | `qa/release_eligibility.py:179-185` | a command is unreadable exactly if a `--scenario` ends it, and otherwise selects what follows each one, in order |
| `Eligibility.StageRunsOnce` | `qa/release_eligibility.py:290-302` | a product stage has exactly one reported run, and it names what the partition gives the stage |
| `JsonSchema.Validate` | `scripts/versioning.py:258-327` | ends on every instance when no schema it can reach starts an endless chain of references, and finds no error exactly when the instance satisfies the declarative meaning |
| `JsonSchema.ValidateItems` | `scripts/versioning.py:299-310` | the array part of the same |
| `JsonSchema.ValidateMembers` | `scripts/versioning.py:311-327` | the object part of the same |
| `JsonSchema.CheckFlat` | `scripts/versioning.py:282-298` | type, const, enum, pattern and minimum, as keywords on the whole instance |
| `JsonSchema.SameMeans` | `scripts/versioning.py:285-289` | values are equal exactly if their canonical forms are, with every number and boolean as the number it stands for |
| `JsonSchema.FollowMeans` | `scripts/versioning.py:266-280` | a reference is absent if missing or null, and leads exactly where its text names an object among the definitions |
| `JsonSchema.MeansItsReference` | `scripts/versioning.py:266-280` | a schema means what every schema along its chain of references means, whatever keywords stand beside the references on the way |
| `JsonSchema.EndlessExactly` | `scripts/versioning.py:266-280` | that condition holds if and only if no way the validator can go leads from the schema to an endless chain |
| `YamlScalar.ReadYamlScalar` | `scripts/automation_core.py:126-143` | returns the first non-empty value whose chain of parents is the dotted key, unquoted, and fails exactly when there is none |
| `YamlScalar.ParseExactly` | `scripts/automation_core.py:132-138` | a line is a key line exactly if it reads as blanks, key, colon and a value between blanks, and then in one way |
| `YamlScalar.KeyLineReads` | `scripts/automation_core.py:129-134` | the key lines are lines that read as one, in order |
| `YamlScalar.ReadLineIsKey` | `scripts/automation_core.py:129-134` | and every line that reads as one is among them |
| `YamlScalar.PoppedIsParents` | `scripts/automation_core.py:135-137` | at each key line the popped stack is exactly the line's parents: earlier value-less keys indented less than every key line since |
| `YamlScalar.PushedIsOpen` | `scripts/automation_core.py:139-142` | after the line, the stack is the blocks still open |
| `YamlScalar.ParentsRise` | `scripts/automation_core.py:135-142` | the stack's indents rise strictly |

## Left out

- Subprocesses, process trees, timeouts, evidence copying and command lines of `qa/next.py`, and the self-update smoke in `scripts/build_next.py`: plumbing.
- Floating-point rounding of weights: reals are used, so ties that only rounding creates or breaks are not captured.
- RaceCoverage.EveryTestOnce: for distinct packages, as `go list` yields them.
- TaskRuntime.Execute: an error text with a lone surrogate, which a status may refuse too, is outside Dafny's characters.
- Eligibility.EveryScenarioRan: for gates whose product stages are required and not the race, as the constants have it.
- CSV and XLSX encoding, cell rendering, base64 and character sets: the encoder is an arbitrary function of columns and rows.
- Relation display columns appended to an export: they are part of the columns the encoder receives.
- The relation plane of an import is a submission like any other; its row-by-row resolution is not modelled.
- Staging replies that are lost or malformed: the import model starts when staging has returned.
- Upgrade.ActivateUpgrade: the text of the manifest and of the error group is not modelled; SHA-256 is taken as injective on the streams it is fed, `KeyboardInterrupt` is not a failure of a step, and states inside a single file step are seen only as what it leaves behind.
- TreeDigest.CreateArchive: the archive's file name and checksum file, directory entries and symbolic links met while walking the package are not modelled; zip and SHA-256 are a faithful container and a function.
- Publish.Publish: a missing `GH_TOKEN`, release notes, mirrors, the cleanup of old releases, and the evidence written afterwards are not modelled; an asset and its digest are the same thing.
- Eligibility.AggregateReports: timing sums and the layout of the aggregate are not modelled; schema version and kind are one flag, the four identity fields one value.
- JsonSchema.Validate: error paths, regular expressions (an arbitrary match function), NaN and the rounding of large numbers are not modelled.
- YamlScalar.ReadYamlScalar: takes the lines and the tokens of the dotted key; Unicode whitespace is not modelled.
- PlanBudget.MintedPlanArrives: the expiry is text no longer than its placeholder; lone surrogates, which fail to encode, are outside Dafny's characters.
- Plugin platform and registry services: their guarantees rest on the atomic commits of the Go catalog, which is not part of this model.
- Version-file edits, changelog text, the toolchain doctor and lint wrappers: text edits and wrappers around other tools.
