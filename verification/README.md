# Verification of the report processor's review, apply and audit core

A Dafny model of six parts of the report processor, with proofs about them.

- **Merged ranges** (`MergeIndex`, `MergeSweep`): the range-add, range-maximum tree over sheet columns, and the row sweep that rejects overlapping merged rectangles.
- **Header regions** (`RowIntervals`, `RegionIndex`, `RegionExamples`): the sparse index of a source sheet, its cached span queries, the downward search from cumulative headers, the upward walk, and the choice of layouts and detail rows.
- **Review decisions** (`ReviewDecisions`, `ReviewState`, `NumericVerification`): decisions for packages, families, groups and rows with versions, undo and autosave, and which rows a numeric verification fails.
- **Applying a review** (`FeedbackStore`, `ApplyProtocol`, `AdminPanelService`): the two feedback tables, the protocol of manifests, memory and commits under exceptions, crashes and repeated recovery, and the service methods that perform it.
- **Audit journal** (`AuditEvents`, `AuditJournal`): redacted events, the hash chain, the stage machine, cross-store hashes and feedback activation.
- **Drawing-card jobs** (`ManifestHeap`, `JobRecovery`, `ClusterReview`, `Idempotency`): bounded recovery of manifests, cluster decisions, and concurrent job creation under a client key.

`Sorting` and `Outcomes` hold what several modules share. `dafny verify dfyconfig.toml` checks everything.

SHA-256 over a canonical form is one uninterpreted function of what is hashed; where a result needs it to be injective, that is a stated hypothesis. A SQLite transaction and the atomic replacement of a file are single steps, with a crash possible between any two. The header vocabulary, the reading of cell text and the parsing of range references are parameters.

## What the proofs found

- An audit event with a field called `event_hash`, which redaction allows, makes its own run fail validation from then on (`AuditJournal.EventHashFieldBreaksRun`); it is the only such name (`AuditEvents.AppendedRunValidates`). A field named like any other envelope entry can hide a difference from the last hash, and no other field can (`AuditEvents.LastHashDecidesExactly`).
- Cross-store hashes keep the state at which they were first recorded, so recovery with hashes is refused as soon as the run moves on (`AuditJournal.MovedRunsNeverReconcile`, `AuditJournal.RecoveryAfterMove`).
- The detail rows of a layout stop above the metric header rows of the next one over common columns, not above its whole header band; `RegionIndex.BandReached` says exactly when they reach into the band, `RegionExamples.DetailEntersBand` gives a worksheet.
- The upward walk counts every cumulative span, the downward search starts only from those wider than one column. `RegionIndex.Index.PassedOverExactly` says which metric pairs are nominated by neither, `RegionExamples.NarrowHeaderPassesOver` gives a worksheet.
- Undo brings versions back exactly when they were current before (`ReviewState.ReconciliationReviewState.Undo`); decisions remembered from earlier reviews need not be (`ReviewState.UndoChangesVersions`).
- When a job directory cannot be created, the failure lies outside the handler that releases the reservation, and the client key is lost until a restart (`Idempotency.AbandonedKeysStayReserved`). No other reservation is ever lost (`Idempotency.LostReservations`).
- A recovery that reads a manifest and registers the job only after an apply has committed it would revive the job and let it be applied twice (`ApplyProtocol.LateRecoveryLimit`, `ApplyProtocol.LateRecoveryAppliesTwice`). The shipped routes call the service from coroutines without giving way in between, so they do not do that.
- The comparison of members in a cluster undo, the duplicate test for merge references, the guard in the nested search and the test of an owner's own event can never change an outcome; the contracts of those operations do without them.

## Model

| member | source | states |
|---|---|---|
| `MergeIndex.MergeRangeIndex.Add` | src/report_processor/admin_panel/reconciliation_target_measure.py:181-199 | adding, or removing an active range, keeps both arrays in agreement with the list of active ranges; every index stays inside the arrays |
| `MergeIndex.MergeRangeIndex.Maximum` | src/report_processor/admin_panel/reconciliation_target_measure.py:184-210 | the answer is the largest number of active ranges over one column of the queried interval |
| `MergeIndex.MergeRangeIndex.LazyMeaning` | src/report_processor/admin_panel/reconciliation_target_measure.py:187-199 | `lazy[i]` counts exactly the active ranges whose canonical cover uses node `i` |
| `MergeIndex.MergeRangeIndex.Update` | src/report_processor/admin_panel/reconciliation_target_measure.py:187-199 | the in-place recursion leaves the arrays as the functional tree update does |
| `MergeIndex.MergeRangeIndex.Query` | src/report_processor/admin_panel/reconciliation_target_measure.py:201-210 | the in-place query returns what the functional query does |
| `MergeIndex.Tree.UpdateRepresents` | src/report_processor/admin_panel/reconciliation_target_measure.py:187-199 | an update without push-down re-establishes counts and maxima of the whole subtree it was called on |
| `MergeIndex.Tree.LazyCountsCovers` | src/report_processor/admin_panel/reconciliation_target_measure.py:187-199 | below any node, lazy counts are canonical-cover counts |
| `MergeIndex.Tree.NodeBound` | src/report_processor/admin_panel/reconciliation_target_measure.py:197-199 | no column of a segment has more ranges accounted for below its parent than the stored maximum |
| `MergeIndex.Tree.NodeAttained` | src/report_processor/admin_panel/reconciliation_target_measure.py:197-199 | some column of the segment has that many |
| `MergeIndex.Tree.QueryBound` | src/report_processor/admin_panel/reconciliation_target_measure.py:201-210 | a query is an upper bound for every column asked about |
| `MergeIndex.Tree.QueryAttained` | src/report_processor/admin_panel/reconciliation_target_measure.py:205-210 | the query's value is reached by some column, so starting from zero is harmless |
| `MergeIndex.SheetFits` | src/report_processor/admin_panel/reconciliation_target_measure.py:177-179 | arrays of four nodes per column hold the whole recursion over 16384 columns |
| `MergeSweep.RejectOverlapping` | src/report_processor/admin_panel/reconciliation_target_measure.py:157-171 | for rectangles in any number and order, the sweep rejects if and only if two of them share a cell, which is the pairwise geometric test |
| `MergeSweep.Sweep` | src/report_processor/admin_panel/reconciliation_target_measure.py:162-171 | the two passes per row over the range index reject exactly when some pair overlaps |
| `MergeSweep.SharedCellsAreOverlaps` | src/report_processor/admin_panel/reconciliation_sources.py:378-384 | the pairwise test finds exactly the lists with a shared cell |
| `MergeSweep.ValidatedMergeRanges` | src/report_processor/admin_panel/reconciliation_target_measure.py:128-154 | merge evidence is accepted, unchanged and in order, exactly when it is bounded in number, canonical, on the sheet and free of shared cells |
| `MergeSweep.DuplicatesShareCells` | src/report_processor/admin_panel/reconciliation_target_measure.py:148-151 | a repeated reference would be rejected by the sweep anyway |
| `RowIntervals.CoalescedRowIntervals` | src/report_processor/admin_panel/reconciliation_sources.py:431-443 | the intervals are sorted, separated by free rows and cover exactly the rows with a value or a merged span |
| `RowIntervals.MergeIntervalContaining` | src/report_processor/admin_panel/reconciliation_sources.py:643-649 | binary search finds the interval of a row, or says there is none |
| `RowIntervals.OverlapsAreOrderFree` | src/report_processor/admin_panel/reconciliation_sources.py:369-384 | sorting the spans first does not change whether two of them overlap |
| `RegionIndex.SparseRegionIndex` | src/report_processor/admin_panel/reconciliation_sources.py:351-428 | the index is refused exactly for too many cells, too many merges or overlapping spans; otherwise its tables say what the sheet says, its spans are in order, and its last row and column are the last ones in use |
| `RegionIndex.SpanOrdersMean` | src/report_processor/admin_panel/reconciliation_sources.py:365-402 | the two span orders compare four numbers one after the other: top, left, bottom, right, and left, right, top, bottom |
| `RegionIndex.Index.BandStart` | src/report_processor/admin_panel/reconciliation_sources.py:628-636 | jumping over intervals gives the least row reached by walking up occupied rows, and never costs more than two visits |
| `RegionIndex.Index.CoveringSpans` | src/report_processor/admin_panel/reconciliation_sources.py:652-666 | for any call order and any cache, the answer is the full scan for that column and band; it pays for the spans that start up to the column, once per key |
| `RegionIndex.Index.BandSpans` | src/report_processor/admin_panel/reconciliation_sources.py:669-684 | the same for a band, although both kinds of query share one cache |
| `RegionIndex.Index.MetricPairs` | src/report_processor/admin_panel/reconciliation_sources.py:506-518 | exactly the metric pairs of the row, in column order, for one visit per value in the interval |
| `RegionIndex.Index.HeaderEndMeans` | src/report_processor/admin_panel/reconciliation_sources.py:521-527 | a header ends with the lowest merged span that starts at one of its two cells, or with the cells |
| `RegionIndex.Index.CumulativeLeaves` | src/report_processor/admin_panel/reconciliation_sources.py:530-544 | the downward search ends, its guard never cuts it short, and it lists every leaf under the root once and nothing else |
| `RegionIndex.Index.JoinLeaves` | src/report_processor/admin_panel/reconciliation_sources.py:541-544 | leaves found under different nested spans never coincide |
| `RegionIndex.Sheet.DescentIsUnique` | src/report_processor/admin_panel/reconciliation_sources.py:541-543 | over disjoint spans a span is reached from a root along one path only |
| `RegionIndex.Index.CumulativeAncestor` | src/report_processor/admin_panel/reconciliation_sources.py:687-705 | the upward walk ends and answers whether a chain of adjacent containing spans within the band meets a cumulative one |
| `RegionIndex.Sheet.ReachedIsRecognised` | src/report_processor/admin_panel/reconciliation_sources.py:530-544 | whatever the downward search reaches from a cumulative root, the upward walk recognises |
| `RegionIndex.Sheet.WalksAgree` | src/report_processor/admin_panel/reconciliation_sources.py:687-705 | a metric pair is recognised as cumulative if and only if some cumulative span reaches it |
| `RegionIndex.Index.NominatedOnce` | src/report_processor/admin_panel/reconciliation_sources.py:449-493 | no quantity cell is nominated both under a cumulative root and as a direct pair |
| `RegionIndex.Index.StructuralLayouts` | src/report_processor/admin_panel/reconciliation_sources.py:446-497 | the layouts nominated from cumulative roots or unrecognised direct pairs, each once, in the order of their first nomination; refused exactly when the visits, the probes or the candidates the sheet needs exceed their budgets |
| `RegionIndex.Index.LeafSeqIs` | src/report_processor/admin_panel/reconciliation_sources.py:530-544 | the ordered leaves under a span (the row below first, then each nested span in sheet order) are the metric pairs under it, each once |
| `RegionIndex.Index.NominationsAre` | src/report_processor/admin_panel/reconciliation_sources.py:446-497 | the ordered nominations are exactly those of cumulative roots and of unrecognised direct pairs |
| `RegionIndex.Index.NominatedShape` | src/report_processor/admin_panel/reconciliation_sources.py:449-493 | a nominated layout covers the columns of a metric pair, from its root or its own row down to the end of the header, in a band that starts at that root or above that row |
| `RegionIndex.Index.PassedOverExactly` | src/report_processor/admin_panel/reconciliation_sources.py:449-475 | a metric pair is nominated by neither search, whatever the roles, when one of its cells is recognised as cumulative and no cumulative root wider than one column reaches it; when every band has roles, only then |
| `RegionExamples.NarrowHeaderPassesOver` | src/report_processor/admin_panel/reconciliation_sources.py:449-475 | a worksheet with such a pair: its cumulative header is one column wide |
| `RegionExamples.NarrowHeader` | src/report_processor/admin_panel/reconciliation_sources.py:351-428 | the index that is built from that worksheet: its pair is passed over whatever the roles |
| `RegionIndex.Index.ProbePair` | src/report_processor/admin_panel/reconciliation_sources.py:471-493 | a direct pair gives the one layout its band and roles determine, or none |
| `RegionIndex.DetailRows` | src/report_processor/admin_panel/reconciliation_sources.py:708-719 | a row is a detail row exactly when it lies below the header, above every layout further down that shares a column, and, when there is none, no lower than the last row in use |
| `RegionIndex.ColumnsMeetMeans` | src/report_processor/admin_panel/reconciliation_sources.py:713-718 | two metric spans are held against each other exactly when they share a column |
| `RegionIndex.DetailsDisjoint` | src/report_processor/admin_panel/reconciliation_sources.py:708-719 | layouts over common columns with separate metric header rows have disjoint detail rows, and neither detail holds a metric header row of the other |
| `RegionIndex.BandReached` | src/report_processor/admin_panel/reconciliation_sources.py:708-719 | the detail above reaches into the rest of a header band exactly when no layout over common columns starts at or above that band |
| `RegionExamples.DetailEntersBand` | src/report_processor/admin_panel/reconciliation_sources.py:708-719 | a worksheet whose nominated layouts do that: row 3 is detail of the first and header band of the second |
| `RegionExamples.BandEntered` | src/report_processor/admin_panel/reconciliation_sources.py:285-303 | whatever layouts are discovered on that worksheet overlap in that way |
| `ReviewDecisions.VersionsBind` | src/report_processor/admin_panel/reconciliation_state.py:440-459 | with an injective digest two versions are equal if and only if group and decision contents at all four levels are |
| `ReviewDecisions.RefreshingIsFresh` | src/report_processor/admin_panel/reconciliation_state.py:421-430 | recomputing versions keeps the contents, makes every version current and changes nothing exactly when they already were |
| `ReviewDecisions.AllowedMeans` | src/report_processor/admin_panel/reconciliation_state.py:369-410 | a row or batch decision is allowed exactly when it rejects, or names a known category that every row it reaches offers |
| `ReviewDecisions.AcceptedCategoriesAreOffered` | src/report_processor/admin_panel/reconciliation_state.py:287-310 | whatever valid decisions put in force, an accepted row gets a category that it offers |
| `ReviewDecisions.UntouchedRowsAreUndecided` | src/report_processor/admin_panel/reconciliation_state.py:348-361 | in a package without manual decisions no row is decided at any level |
| `ReviewDecisions.AcceptableMeans` | src/report_processor/admin_panel/reconciliation_state.py:134-151 | a package can be accepted with others exactly when it is safe, current, reached by no decision at any level, and its category is offered by all its rows |
| `ReviewDecisions.SafeAcceptanceDecides` | src/report_processor/admin_panel/reconciliation_state.py:134-154 | accepting safe packages decides all their rows, none of which was decided before |
| `ReviewDecisions.SafeAcceptanceKeepsOthers` | src/report_processor/admin_panel/reconciliation_state.py:134-154 | and the decision in force changes for no other row |
| `ReviewState.ReconciliationReviewState.PutPackage` | src/report_processor/admin_panel/reconciliation_state.py:118-124 | accepted exactly with the package's version and an allowed category; the new state is refreshed, saved and undoable |
| `ReviewState.ReconciliationReviewState.PutFamily` | src/report_processor/admin_panel/reconciliation_state.py:126-132 | the same for a family |
| `ReviewState.ReconciliationReviewState.AcceptSafePackages` | src/report_processor/admin_panel/reconciliation_state.py:134-154 | all or none: accepted exactly when every package is named once, safe, current and without manual decisions |
| `ReviewState.ReconciliationReviewState.PutGroup` | src/report_processor/admin_panel/reconciliation_state.py:156-162 | accepted only with the version of the current snapshot, so whoever read that version read the present decisions at all four levels |
| `ReviewState.ReconciliationReviewState.PutRow` | src/report_processor/admin_panel/reconciliation_state.py:164-170 | the same for a row, under the version of its group |
| `ReviewState.ReconciliationReviewState.DeleteRow` | src/report_processor/admin_panel/reconciliation_state.py:172-177 | the same for taking a row decision back |
| `ReviewState.ReconciliationReviewState.Undo` | src/report_processor/admin_panel/reconciliation_state.py:179-189 | the contents before the last mutation come back, versions too exactly when they were current; a second undo is refused |
| `ReviewState.ReconciliationReviewState.Restore` | src/report_processor/admin_panel/reconciliation_state.py:191-234 | the four validation loops, which stop at the first bad decision, put a snapshot in place exactly when all of it is allowed and current; else nothing changes |
| `ReviewState.ReconciliationReviewState.Replace` | src/report_processor/admin_panel/reconciliation_state.py:421-435 | after any mutation every stored group and row version is current and the autosave holds the new decisions, unless saving raised |
| `ReviewState.AutosaveRoundTrip` | src/report_processor/admin_panel/reconciliation_batch_store.py:68-114 | every valid snapshot survives dumping and loading, versions included |
| `ReviewState.LoadInvertsDump` | src/report_processor/admin_panel/reconciliation_batch_store.py:44-157 | a file loads as a snapshot exactly when it is the dump of that snapshot for this review, with named ids and categories |
| `ReviewState.OtherReviewsAreRefused` | src/report_processor/admin_panel/reconciliation_batch_store.py:44-58 | with an injective digest, the dump of another review loads only over equal inputs, categories and versions of packages, families and groups |
| `ReviewState.ReconciliationBatchStore.Restore` | src/report_processor/admin_panel/reconciliation_batch_store.py:44-65 | restoring the dump of any valid, current snapshot of the same review succeeds and gives it back; a failed restore changes nothing |
| `ReviewState.ReloadSaved` | src/report_processor/admin_panel/reconciliation_batch_store.py:44-65 | a fresh state over the same review gets back, versions included, what the last mutation saved |
| `ReviewState.UndoChangesVersions` | src/report_processor/admin_panel/reconciliation_state.py:179-189 | a remembered decision without a version comes back from put and undo with the current version |
| `ReviewState.ReconciliationReviewState.ResolvedGroupDecisions` | src/report_processor/admin_panel/reconciliation_state.py:287-310 | fanning out packages, then families, then groups gives the priority rule, whatever the order within a level |
| `ReviewState.ReconciliationReviewState.EffectiveDecisions` | src/report_processor/admin_panel/reconciliation_state.py:236-251 | exactly the decisions in force, each with the current version of its group: groups first, then rows, each in the order of their ids |
| `ReviewState.ReconciliationReviewState.UnresolvedRowIds` | src/report_processor/admin_panel/reconciliation_state.py:268-273 | exactly the rows with no decision at any level, in order |
| `NumericVerification.Authorizations` | src/report_processor/admin_panel/reconciliation_numeric_verification.py:131-167 | every row gets the decision in force; safe packages fill only the gaps; it fails exactly when a safe package names no category or mode |
| `NumericVerification.FailedRows` | src/report_processor/admin_panel/reconciliation_numeric_verification.py:55-98 | a row passes exactly when it is accepted and every calculation that draws on it meets its cost and, in quantity_cost mode, its quantity; it fails with an error exactly when a row is accepted and some calculation cannot be decided |
| `NumericVerification.VerdictMeans` | src/report_processor/admin_panel/reconciliation_numeric_verification.py:86-98 | a calculation is decided exactly over accepted rows of one mode and the target values that are looked at; otherwise the error says which of these is missing |
| `NumericVerification.MatchMeans` | src/report_processor/admin_panel/reconciliation_numeric_verification.py:221-245 | the cost counts in both modes, the quantity only in quantity_cost mode and after the cost |
| `FeedbackStore.ReconciliationFeedbackStore.CommitApply` | src/report_processor/admin_panel/reconciliation_feedback_store.py:65-127 | commit, replay, conflict or rejection as the stored key and payload and the validator say; only a commit changes the tables, and numbering stays gap-free |
| `FeedbackStore.ReconciliationFeedbackStore.Persist` | src/report_processor/admin_panel/reconciliation_feedback_store.py:38-63 | the target gets exactly these records with the next numbers, other targets nothing |
| `FeedbackStore.ReconciliationFeedbackStore.Records` | src/report_processor/admin_panel/reconciliation_feedback_store.py:18-36 | the rows of one target, numbered 1..n in insertion order |
| `FeedbackStore.InsertionAppends` | src/report_processor/admin_panel/reconciliation_feedback_store.py:94-116 | an insertion appends to one target and keeps every target numbered 1..n |
| `FeedbackStore.MaximumIsCount` | src/report_processor/admin_panel/reconciliation_feedback_store.py:94-100 | the greatest number of a target is the number of its rows |
| `ApplyProtocol.HashesBind` | src/report_processor/admin_panel/reconciliation_execution.py:627-693 | the apply key binds job, target and records; key and payload together bind the whole work |
| `ApplyProtocol.NextKeepsInvariant` | src/report_processor/admin_panel/service.py:298-372 | every step, exception and crash keeps manifest, memory, store and commit log consistent |
| `ApplyProtocol.AppliedExactlyOnce` | src/report_processor/admin_panel/service.py:298-372 | over every run a job is committed at most once, and exactly once as soon as it is ready on disk or in memory |
| `ApplyProtocol.LateRecoveryLimit` | src/report_processor/admin_panel/service.py:619-650 | a recovery that works from a manifest read earlier keeps the invariant if and only if it registers a committed job as ready and any other job as something else |
| `ApplyProtocol.LateRecoveryAppliesTwice` | src/report_processor/admin_panel/service.py:298-372 | beyond that limit a ready job is revived and committed a second time within six steps of the protocol |
| `ApplyProtocol.CommittedJobsStay` | src/report_processor/admin_panel/service.py:619-707 | once committed, a job's manifest holds the committed plan or is ready |
| `ApplyProtocol.DurableFirst` | src/report_processor/admin_panel/service.py:344-355 | every committed work was set out by an apply and its plan durable in earlier states; recovery commits nothing else |
| `ApplyProtocol.CommitsNeverConflict` | src/report_processor/admin_panel/service.py:652-705 | no commit of any run, replays included, meets its key with another payload |
| `ApplyProtocol.CommitTakesHold` | src/report_processor/admin_panel/service.py:346-355 | a commit with sound artifacts is made or was made before, and is then the one commit of its job |
| `ApplyProtocol.RunStoresRecordsOnce` | src/report_processor/admin_panel/reconciliation_feedback_store.py:94-127 | over every run each target holds the records of its committed works in commit order, numbered 1..n |
| `AdminPanelService.AdminPanelService.ApplyReconciliation` | src/report_processor/admin_panel/service.py:298-372 | without a fault the job is ready and its work committed once; it returns in no other case, and for every fault the job in memory, its manifest and the store are what is stated |
| `AdminPanelService.AdminPanelService.RecoverManifest` | src/report_processor/admin_panel/service.py:619-650 | exactly when a job comes back and as what; a stored plan whose work is rebuilt without a fault leaves the job ready and its work committed once |
| `AdminPanelService.AdminPanelService.RecoverApplying` | src/report_processor/admin_panel/service.py:652-707 | an applying manifest with a plan is replayed exactly with work that has that plan, and succeeds when nothing raises |
| `AdminPanelService.AdminPanelService.CommitFeedback` | src/report_processor/admin_panel/service.py:346-355 | a commit that raises may still have taken hold; with sound artifacts and no exception it succeeds and is the one commit of its job |
| `AuditEvents.RedactIsStable` | src/report_processor/audit/serialization.py:80-90 | redacting stored fields again changes nothing |
| `AuditEvents.TransitionsFollowSaga` | src/report_processor/audit/journal.py:444-464 | a transition is allowed if and only if the longer history is still a prefix of PENDING, DATA_COMMITTED once or more, EXPORT_PREPARED, EXPORT_VERIFIED |
| `AuditEvents.HashedAlike` | src/report_processor/audit/serialization.py:93-109 | appending and validating hash the same payload if and only if no field is called `event_hash` |
| `AuditEvents.AppendedRunValidates` | src/report_processor/audit/journal.py:265-282 | a run written by appends validates if and only if no field of its events is called `event_hash` |
| `AuditEvents.LastHashDetermines` | src/report_processor/audit/journal.py:265-282 | two nonempty valid chains with the same last hash are equal, for fields that reuse no envelope name |
| `AuditEvents.ExportDetermines` | src/report_processor/audit/serialization.py:93-109 | an exported payload determines its event, for fields that reuse no envelope name |
| `AuditEvents.LastHashDecidesExactly` | src/report_processor/audit/serialization.py:93-109 | for any set of allowed field names, equal last hashes mean equal chains if and only if no name in the set is one of the envelope's |
| `AuditEvents.TwinsShareTheirHash` | src/report_processor/audit/serialization.py:80-109 | for each envelope name, two different valid events with one hash; redaction lets the field through and, except for `event_hash`, appends write both |
| `AuditJournal.AuditJournal.BeginRun` | src/report_processor/audit/journal.py:80-132 | a run is inserted once under an id that determines its content; existing runs are untouched |
| `AuditJournal.AuditJournal.AppendEvent` | src/report_processor/audit/journal.py:150-239 | with an injective digest it succeeds exactly for controlled codes, an allowed payload, a known run and a point that extends the saga; the event carries what was asked for, a refusal names what is wrong, and a valid chain stays valid unless a field is called `event_hash` |
| `AuditJournal.FormatsMean` | src/report_processor/audit/journal.py:34-35 | contract values and nonces are texts of these alphabets and lengths |
| `AuditJournal.CodesMean` | src/report_processor/audit/journal.py:34-35 | a controlled code is an upper-case letter and up to 63 upper-case letters, digits or underscores |
| `AuditJournal.EventHashFieldBreaksRun` | src/report_processor/audit/journal.py:150-282 | an append that redaction and every check accept, after which the run, valid before, no longer validates |
| `AuditJournal.EventIdsAreFresh` | src/report_processor/audit/journal.py:195-196 | with an injective digest no append meets the id of another event |
| `AuditJournal.AuditJournal.ValidateRun` | src/report_processor/audit/journal.py:265-282 | succeeds if and only if the chain is valid, else names the first broken event and how it is broken |
| `AuditJournal.AuditJournal.Recover` | src/report_processor/audit/journal.py:284-291 | succeeds if and only if the chain is valid, the given hashes reconcile and the run is known; otherwise the first of these that fails is reported |
| `AuditJournal.AuditJournal.RecordCrossStoreHashes` | src/report_processor/audit/journal.py:293-323 | a first recording stores exactly the given hashes with the present state and reconciles at once; a later one must repeat them and changes nothing |
| `AuditJournal.AuditJournal.ReconcileCrossStore` | src/report_processor/audit/journal.py:325-341 | succeeds if and only if the hashes are those recorded and the run is still in the recorded state |
| `AuditJournal.MovedRunsNeverReconcile` | src/report_processor/audit/journal.py:316-341 | once a run moved past the recorded state, recovery with hashes is refused for good |
| `AuditJournal.RecoveryAfterMove` | src/report_processor/audit/journal.py:284-347 | a journal in which recovery with the recorded hash succeeds, and is refused after the export is prepared, the chain still being valid |
| `AuditJournal.AuditJournal.VerifyExport` | src/report_processor/audit/journal.py:349-363 | with an injective digest it succeeds exactly for equal hashes, a positive attempt and a prepared export, which becomes verified |
| `AuditJournal.ExportAccepted` | src/report_processor/audit/journal.py:357-363 | apart from a taken event id, the append of a verified export is accepted exactly from the prepared state with a positive attempt |
| `AuditJournal.AuditJournal.AddFeedback` | src/report_processor/audit/journal.py:365-386 | a version is stored exactly when its hashes are given, its source event belongs to its run and the version is new; otherwise the first of these that fails is reported |
| `AuditJournal.AuditJournal.ActivateFeedback` | src/report_processor/audit/journal.py:388-421 | activates exactly a known version of a verified run whose hashes are unchanged |
| `AuditJournal.AuditJournal.CompactFeedback` | src/report_processor/audit/journal.py:423-435 | counts the inactive versions, records their lineage with that count once, and changes nothing else |
| `AuditJournal.ActivationIsPermanent` | src/report_processor/audit/journal.py:388-435 | in every later database an activated version keeps its hashes and its run the same events, still verified |
| `AuditJournal.ExtendsTransitive` | src/report_processor/audit/schema.py:41-44 | growth composes, so what holds along one operation holds along any number of them |
| `AuditJournal.StateAdvances` | src/report_processor/audit/journal.py:444-464 | along growing databases the state of a run never goes back, and a verified run gets no further events |
| `ManifestHeap.ManifestHeap.Retain` | src/report_processor/admin_panel/drawing_card_job_store.py:164-175 | the heap keeps the newest items seen, the given number of them, and gives up the item it returns and no other |
| `ManifestHeap.KeptIsSortedPrefix` | src/report_processor/admin_panel/drawing_card_job_store.py:108-112 | what such a heap keeps, sorted, is what sorting everything and truncating gives |
| `ManifestHeap.BestAreNewest` | src/report_processor/admin_panel/drawing_card_job_store.py:108-112 | sorting and truncating gives the items updated last, the latest first, ties broken by the greater id |
| `Sorting.TextLeMeans` | src/report_processor/admin_panel/drawing_card_job_store.py:157-161 | texts compare by the first character that differs, a proper prefix before the longer text |
| `ManifestHeap.SinkRoot` | src/report_processor/admin_panel/drawing_card_service.py:1757-1771 | replacing the root keeps heap order and the items |
| `JobRecovery.LoadAll` | src/report_processor/admin_panel/drawing_card_job_store.py:94-113 | the newest active manifests first, newest first, then the newest terminal ones in the room left |
| `JobRecovery.SelectionIgnoresOrder` | src/report_processor/admin_panel/drawing_card_job_store.py:94-113 | the selection does not depend on the order in which manifests are met |
| `JobRecovery.SelectRestored` | src/report_processor/admin_panel/drawing_card_service.py:1315-1344 | the same selection with at most 64 terminal manifests; every terminal manifest is selected or deleted, no active one is deleted, and no deleted one is newer than a selected terminal one |
| `JobRecovery.Register` | src/report_processor/admin_panel/drawing_card_service.py:1346-1356 | of several selected jobs with one client key only the first survives, and the key leads to it |
| `ClusterReview.DrawingCardReview.PutCluster` | src/report_processor/admin_panel/drawing_card_service.py:623-645 | one choice for exactly the members of the current cluster when it is allowed for all of them and saving works, or nothing |
| `ClusterReview.DrawingCardReview.UndoCluster` | src/report_processor/admin_panel/drawing_card_service.py:647-666 | accepted exactly while the action is recorded, and then removes exactly its members' approvals |
| `ClusterReview.DrawingCardReview.PutItem` | src/report_processor/admin_panel/drawing_card_service.py:668-688 | replaces one decision and discards the action of its cluster and no other, so undoing that cluster is refused |
| `ClusterReview.DrawingCardReview.DeleteItem` | src/report_processor/admin_panel/drawing_card_service.py:690-700 | the same for removing a decision |
| `ClusterReview.DrawingCardReview.Recover` | src/report_processor/admin_panel/drawing_card_service.py:1107-1125 | what a restart keeps agrees with the current page, and an unchanged page loses nothing |
| `ClusterReview.RecoveryAgrees` | src/report_processor/admin_panel/drawing_card_service.py:1107-1122 | whatever was saved, every kept action is what all members of a current cluster say |
| `Idempotency.StepKeepsInvariant` | src/report_processor/admin_panel/drawing_card_service.py:259-374 | every step of every concurrent call keeps reservations, mappings and jobs consistent |
| `Idempotency.OneCreator` | src/report_processor/admin_panel/drawing_card_service.py:280-284 | of all calls with one key at most one is between reserving and registering |
| `Idempotency.OneLiveJob` | src/report_processor/admin_panel/drawing_card_service.py:344-351 | at most one listed job carries a key, the key leads to it, and nobody is creating another |
| `Idempotency.ReturnsTheMappedJob` | src/report_processor/admin_panel/drawing_card_service.py:262-316 | every job returned under a key is the one the key leads to at that moment, made from an equal request |
| `Idempotency.LookupAnswers` | src/report_processor/admin_panel/drawing_card_service.py:262-316 | under a mapped key an equal request gets the mapped job and any other an error |
| `Idempotency.NobodyWaitsInVain` | src/report_processor/admin_panel/drawing_card_service.py:280-300 | in every run an unfinished call can go on, or waits for the call that holds its key, which can go on unless it failed to make its directory |
| `Idempotency.CleaningTouchesOnlyOwn` | src/report_processor/admin_panel/drawing_card_service.py:365-374 | the failure handler removes only the call's own reservation and mapping |
| `Idempotency.AbandonedKeysStayReserved` | src/report_processor/admin_panel/drawing_card_service.py:318-320 | a call whose directory cannot be made keeps its reservation, and from then on the key never leads to a job |
| `Idempotency.LostReservations` | src/report_processor/admin_panel/drawing_card_service.py:318-374 | over every run, a reservation whose call is no longer creating a job belongs to a call that failed to make its directory, and every such call leaves one |
| `Idempotency.ReservationsGetLost` | src/report_processor/admin_panel/drawing_card_service.py:280-320 | a run of three steps in which the first call with any key loses it |

## Left out

- Reading workbooks, regular expressions, text normalization and header keywords: cell texts and column roles are given facts.
- Header lineage and canonical rows: the columns a band offers are a function `roles` of the band.
- The older layout functions in `reconciliation_sources.py` from line 801 on: the indexed path replaced them.
- RegionIndex.Index.StructuralLayouts: the visits that `_indexed_roles` spends on header lineage are not counted towards the visit budget, because `roles` is a given function.
- ApplyProtocol.AppliedExactlyOnce: recoveries of one job that overlap in time are outside its runs, because `get_job` recovers without the job's lock and the routes do not overlap it; ApplyProtocol.LateRecoveryLimit says exactly which late recoveries would do no harm. Recoveries of different jobs interleave freely.
- AdminPanelService.AdminPanelService.ApplyReconciliation: interrupts between two assignments of one statement sequence are not modelled; every call may raise.
- Verification jobs, jobs of injected executors and the review journal of `service.py`: they carry no feedback commit.
- ReviewState.ReconciliationReviewState.Restore: takes decisions addressed to the key they are stored under, as its only caller builds them.
- The control of category texts (at most 200 characters, not blank) beyond being non-empty: categories come from the target's own catalogue.
- Reading units, targets and calculations in `verify_numeric`: a calculation is the rows it draws on and whether it meets its target.
- The semantic-assist marker, presentation and the action messages: they never affect decisions.
- Manifest JSON normalization and path checks: a manifest is readable or invisible.
- Idempotency.OneLiveJob: pruning of terminal jobs and restarts are not part of the steps, so a key keeps its job until the creating call fails.
- Review feedback pages, metrics and reruns of drawing-card jobs: a rerun starts a new page without approvals.
- HTTP routes, exports, the bundle and reports of the audit package: plumbing around the journal.
