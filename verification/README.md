# Opentroop: verified model of advancement, catalog, sync and identity

This project models, in Dafny, the parts of the Opentroop backend whose docstrings promise the most,
and proves those promises over every input, every run or every reachable state.

- **Advancement engine** (`Intervals`, `Metrics`, `Completeness`, `Election`, `Convergence`, `AutoCredit`,
  `Remapping`, `Advancement`, `Runs`, `Settling`). Service intervals are merged by a sweep, windowed thresholds are
  evaluated, completions are credited automatically, copied along stable keys between versions of a
  requirement set, and never re-created or rewritten. `Advancement.AdvancementSession` holds the completion
  and progress rows and changes them in place; each method is proved against a relation (`SwitchStep`,
  `CreditStep`, `DeriveStep`) about which the lemmas then reason over whole runs.
- **Catalog loader** (`MetricConditions`, `CatalogSpec`, `CatalogLoader`, `CatalogRuns`). The upsert over
  (set, number, letter), its tombstones, revivals and parent links, and the proof that what it builds is
  exactly what the engine's one-pass completeness derivation needs.
- **Sync and hard delete** (`SyncPull`, `Reaper`, `SyncProtocol`, `SyncInvariant`, `SyncSafety`, `SyncResults`,
  `SyncGaps`, `SyncStalls`, `SyncWitnesses`, `TenantPurge`). Keyset pages with a watermark, the reaper that removes
  rows the change stream cannot express, and the tenant purge in reverse dependency order. `SyncProtocol` is a
  state machine of one server and any number of devices, each of which sees a changing part of its tenant's rows.
  Drawing a sequence value, committing rows, reaping, changing visibility, and every page request, page delivery,
  sweep and kill of a device are steps of their own. An entity of a device is called stale from the moment a commit
  or a change of visibility puts a row below its cursor until a refetch walks it again. The modules after it prove
  what every step keeps, what a device may rely on, when a row is missed, when a refetch can finish, and that the
  documented convergence fails in some runs.
- **Migrations** (`SyncBackfill`, `GroupRules`, `PatrolFold`). The two cursor backfills over one shared
  sequence, position rules regrouped into lists and back, patrols folded into groups and back.
- **Sign-in** (`SignIn`, `SignInRuns`). Finding or creating the user behind identity claims, and runs that
  interleave sign-ins with every other writer of users, identities, platform roles and member links.

Dates are day numbers, months are exact rationals (30.4375 is 487/16), rows are records in sequences or
maps, and a query stands for the set of rows it returns under the session's tenant and soft-delete filter.

## Where the code and its documentation disagree

- `backend/app/routers/sync.py:79-81` says a freshly refetched client converges instead of looping on 410. It
  loops when an entity has several pages of which the first ends below the watermark: the cursor of the second
  request is then itself below the watermark. `SyncWitnesses.NewDeviceNeverSyncs` is such a run for any page limit,
  `SyncStalls.StuckNeverFinishes` shows that a device caught there never gets past that entity while the server
  does not change, and `SyncStalls.RefetchFinishesIff` gives the exact condition.
- `backend/app/core/deletion.py:231-232` says a reap advances the watermark to the tenant's current maximum; the
  code draws a new sequence value, which is what makes every older cursor fail the check.
- `backend/app/routers/platform.py:363-364` says the platform must keep at least one superadmin. A grant of a
  lesser role to the only one, or the operator's script, takes the role away, and nothing else does
  (`SignInRuns.LastSuperadminLostIff`); `SignInRuns.OnlySuperadminSteps` is a run that does.

## Exact conditions

Promises that hold under a condition are stated as equivalences, for all inputs:

- a refetch cut off before its first sweep is as good as a finished one exactly when the device mirrored no row
  the server lacks (`SyncResults.UnsweptRefetchIsExactIff`); otherwise the rounds after it finish, with every
  cursor past the watermark, and go on mirroring the lost rows (`SyncWitnesses.CutRefetchLeavesALostRow`);
- a round after a commit brings every row exactly when the commit put nothing below the device's cursor that it
  would need to hear of (`SyncGaps.CommitIsSeenIff`), and such a commit is possible exactly while some value below
  the cursor is drawn and not committed (`SyncGaps.CanBeOvertakenIff`); `SyncWitnesses.LateCommitIsMissed` is a run
  in which a row is missed, the caveat of `docs/spec/sync-protocol.md:46-52`;
- a round after a change of visibility leaves exactly what is visible now when no mirrored row was hidden and no
  live row was revealed below the cursor (`SyncGaps.RescopeIsSeenIff`, `SyncWitnesses.RevealedRowIsMissed`);
- deriving a rank's date and re-running the credits leaves nothing to derive exactly when no rank credited on the
  way is complete (`Settling.PassSettlesIff`);
- two rows share a sequence value after both backfills exactly when they are members that one statement wrote last
  (`SyncBackfill.BothMigrationsShareIff`);
- switching A to B to A to B copies nothing the third time exactly when no key of A is carried by two
  requirements of B (`Convergence.ConvergesIffSharedKeysUnique`); with such a key there is a run from nothing that
  does (`Runs.RepeatedKeyRun`);
- loading the same files again reports zero exactly when the files never give two different lists for one
  (rank, version) (`CatalogRuns.ReloadIdleIffConsistent`);
- one-pass completeness is the recursive one exactly when no child of a container is a container
  (`Completeness.OnePassIsRecursiveIffFlat`), as on every loaded set (`CatalogRuns.LoadedSetsSuitTheEngine`);
- the tenant purge goes through exactly when every key into the tenant's rows points back
  (`TenantPurge.EveryPrefixIntactIff`);
- the position-rule upgrade goes through exactly when each group's live rules belong to one tenant, and the
  patrol upgrade exactly when names are unique per tenant, deleted patrols included.

## Model

| member | source | states |
|---|---|---|
| Intervals.SweepDays | backend/app/core/advancement.py:328-339 | the loop over sorted, clipped intervals adds up closed runs and the open one exactly as the fold it is proved against |
| Intervals.MergedIntervalDays | backend/app/core/advancement.py:318-340 | for any intervals in any order, the sweep's total is the number of days of [cutoff, today) on which at least one interval is in force |
| Intervals.SweepIsCoverage | backend/app/core/advancement.py:325-339 | sorting, clipping and sweeping counts every covered day once, overlaps included |
| Intervals.CoverageMonotone | backend/app/core/advancement.py:318-340 | more service, an earlier cutoff or a later day never lowers the total |
| Intervals.CoverageIgnoresOrderAndDuplicates | backend/app/core/advancement.py:318-324 | lists with the same intervals, whatever their order and repetition, give the same total |
| Intervals.CoverageBounded | backend/app/core/advancement.py:318-324 | concurrent terms never count twice: the total is at most the sum of the clipped terms and at most today - cutoff |
| Intervals.MergedIntervalMonths | backend/app/core/advancement.py:300-340 | the result is the covered days in calendar-average months |
| Metrics.ComputeMemberMetrics | backend/app/core/advancement.py:433-448 | undated terms are skipped and open terms run to the day of the run |
| Metrics.ComputeValue | backend/app/core/advancement.py:360-373 | the loop and branches compute each metric kind's value since an anchor, or over all history without one, as pinned down by Metrics.OutingsCountFromTheAnchor and Metrics.MetIff |
| Metrics.EarliestDay | backend/app/core/advancement.py:459-463 | the fallback joining anchor is an attended day and no attended day is earlier |
| Metrics.FindPreviousRankAnchor | backend/app/core/advancement.py:467-488 | the loop finds the nearest lower rank; without one the window is all history, without its date it is unavailable |
| Metrics.RankBelow | backend/app/core/advancement.py:476-482 | the chosen rank is below the bound and none lies strictly between; none is chosen only if none is below |
| Metrics.EvaluateRequirementMetrics | backend/app/core/advancement.py:502-530 | one result per condition, with no value and not met when the window has no anchor |
| Metrics.OpenTermsGrow | backend/app/core/advancement.py:441-446 | as days pass, open terms only add served days |
| Metrics.ValueMonotone | backend/app/core/advancement.py:360-373 | with stored history fixed, no metric of any kind falls as days pass |
| Metrics.MetStaysMet | backend/app/core/advancement.py:502-530 | a condition met on one day is met on every later one |
| Metrics.OutingsCountFromTheAnchor | backend/app/core/advancement.py:360-365 | one more outing, anywhere in the list, adds exactly its value for the kind when it is on or after the anchor or there is none, and nothing when it is before; no outings, no value |
| Metrics.UnknownJoiningDateCountsAll | backend/app/core/advancement.py:451-464 | without a stored joining date a since-joining outing metric is the all-history one, the first outing included |
| Metrics.CoveredIsServed | backend/app/core/advancement.py:433-446 | the days covered by the intervals are those on which some dated term is in force, an open term included and the end day not |
| Metrics.MetIff | backend/app/core/advancement.py:360-373 | a condition is met when its value reaches the threshold: each badge kind against its own count, tenure when 16 times the days since the anchor reach 487 times the threshold, and never a positive one without an anchor, service likewise against the days served |
| Metrics.WindowStarts | backend/app/core/advancement.py:451-530 | all history has no start; joining starts at the stored date or else the earliest outing; since-rank starts at the date of the nearest lower rank, the first listed of several, is all history when there is none, and without that date no condition is met |
| Completeness.LeafIds | backend/app/core/advancement.py:72-76 | a requirement is a leaf exactly when it is live and no live requirement's parent |
| Completeness.DeriveCompletionMap | backend/app/core/advancement.py:209-227 | the map covers exactly the live requirements; a container is true when all its children have approved rows, a leaf when it has one |
| Completeness.OnePassIsRecursiveIffFlat | backend/app/core/advancement.py:216-227 | one pass equals the recursive definition for all approvals if no child of a container is a container, and approving all leaves tells them apart otherwise |
| Completeness.ForestIsAcyclic | backend/app/core/advancement.py:72-76 | parent links of a forest of depth one have no cycle |
| Completeness.OnePassIsRecursiveOnForest | backend/app/core/advancement.py:216-227 | on a forest of depth one the single pass equals the recursive definition for every set of approvals |
| Completeness.ForestCompleteIffLeaves | backend/app/core/advancement.py:230-236 | on a forest, a rank is complete exactly when it has leaves and all are approved |
| Completeness.RankCompleteIsLeavesIffForest | backend/app/core/advancement.py:72-76 | that equivalence holds for every set of approvals if and only if the live requirements form a forest of depth at most one |
| Completeness.RankCompleteIffFullProgress | backend/app/core/advancement.py:230-293 | on a forest of depth one with distinct ids, a rank is complete exactly when its leaf progress is (n, n) with n positive |
| Completeness.CompleteRankHasApproval | backend/app/core/advancement.py:254-256 | the maximum is never taken over nothing: a complete rank has an approved row |
| Completeness.LatestApprovedDate | backend/app/core/advancement.py:256 | the date found belongs to an approved row and no approved row is later |
| Completeness.DeriveKeepsDates | backend/app/core/advancement.py:239-260 | deriving never clears a date and touches no other progress row |
| Completeness.DeriveSettles | backend/app/core/advancement.py:256-260 | a second call right after the first reports no change and makes none |
| Completeness.EarnedDateIsLastSignOff | backend/app/core/advancement.py:239-260 | in terms of rows: the date changes only when there is a top level and all of it, or all right below it, has active approved rows of the member; it is then the date of such a row on a leaf, none is later, nothing else changes, and the result says whether anything did |
| Completeness.LeafProgressCountsSignOffs | backend/app/core/advancement.py:269-293 | leaf progress is the number of leaves with an active approved row of the member, out of all leaves |
| Election.CopiesLandOnFreeKeyedRequirements | backend/app/core/advancement.py:162-202 | every copy is an active remap row on a keyed requirement of the new set that had no row, tombstones included, and no two share a requirement |
| Election.MatchedKeysHaveRows | backend/app/core/advancement.py:144-150 | after a switch, every active completion with a counterpart has some row on it |
| Election.SwitchConserves | backend/app/core/advancement.py:179-202 | the number of keyed requirements without a row falls by exactly `remapped` |
| Election.RemappingIsBounded | backend/app/core/advancement.py:137-206 | over any sequence of switches among any sets and ranks, the total remapped is the loss of row-less keyed requirements, so at most their number at the start |
| Election.CounterpartIsLast | backend/app/core/advancement.py:158-160 | the requirement a key leads to is the last one listed with it |
| Election.EachCopyHasASource | backend/app/core/advancement.py:179-202 | every added row has the date, status, reporter, approver, approval time and note of an active completion of the member on the old set, and is on the last requirement of the new set with the same non-empty key |
| Election.ApprovalsAreCarried | backend/app/core/advancement.py:144-150 | the first active completion on a key is recorded unchanged on the key's requirement in the new set if that had no row, so an approved one leaves it approved |
| Election.UnmatchedIff | backend/app/core/advancement.py:180-184 | a label is reported for manual entry exactly when an active completion is on a requirement with that label whose key is missing, empty or not carried in the new set |
| Election.OnlyTheElectionMoves | backend/app/core/advancement.py:137-206 | old rows stay in place, no earned date and no other election changes, and every active completion of the old set is counted once |
| Remapping.RemapAllRemaps | backend/app/core/advancement.py:179-202 | the loop accounts for each active completion once (remapped, skipped or unmatched) and copies date, status, approver and note of the first source to land on each free target |
| Convergence.ThirdSwitchCopiesNothing | backend/app/core/advancement.py:137-206 | A to B to A to B copies nothing the third time when no key of A is repeated in B |
| Convergence.RepeatedKeyCopiesAgain | backend/app/core/advancement.py:158-160 | whenever a key of A is repeated in B, there is a starting ledger whose third switch does copy |
| Convergence.ConvergesIffSharedKeysUnique | backend/app/core/advancement.py:137-206 | the third switch copies nothing from every starting ledger if and only if no key of A is repeated in B |
| AutoCredit.KeptSameQualifies | backend/app/core/advancement.py:576-620 | progress rows created in the middle of a run change neither what qualifies nor under which set |
| AutoCredit.RowsAfterRun | backend/app/core/advancement.py:533-622 | after a run the member has rows on exactly the requirements that had one or are earned that day |
| AutoCredit.EarnedHasRow | backend/app/core/advancement.py:562-622 | after a run every auto-credit leaf of an unearned rank whose conditions are all met has some row |
| AutoCredit.SecondRunIsIdle | backend/app/core/advancement.py:533-622 | a second run on the same day creates nothing and changes nothing |
| AutoCredit.EarnsStays | backend/app/core/advancement.py:502-530 | what is earned on one day is earned on every later day |
| AutoCredit.RowsAfterManyRuns | backend/app/core/advancement.py:533-622 | after any sequence of runs the rows are those at the start and those earned on some day of it, and elections are kept |
| AutoCredit.MissedRunsSelfHeal | backend/app/core/advancement.py:533-622 | any runs that include their latest day leave rows on exactly the requirements that one run on that day alone would |
| AutoCredit.QualifiesIff | backend/app/core/advancement.py:579-600 | a requirement qualifies exactly when its rank has no date and it is a flagged requirement with conditions, no live child and all conditions met, of the elected set or, without a progress row, of the latest |
| AutoCredit.EachCreditIsDue | backend/app/core/advancement.py:576-620 | every created row is an active approved row of the member, dated today and recorded as automatic, on such a requirement where the member had no row, tombstones included; its rank then has a progress row with that set and no date |
| AutoCredit.DueIsApproved | backend/app/core/advancement.py:588-620 | every such requirement without a row has a new approved one afterwards and is among the approved leaves of its set |
| AutoCredit.EarnedIsApproved | backend/app/core/advancement.py:612-620 | whatever is earned and had no row is among the member's approved active rows after the run |
| AutoCredit.RunOnlyAppends | backend/app/core/advancement.py:533-622 | old rows and progress rows stay as they are, no requirement is credited twice, and a new progress row elects the latest set and has no date |
| Advancement.AdvancementSession.SwitchElection | backend/app/core/advancement.py:137-206 | the whole effect of a switch: old rows unchanged, copies appended, the election moved, every source counted; field by field in Election.EachCopyHasASource |
| Advancement.AdvancementSession.CopyMatching | backend/app/core/advancement.py:179-202 | the copying loop appends what the fold over the completions says and returns its counts |
| Advancement.AdvancementSession.ApplyAutoCredits | backend/app/core/advancement.py:533-622 | one approved row dated today for every earned requirement without a row and for nothing else, and a progress row for each credited rank; field by field in AutoCredit.EachCreditIsDue |
| Advancement.AdvancementSession.CreditRank | backend/app/core/advancement.py:588-620 | after the inner loop every qualifying requirement of the rank is blocked or credited |
| Advancement.AdvancementSession.CreditRequirement | backend/app/core/advancement.py:589-620 | a requirement is skipped only if it does not qualify or is blocked, and otherwise credited and blocked |
| Advancement.AdvancementSession.RecordCredit | backend/app/core/advancement.py:601-620 | a credit blocks its requirement, and a first one creates the progress row under the set the rank accrues under |
| Advancement.AdvancementSession.DeriveEarnedDate | backend/app/core/advancement.py:239-260 | a complete rank gets its latest approved leaf date; the result says whether it changed; nothing else does |
| Runs.AutomaticOnlyAppends | backend/app/core/advancement.py:540-545 | no automatic step alters a completion row or adds one for a pair that has any, tombstones included |
| Runs.RunsKeepHistory | backend/alembic/versions/f1b2c3d4e5f6_advancement_tracking.py:160-167 | any interleaving with reports, edits and revocations keeps at most one active row per pair, moves no row and rewrites no tombstone |
| Runs.NeverRecreated | backend/app/routers/advancement.py:501-519 | once a pair has a row, no run adds another without an explicit report, and a revoked pair stays revoked |
| Runs.RepeatedKeyRun | backend/app/routers/advancement.py:387-400 | whenever a key of A is repeated in B, a run from an empty ledger (a first report on B, then switches through a version that shares no key with B to A, B, A and B) ends in a third switch that copies a row |
| Settling.PassSettlesIff | backend/app/routers/advancement.py:131-136 | with the other ranks' dates settled before, deriving a rank's date and re-running the credits leaves nothing to credit, and nothing to derive exactly when no rank credited in the pass is complete |
| Settling.SettledIffNoChange | backend/app/core/advancement.py:239-260 | a rank's date is the latest approved one whenever the rank is complete, exactly when deriving it again reports no change |
| Settling.CascadeIsBounded | backend/app/routers/advancement.py:112-136 | however credits complete further ranks, at most as many passes earn a rank as there are ranks without a date |
| MetricConditions.ValidateMetrics | backend/app/core/advancement_catalog.py:67-85 | accepts exactly null or a non-empty list of valid conditions with positive thresholds, and returns them as stored |
| MetricConditions.ConditionRoundTrip | backend/app/core/advancement_catalog.py:73-84 | a stored condition reads back as itself when its threshold is positive and is rejected otherwise |
| MetricConditions.StoredMetricsReload | backend/app/core/advancement_catalog.py:67-85 | what the loader stores it accepts again unchanged, so reloading sees no difference |
| MetricConditions.StoredIffSpelled | backend/app/core/advancement_catalog.py:73-84 | an object is stored as a condition exactly when it names that kind, that positive threshold and that window in the documented words; without a window it counts all history |
| MetricConditions.StoredMetricsIffSpelled | backend/app/core/advancement_catalog.py:67-85 | metrics are accepted and stored as given exactly when they are null for none or a non-empty list that spells out the conditions one by one |
| CatalogSpec.IdleReloadIsSame | backend/app/core/advancement_catalog.py:130-167 | if a load over a stored file reports zero, the file is the stored one, line by line |
| CatalogSpec.SameReloadIsIdle | backend/app/core/advancement_catalog.py:130-177 | loading the stored file again reports zero and changes no row or link |
| CatalogSpec.ReloadIdleIffSameLines | backend/app/core/advancement_catalog.py:130-177 | zero counts exactly for the stored lines, and then nothing changes |
| CatalogSpec.SyncedStoresFile | backend/app/core/advancement_catalog.py:118-176 | a set that holds a file has a live row for each item, with the item's text, key, spelled-out metrics and flag at the item's position, no key for the empty string, and below the bare-numbered item of the file if lettered; no other row is live |
| CatalogLoader.UpsertLinesRows | backend/app/core/advancement_catalog.py:118-161 | after the first loop the file's rows are live and hold its lines, existing ids are kept and others untouched |
| CatalogLoader.UpsertLinesCounts | backend/app/core/advancement_catalog.py:130-160 | `created` counts new slots and `updated` the rows that differed or were tombstones |
| CatalogLoader.LinkedUpToAll | backend/app/core/advancement_catalog.py:172-176 | linking in place, line by line, leaves each line the link computed from the rows before the loop, since no slot comes twice |
| CatalogLoader.LoadFinished | backend/app/core/advancement_catalog.py:118-177 | the three loops together leave exactly the file's lines live, linked as the file says, with the right counts |
| CatalogLoader.CatalogStore.UpsertItems | backend/app/core/advancement_catalog.py:115-161 | stops at the first bad item, accepts exactly valid files, and otherwise upserts every line |
| CatalogLoader.CatalogStore.UpsertRow | backend/app/core/advancement_catalog.py:130-161 | an existing row is rewritten only when something differs, and a new row holds the item; what that means of the item is CatalogSpec.SyncedStoresFile |
| CatalogLoader.CatalogStore.TombstoneMissing | backend/app/core/advancement_catalog.py:163-167 | live rows that fell out of the file are tombstoned and counted, others keep everything |
| CatalogLoader.CatalogStore.LinkParents | backend/app/core/advancement_catalog.py:170-176 | each of the file's rows gets the link the file implies, or none; other rows keep theirs |
| CatalogLoader.CatalogStore.UpsertRequirementSet | backend/app/core/advancement_catalog.py:88-177 | a valid block has the whole load effect and an invalid one leaves the store as it was |
| CatalogLoader.CatalogStore.LoadCatalog | backend/app/core/advancement_catalog.py:224-236 | all blocks load in order with their counts, or none does |
| CatalogRuns.LastFileIsStored | backend/app/core/advancement_catalog.py:109-177 | after any successful loads a loaded set holds exactly its last file and other sets are untouched |
| CatalogRuns.IdsAreForever | backend/app/core/advancement_catalog.py:109-161 | a (number, letter) keeps its row id through every later load, dropped or restored |
| CatalogRuns.BlockStoresItems | backend/app/core/advancement_catalog.py:88-177 | after a block its set has a live row for exactly its items, each saying what the item says, and no other set is touched |
| CatalogRuns.BlockKeepsRows | backend/app/core/advancement_catalog.py:130-176 | a row outside the file keeps everything but is a tombstone, every row keeps its id, and rows are added for items only |
| CatalogRuns.BlockCountsItems | backend/app/core/advancement_catalog.py:130-167 | created, updated and removed are the items without a row, the items whose row was a tombstone or said something else, and the live rows outside the file |
| CatalogRuns.LastItemsAreStored | backend/app/core/advancement_catalog.py:221-236 | after any successful loads every loaded set stores the items of its last block, each at its position with what it says |
| CatalogRuns.ReloadIdleIffConsistent | backend/app/core/advancement_catalog.py:180-236 | loading the same files twice reports zero the second time exactly when no two blocks disagree on one (rank, version) |
| CatalogRuns.ViewIsFile | backend/app/core/advancement_catalog.py:118-161 | what is shown of a loaded set is the file, in the file's order, with its text, key, metrics and flag |
| CatalogRuns.ViewIsForest | backend/app/core/advancement_catalog.py:170-176 | every shown parent is shown, has the same number, no letter and no parent |
| CatalogRuns.LastItemsAreShown | backend/app/core/advancement.py:58-69 | what is shown of a loaded set is its last block item by item, lettered items below the shown item with their number |
| CatalogRuns.LoadedSetsSuitTheEngine | backend/app/core/advancement_catalog.py:170-176 | after any successful loads, on every loaded set the engine's one-pass derivation equals the recursive one for every set of approvals, and complete means all leaves approved |
| CatalogRuns.ViewsAreSeparate | backend/app/core/advancement_catalog.py:109-161 | what is shown of two loaded sets has no requirement id in common |
| CatalogRuns.LoadedSetsConvergeIff | backend/app/core/advancement.py:137-206 | between any two loaded sets, a third switch copies nothing from every ledger exactly when no key of one is repeated in the other |
| SyncPull.Tail | backend/app/routers/sync.py:94-110 | the rows a cursor has not passed are exactly those with a greater (sync_seq, id) |
| SyncPull.PullToCompletion | apps/mobile/src/data/pull.ts:27-56 | a walk is refused exactly when its cursor is behind the watermark or its first page is not the last and ends behind it; otherwise every remaining row comes once, in order |
| SyncPull.WalkPages | apps/mobile/src/data/pull.ts:35-55 | the page loop stops where the page-by-page recursion says |
| SyncPull.FinishedWalkIsCurrent | backend/app/routers/sync.py:112-122 | after a finished walk nothing is left, and its cursor passes the watermark check and dominates every row |
| SyncPull.OrderedUnique | backend/app/routers/sync.py:105-110 | (sync_seq, id) order determines the stream: two ordered lists of the same rows are equal |
| SyncPull.TailFrom | backend/app/routers/sync.py:94-110 | the rows after a page's last cursor are exactly the rest of the walk, so pages neither skip nor repeat |
| SyncPull.FirstRefusal | backend/app/routers/sync.py:83-90 | a walk is refused at once, for its second page, or not at all |
| Reaper.MemberStore.ReapPurgedMembers | backend/app/core/deletion.py:224-267 | below 180 days nothing happens; otherwise exactly the due members and their rows are gone, survivors lose only references, touched tenants' watermarks pass every earlier value and others keep theirs |
| Reaper.NulledRows | backend/app/core/deletion.py:118-130 | after the eight updates a row has lost exactly its listed references and is restamped only if it lost one |
| Reaper.ReapOneReaps | backend/app/core/deletion.py:246-264 | reaping one member, statement by statement, removes exactly the member and the rows they own, takes only listed references from the rest and moves only their tenant's watermark |
| Reaper.ReapOneSound | backend/app/core/deletion.py:203-216 | no row is left above the sequence or exactly on its tenant's watermark |
| Reaper.ReapedCompose | backend/app/core/deletion.py:245-264 | reaping members one after the other is reaping them together |
| Reaper.ReapEachReaps | backend/app/core/deletion.py:240-267 | the loop has the same declared effect in whatever order the members come |
| SyncProtocol.EachStreamOnce | backend/app/core/deletion.py:134-143 | the pulled streams are exactly the tables that carry a cursor value, once each |
| Reaper.EveryColumnIsCleared | backend/app/core/deletion.py:121-130 | the cleared columns are exactly the nullable member columns of the modelled tables |
| Reaper.NothingRefersToReaped | backend/app/core/deletion.py:234-262 | no surviving row is, belongs to or refers to a reaped member; it keeps everything else, and a synced row that lost a reference has a stamp above everything drawn before |
| Reaper.ReapedIffExpired | backend/app/core/deletion.py:240-252 | what goes is exactly the members purged at least so many days ago and the rows that belong to one |
| SyncInvariant.PageKeepsLocal | apps/mobile/src/data/mirror.ts:37-77 | applying a page with its cursor keeps the entity's invariant, whatever was committed or reaped since the page was served, and the first page of a refetch restores it |
| SyncInvariant.ServedReplyOk | backend/app/routers/sync.py:92-122 | a page delivers, in its current version, every visible row between the request's cursor and its own, and its cursor excuses whatever the device mirrors in vain |
| SyncInvariant.ServedCloses | apps/mobile/src/data/pull.ts:84-89 | the last page of a refetched entity brings everything mirrored that is still on the server and was not delivered before |
| SyncSafety.ReapMoves | backend/app/core/deletion.py:203-264 | a reap either takes nothing of a tenant and leaves its watermark, or moves the watermark past everything drawn before |
| SyncSafety.MoveKeepsDevice | apps/mobile/src/data/pull.ts:27-56 | draws, commits and reaps between any two steps of a device keep its invariant, with a page on its way or not, but for the entities marked as overtaken |
| SyncSafety.RescopeKeepsDevice | backend/app/routers/sync.py:134-149 | so does a change of what its member may see, but for the entities it exposes |
| SyncSafety.StepKeepsInv | backend/app/routers/sync.py:60-371 | every draw, commit, reap, enrolment, change of visibility and every page, sweep and kill keeps: what a cursor has passed is mirrored as the server has it, and a lost row is excused by a cursor that will be refused or by an unfinished refetch, but for entities that a commit or a change of visibility has put a row below |
| SyncSafety.RunKeepsInv | backend/app/routers/sync.py:60-371 | the invariant holds in every state of every run |
| SyncResults.LostRowsAreExcused | backend/app/routers/sync.py:74-83 | at any moment of any run, a mirrored row the server lacks is on an entity whose next pull is refused, or was last delivered before a refetch that has not finished, or its entity is stale |
| SyncResults.SweepDropsOnlyLost | apps/mobile/src/data/pull.ts:77-96 | in any run, a sweep of an entity that is not stale drops only ids the server no longer has in view, live or deleted, changes nothing else, and leaves a lost row only where the next pull will be refused |
| SyncResults.PagesAdvance | apps/mobile/src/data/pull.ts:50-54 | a page with more to come always moves the cursor: the client's guard against a stuck cursor never fires |
| SyncResults.LastPageIsExact | apps/mobile/src/data/pull.ts:41-50 | when the last page of an entity that is not stale arrives, its mirror is equal to the live visible rows at the moment the server answered, whatever was committed or reaped in between, exactly when nothing lost was mirrored then, as after any refetch that was not cut off |
| SyncResults.RoundIsExactIff | apps/mobile/src/data/pull.ts:68-75 | from any state of the device, a round over a quiet server that reaches its end leaves a mirror equal to the live visible rows exactly when, at its start, what the cursor had passed was mirrored as on the server and nothing else was mirrored in vain |
| SyncResults.FinishedRoundIsExact | apps/mobile/src/data/pull.ts:68-75 | in any run, a round over a quiet server that reaches its end leaves the mirror of every entity that is not stale equal to the live visible rows, if no earlier refetch was cut off |
| SyncResults.FinishedRefetchIsExact | apps/mobile/src/data/pull.ts:77-96 | in any run, a refetch over a quiet server that reaches its end does so for every entity, stale or not, whatever the device held |
| SyncResults.UnsweptRefetchIsExactIff | apps/mobile/src/data/pull.ts:84-96 | after its last page and before its first sweep a refetch leaves no cursor refusable, and the mirrors are exact exactly when the device mirrored no lost row |
| SyncResults.WatermarksNeverFall | backend/app/core/deletion.py:259-262 | over any run the sequence and every watermark never decrease |
| SyncResults.PassingCursorIsNewer | backend/app/core/deletion.py:203-216 | a cursor that passes the check was issued after the last reap of its tenant: it exceeds every value drawn, every cursor held and every cursor on its way before it |
| SyncResults.ReapRefusesDevice | backend/app/core/deletion.py:260-262 | after a reap of its tenant a device is refused on every entity it has a cursor for |
| SyncGaps.MissedOnlyIfOpen | docs/spec/sync-protocol.md:46-52 | in any run, what a commit puts at or below a cursor carries a value that was drawn and not yet committed when the cursor's page was read |
| SyncGaps.CanBeOvertakenIff | docs/spec/sync-protocol.md:46-52 | at any moment of any run, some commit could put a row below a cursor exactly when a value below it is drawn and not committed |
| SyncGaps.CommitIsSeenIff | docs/spec/sync-protocol.md:26-31 | a finished round right after a commit leaves a mirror equal to the live visible rows exactly when the commit put no version at or below the cursor that is live or still mirrored |
| SyncGaps.RescopeIsSeenIff | docs/spec/sync-protocol.md:91-98 | a finished round right after a change of visibility leaves a mirror equal to what is live and visible now exactly when no mirrored row changed visibility and no live row was revealed at or below the cursor |
| SyncGaps.StaleHasACause | docs/spec/sync-protocol.md:46-52 | in any run, a device has a stale entity only after a commit below one of its cursors or below the page on its way, or a change of its visibility |
| SyncStalls.StuckAnswer | backend/app/routers/sync.py:85-122 | on an entity whose first page ends below the watermark with more to come, a walk from zero gets a cursor that is refused, and a refused cursor stays refused |
| SyncStalls.StuckNeverFinishes | backend/app/routers/sync.py:79-90 | while neither the server nor its visibility changes, a device at such an entity never gets past it, however often it starts a round or a refetch and wherever it is killed |
| SyncStalls.RefetchStrands | apps/mobile/src/data/pull.ts:84-89 | a device that was up to date is caught there as soon as a refetch takes that entity's first page |
| SyncStalls.RefetchGetsThrough | apps/mobile/src/data/pull.ts:84-93 | with no such entity a refetch over an unchanged server does reach its sweep, page by page, for any page limit |
| SyncStalls.RefetchFinishesIff | backend/app/routers/sync.py:79-83 | an idle device has some continuation over an unchanged server that reaches a sweep if and only if no entity's first page ends below the watermark with more to come |
| SyncStalls.WholeWalk | apps/mobile/src/data/pull.ts:68-89 | whenever all its entities can be passed, a round or refetch has a run from start to end that catches up every cursor and drops no lost row |
| SyncWitnesses.NewDeviceNeverSyncs | backend/app/routers/sync.py:79-90 | for every page limit, the app's 500 included, a run of one reap and one enrolment after which, in every continuation over the unchanged server, the new device never gets past the second entity |
| SyncWitnesses.CutRefetchLeavesALostRow | apps/mobile/src/data/pull.ts:84-96 | for every page limit, a run in which a refetch is killed before its sweep, the next round finishes with no cursor refusable, and the device still mirrors a row the server has lost |
| SyncWitnesses.LateCommitIsMissed | docs/spec/sync-protocol.md:46-52 | for every page limit, a run in which a device finishes a round between two commits, the second with the lower value, and its next round finishes without the row |
| SyncWitnesses.RevealedRowIsMissed | docs/spec/sync-protocol.md:91-98 | for every page limit, a run in which a row older than the device's cursor becomes visible and the next round finishes without it |
| TenantPurge.TenantStore.ExportTenant | backend/app/core/deletion.py:293-299 | the bundle has every tenant-scoped table, each with exactly the tenant's rows |
| TenantPurge.TenantStore.PurgeTenant | backend/app/core/deletion.py:330-345 | the purge goes through exactly when every key into the tenant's rows points back; then no row of the tenant is left, every other row is, and the counts are those of the deleted rows |
| TenantPurge.EveryPrefixIntactIff | backend/app/core/deletion.py:337-340 | every iteration keeps referential integrity if and only if every key into the tenant's rows comes from its own rows in the same or a later table |
| TenantPurge.PointingBackIsIntact | backend/app/core/deletion.py:337-340 | keys that point back, self-references included, never dangle in the middle of the purge |
| TenantPurge.ForwardKeyDangles | backend/app/core/deletion.py:337-340 | a key from another tenant or to a later table dangles at a named iteration |
| TenantPurge.ExportAndRestPartition | backend/app/core/deletion.py:282-345 | in each table the exported rows and the rows left are disjoint and together the table as it was |
| TenantPurge.CountsAreBundleSizes | backend/app/core/deletion.py:336-345 | the purge counts are the export's bundle sizes, empty tables left out |
| TenantPurge.PurgedRows | backend/app/core/deletion.py:282-345 | a row is exported when it is the tenant's and survives unchanged when it is not; a table is counted when it held such rows, with their number |
| SyncBackfill.MaxOrOne | backend/alembic/versions/b1c2d3e4f5a6_add_member_sync_seq.py:44 | 1 for no values, otherwise a value that none exceeds |
| SyncBackfill.SyncDatabase.UpgradeMembers | backend/alembic/versions/b1c2d3e4f5a6_add_member_sync_seq.py:33-44 | members are numbered from 1 in backfill order and the sequence stands at their number, or at 1 |
| SyncBackfill.SyncDatabase.UpgradeTable | backend/alembic/versions/a2b3c4d5e6f7_extend_sync_seq.py:44-65 | one table is numbered right above the sequence, which moves up by exactly its size |
| SyncBackfill.SyncDatabase.UpgradeTables | backend/alembic/versions/a2b3c4d5e6f7_extend_sync_seq.py:40-65 | every table starts above the previous ones and the sequence ends at the last value; members are untouched |
| SyncBackfill.RowNumberOrder | backend/alembic/versions/b1c2d3e4f5a6_add_member_sync_seq.py:37-40 | row numbers order the rows exactly as (updated_at, id) does |
| SyncBackfill.NumbersAreOneToN | backend/alembic/versions/b1c2d3e4f5a6_add_member_sync_seq.py:37-40 | the numbers are 1 to n, each used once |
| SyncBackfill.BackfillMax | backend/alembic/versions/a2b3c4d5e6f7_extend_sync_seq.py:56-65 | the greatest value of a backfilled table is offset + n and all are above the offset |
| SyncBackfill.BackfillOrder | backend/alembic/versions/a2b3c4d5e6f7_extend_sync_seq.py:40-65 | values order all rows by table, then updated_at, then id, above the starting position and at most at the final one, for any sizes |
| SyncBackfill.SyncDatabase.WriteMembers | backend/app/models/base.py:46-48 | each statement on members between the migrations draws the next value of the shared sequence and gives it to all the rows it inserts or updates |
| SyncBackfill.RewrittenValue | backend/app/models/base.py:46-48 | a member has the time and the value of the last statement that wrote it, or its own row from before |
| SyncBackfill.SyncDatabase.BothMigrations | backend/alembic/versions/a2b3c4d5e6f7_extend_sync_seq.py:40-65 | first migration, any statements on members, second migration on the database itself: every row ends with a value, two rows share one exactly when they are members that one statement wrote last, and the sequence stands at or above them all |
| SyncBackfill.FinalBounded | backend/alembic/versions/a2b3c4d5e6f7_extend_sync_seq.py:56-65 | after both migrations, with any member writes between, the sequence is at or above every value and members stay below the other tables |
| SyncBackfill.BothMigrationsShareIff | backend/alembic/versions/a2b3c4d5e6f7_extend_sync_seq.py:40-65 | after both migrations, with any statements on members between, two rows of members and the other tables share a value exactly when they are members that one statement wrote last |
| GroupRules.GroupByKey | backend/alembic/versions/7f9bd698851b_add_dynamic_group_rules.py:105-111 | the dictionary has exactly the keys with a live rule, each with its positions in row order |
| GroupRules.Upgrade | backend/alembic/versions/7f9bd698851b_add_dynamic_group_rules.py:96-130 | goes through exactly when no group has live rules of two tenants; then there is at most one rule per group, the rules list exactly the live triples, and they unfold to them with the same multiplicity |
| GroupRules.Downgrade | backend/alembic/versions/7f9bd698851b_add_dynamic_group_rules.py:170-202 | a constraint violation when a (group, position) repeats; otherwise the rows are exactly the positions that live position rules list, deleted rules and other dimensions dropped |
| GroupRules.UpThenDownRestores | backend/alembic/versions/7f9bd698851b_add_dynamic_group_rules.py:105-202 | up and down again gives exactly the live triples, as a multiset |
| GroupRules.RestoredPairsAreUnique | backend/alembic/versions/7f9bd698851b_add_dynamic_group_rules.py:176-202 | under the old table's constraint the downgrade's inserts all go through |
| GroupRules.FlattenLists | backend/alembic/versions/7f9bd698851b_add_dynamic_group_rules.py:170-190 | a triple comes back exactly when a live position rule of its tenant and group lists its position |
| GroupRules.UpgradeFitsIff | backend/alembic/versions/7f9bd698851b_add_dynamic_group_rules.py:113-130 | there is at most one rule per group and dimension exactly when each group's live rules have one tenant |
| PatrolFold.TroopDatabase.Upgrade | backend/alembic/versions/e7f8a9b0c1d2_fold_patrol_into_groups.py:105-130 | goes through exactly when patrol names are unique per tenant and every patrol_id has its patrol, and then folds every patrol and assignment |
| PatrolFold.TroopDatabase.Downgrade | backend/alembic/versions/e7f8a9b0c1d2_fold_patrol_into_groups.py:154-175 | patrols come back from patrol groups; a member gets one of their live patrols, or none if there is none |
| PatrolFold.JoinedResolve | backend/alembic/versions/e7f8a9b0c1d2_fold_patrol_into_groups.py:115-125 | the new memberships satisfy their foreign keys exactly when every patrol_id has its patrol |
| PatrolFold.FoldedRows | backend/alembic/versions/e7f8a9b0c1d2_fold_patrol_into_groups.py:105-126 | each patrol becomes a patrol group with its id, name, times and deletion mark, no system group, and each assignment a live membership of the member's tenant |
| PatrolFold.UnfoldedRows | backend/alembic/versions/e7f8a9b0c1d2_fold_patrol_into_groups.py:154-171 | patrol groups come back as patrols and other groups do not; a member has a patrol exactly when some live membership is in one, and then such a one |
| PatrolFold.FoldThenUnfold | backend/alembic/versions/e7f8a9b0c1d2_fold_patrol_into_groups.py:105-171 | up and down again restores every patrol, deleted ones included, and every member's patrol_id or its absence |
| PatrolFold.UnfoldDeterminedIff | backend/alembic/versions/e7f8a9b0c1d2_fold_patrol_into_groups.py:162-171 | after any edits to groups, the downgrade has one possible result exactly when no member is in two live patrols |
| SignIn.AuthStore.GetOrCreateUser | backend/app/core/auth.py:61-137 | the state after a sign-in and that it commits exactly when some row changed; a returned user has every live member with the vouched address that had none, and no other member row changes |
| SignIn.AuthStore.RefreshUser | backend/app/core/auth.py:82-110 | a known user keeps what is filled and gets what was missing, members with the vouched address are linked, and the changed flag is true exactly when a user or member row differs |
| SignIn.AuthStore.FillProfile | backend/app/core/auth.py:82-92 | a known user's missing address, verification and name are filled, and the flag says whether one was |
| SignIn.MergedFillsIn | backend/app/core/auth.py:82-110 | a missing address and name are taken from the claims, present ones stay, and the address is verified exactly when it was or when the claims vouch for it |
| SignIn.ClaimedLinksInvited | backend/app/core/auth.py:161-182 | with a vouched address every live member with it that had no user has this one and none is left without; no other member row changes |
| SignIn.SignInWrites | backend/app/core/auth.py:61-137 | a known user is filled in and nobody else changes; a first sign-in adds one user and one identity from the claims; a removed identity writes nothing |
| SignIn.AuthStore.AutolinkUnclaimedMembers | backend/app/core/auth.py:161-182 | exactly the live unclaimed members with the address are linked, and the result says whether there was one |
| SignIn.AuthStore.BootstrapSuperadmin | backend/app/core/auth.py:140-158 | the role is granted exactly to a user without one whose verified address is the allowlisted one |
| SignIn.RepeatWritesNothing | backend/app/core/auth.py:82-110 | repeating the last sign-in with identical claims changes nothing |
| SignInRuns.RunGrows | backend/app/core/auth.py:61-137 | over any run of all writers, from any moment on, an (issuer, sub) keeps its user, set emails, names and verification are never overwritten, and a member link changes only when a purge clears it for good |
| SignInRuns.VerifiedWasVouched | backend/app/core/auth.py:76-110 | over any run, a user is marked verified only after a sign-in of their own identity had verified that same address |
| SignInRuns.EveryLinkHasASource | backend/app/routers/auth.py:119-174 | over any run, every member link was made by its user's verified sign-in, by the user redeeming the outstanding token, or when the member was added for the user's verified address, or by the operator's script while there was no other user, and has stood since |
| SignInRuns.EveryRoleHasASource | backend/app/routers/platform.py:327-388 | over any run, every platform role was given by a verified allowlisted sign-in of a user without one, by a superadmin's grant or by the operator's script, and has stood since |
| SignInRuns.RolesStartAtTheAllowlist | backend/app/core/auth.py:140-158 | over any run, no one has any role unless someone has signed in with the verified allowlisted address or the operator has promoted someone |
| SignInRuns.LastSuperadminLostIff | backend/app/routers/platform.py:327-388 | a step leaves the platform without a superadmin exactly when it is a grant, or the operator's script, that gives the only one a lesser role or none |
| SignInRuns.OnlySuperadminSteps | backend/app/routers/platform.py:327-356 | a run of two steps, a sign-in with the allowlisted address and a grant to oneself, after which there was a superadmin and is none |
| SignInRuns.RunKeepsOneUserEach | backend/app/core/auth.py:112-137 | over any run no two identities share a user, and every identity's user exists |

## Left out

- Sessions, flushes, commits and rollbacks: each operation is atomic; a failed catalog load leaves the store as it was, and a failed purge or sign-in is rolled back by its caller.
- JSON files, SQL text and DDL: tables are maps or sequences of records and a statement is its set-level meaning; coercion of numbers and letters to strings is taken as done.
- Which requirement set is the latest (`backend/app/core/advancement.py:41-57`): the engine takes it from the catalog it is given.
- The choice between a participant's override and the event's value (`backend/app/core/advancement.py:376-378`): attended values are given.
- Float rounding in the month division and non-finite thresholds: values are exact rationals.
- Rank names and sort orders, merit badges and effective dates in the loader: plain overwrites; the engine is given the ranks with their sort orders.
- Runs.NeverRecreated: reports, edits and revocations leave the member's progress rows unconstrained, because the theorem is about completion rows only.
- The SQLite branches of the sequence (`backend/app/core/deletion.py:217-221`, `backend/app/models/base.py:27-36`): they take a maximum over surviving rows after the owned rows are gone, so the watermark claims hold for the shared sequence only.
- SyncSafety.StepKeepsInv: one page request is one atomic read; a reap draws and commits in one step; a device runs one round or refetch at a time.
- How visibility is computed (`backend/app/routers/sync.py:134-149`, 324-370): what a member may see is a set of rows that may change at any time; fields that are redacted for some callers are not modelled.
- SyncPull.PullToCompletion: the walk of this method, page loop included, reads one snapshot of the stream; pages between which the server writes or reaps, and walks that are killed, are the steps of `SyncProtocol` and covered by the theorems about its runs.
- SyncPull.WalkPages: all pages of the loop read one snapshot, as for SyncPull.PullToCompletion.
- When the app starts a round or a refetch (`apps/mobile/src/data/engine.ts:20-44`): the mobile engine does not refetch on a 410 but by age, so in the model either may start at any moment the device is idle.
- Writing an interactive response straight into the mirror (`apps/mobile/src/data/mirror.ts:91-118`) and the outbox are not part of this model.
- Reaper.MemberStore.ReapPurgedMembers: references are the listed nullable columns and owners the listed tables; consent records, import jobs, event photos and slot signups are not in those lists and not modelled.
- Anonymizing a member in place (`backend/app/core/deletion.py:143-200`): field overwrites without a deeper property.
- The users and tenant blocks of the export and its timestamp: direct copies.
- Member rows that are deleted between the two backfills: they only make fewer rows.
- GroupRules.Downgrade: rules of other dimensions and deleted rules are dropped by the code and do not come back.
- SignInRuns.RunGrows: member rows stay in the run; their physical removal by the reaper and by a tenant purge is the subject of `Reaper` and `TenantPurge`. User rows are never deleted, as no service code deletes one; the development scripts that reset or seed a database are not modelled. A token is the identifier it carries: its signature and expiry belong to token validation.
- Token validation, key sets, provider labels and other providers' calls: foreign code. Lower-casing is a parameter.
- Event visibility, request dependencies, messaging, anonymizer and fixture generators, web and mobile screens: no property as deep as the ones above.
