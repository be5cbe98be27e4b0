# A verified model of the download manager's core

This project models, in Dafny, the parts of the media server whose behaviour is hardest to see from one function
at a time, and proves what they are for.

* **Scheduling.** `Ranking`, `Grouping`, `SlotFiller` and `Scheduler` follow the pass that decides which downloads
  run: rows are folded into one group per user and torrent, ranked, and seated under a global ceiling and a per-user
  cap, with preemption. `SlotCount` counts the slots for every setting, and `Settling` proves for every setting that a
  running group yields only to a higher priority, so that plans settle. `WaitingOrder` says which
  waiting groups get in. `PlanLaws` proves the plan optimal and a fixpoint after one pass, and `SlotPasses`, `SoloGroups`, `AgingLimits`, `CapLimits` and `SettingsLaw` show under
  exactly which settings those two hold. `Store` and `ApplySchedule` commit a plan in status-guarded batches while other
  requests (`Requests`) change rows in between.
* **The completion move.** `Disk` is a disk on which every operation can fail and the process can die at any of them,
  losing whatever was not synced. `FileMove` moves one file on it and `TreeMove` a whole torrent. `TreeSteps` and
  `TreeOrder` say which lists of files survive that, and `TreeNames` what the torrent's own paths make of it. If any
  operation may fail, it is enough that no two files share a name on their way (`TreeSteps.Separate`). If renames and
  removals do not, while the process can still die or be cancelled at any step and anything else can fail, the order
  of the list decides, exactly (`TreeSteps.Orderly`). `Finalizing` shows what the shortcut for files
  already at their destination makes of a later process. `Paths` and `MoveNames` have the rules for paths and names,
  and `Completion` decides when a group may be moved.
* **Init, remove and tick.** `InitProtocol` interleaves the worker's critical sections; `InitWorker` is the worker's
  maps with each section proved to be the protocol's step.
* **Source rotation.** `SourceTable` and `Rotation` are the table and an attempt at switching sources, with any statement
  failing; `RotationRules` says what an attempt keeps and `RotationBounds` how often sources are switched.
* **Smaller algorithms.** `ContentId` (piece verification and fingerprints), `Sessions` (refresh-token rotation),
  `Totp` (one-time passwords and replay), `RateLimit` (pacing per provider), `Rebind` (placeholder rewriting).
* `Options`, `Quantities`, `Sorting` and `Strconv` are shared helpers.

Code that changes state step by step is modelled by classes and methods proved against functions of the old state;
what the code promises is then proved about those functions. Concurrency is modelled by runs: sequences of atomic
steps, one per statement, transaction or critical section, in any order. Time is a number of nanoseconds. Hashes, the
code of a one-time password, clocks, failures and the results of searches are parameters or arbitrary choices.

Four results differ from what the code's own comments say. The limiter's comment says calls never burst past the cap:
`RateLimit.CapKeptExactly` shows that a cap that does not divide a minute admits one call too many. The comment on
removal says the resurrection window is closed: `InitProtocol.ResurrectionExactly` says when it is not, and
`InitProtocol.Resurrects` is a run that gets there. The comments on the move say that a retry, or the next boot, resumes
where an interrupted attempt left off: `TreeMove.RecoverTree` says exactly when a success can be relied on, and
`Finalizing.DoneTooEarly` is the case in which the next process reports one too early. They also say that an existing
destination is trusted only if its size matches: `Finalizing.StaleTaken` is a shorter file that is trusted.

## Model

| member | source | states |
|---|---|---|
| `Ranking.AgingBonus` | internal/downloads/scheduler.go:31-44 | the bonus is never negative, never above the configured ceiling, and positive only while aging is switched on |
| `Ranking.AgingBonusSteps` | internal/downloads/scheduler.go:31-44 | exactly one point for each whole step of minutes waited, up to the ceiling |
| `Ranking.RankingsAreTotalOrders` | internal/downloads/scheduler.go:56-69 | promotion order and group-member strength are strict total orders on rows with distinct ids, at any instant |
| `Ranking.PromotionRespectsTiers` | internal/downloads/scheduler.go:56-60 | with bonuses below the tier gap of 1000, promotion order never puts a lower base priority first |
| `Ranking.RepresentativeOf` | internal/downloads/aggregate.go:82-103 | the representative is a member no other member is stronger than, and carries the group's highest base priority |
| `Ranking.RepresentativeBest` | internal/downloads/aggregate.go:89-103 | and of the members of that priority none beats it on score, stalls, waiting time and id |
| `Ranking.RepresentativeOrderFree` | internal/downloads/aggregate.go:89-103 | listing the members in another order does not change the representative |
| `Ranking.Representative` | internal/downloads/aggregate.go:89-103 | the scanning loop finds that representative, and whether any member is downloading |
| `Strconv.AtoiItoa` | internal/downloads/aggregate.go:40-45 | the decimal rendering used in keys can be read back |
| `Grouping.KeysAgreeExactly` | internal/downloads/aggregate.go:40-50 | two rows share a key exactly when they are one user's rows of one torrent, or one's hash spells out the `id:<n>` suffix of the other |
| `Grouping.GroupRows` | internal/downloads/aggregate.go:64-82 | the fold over a map and a list of keys yields the groups in order of first appearance |
| `Grouping.GroupRowsPartitions` | internal/downloads/aggregate.go:61-82 | the groups laid end to end are a permutation of the rows; rows share a group exactly when they share a key; rows of a group keep their order |
| `SlotFiller.WeakestIncumbent` | internal/downloads/scheduler.go:229-244 | the victim is a running group of least base priority, and none is found only when nothing active was running |
| `SlotFiller.WeakestIsFirst` | internal/downloads/scheduler.go:229-244 | and of several such it is the first |
| `SlotFiller.Filler.constructor` | internal/downloads/scheduler.go:179-186 | an empty filler satisfies the accounting invariant |
| `SlotFiller.Filler.Take` | internal/downloads/scheduler.go:196-202 | seating a group appends it and keeps the wanted ids, the active list and the per-user counters in agreement |
| `SlotFiller.Filler.WeakestPreemptable` | internal/downloads/scheduler.go:229-244 | the loop returns that victim, only for a candidate of strictly higher base priority |
| `SlotFiller.Filler.TryPreempt` | internal/downloads/scheduler.go:206-224 | the swap keeps the same agreement although it lowers one counter and raises another |
| `SlotFiller.SwapIds` | internal/downloads/scheduler.go:211-223 | removing the victim's ids and adding the candidate's leaves exactly the rows of the active groups |
| `Scheduler.RankGroups` | internal/downloads/scheduler.go:124-142 | running and waiting groups come out stably sorted by base priority and by promotion order |
| `Scheduler.RunningInOrder` | internal/downloads/scheduler.go:139-141 | running groups of one priority keep the order of their first rows |
| `Scheduler.SortedEntries` | internal/downloads/scheduler.go:124-142 | the two sorted lists are all the groups, each once, owning different rows |
| `Scheduler.SeatIncumbents` | internal/downloads/scheduler.go:144-148 | the first pass over the filler is the seating function |
| `Scheduler.AdmitWaiting` | internal/downloads/scheduler.go:149-155 | the second pass, with its early continue, is the filling function |
| `Scheduler.SchedulePlan` | internal/downloads/scheduler.go:120-157 | the whole pass returns the rows of the chosen groups |
| `SlotCount.SlotsExactlyFilled` | internal/downloads/scheduler.go:120-156 | for every setting the number of chosen groups is min(MaxActive, or 3 if that is not positive, sum over users of min(PerUserMax, their groups)), and no user exceeds the cap |
| `SlotCount.PlanIsGroupAtomic` | internal/downloads/worker_sched.go:27-31 | the plan holds all or none of a group's ids |
| `PlanLaws.GoodSettingsChooseBest` | internal/downloads/scheduler.go:110-116 | with a cap that cannot bind and aging within a tier: no group left out outranks a chosen one, every dropped incumbent is strictly below every admitted waiter, and no slot stays free while a group waits |
| `PlanLaws.GoodSettingsStable` | internal/downloads/scheduler.go:110-113 | under the same settings, applying the plan and planning again, at any instant and for any row order, chooses the same rows |
| `WaitingOrder.WaitersInOrder` | internal/downloads/scheduler.go:56-69 | with a cap that cannot bind, no waiting group left out beats one that got in, of no higher base priority, on score, then stalls, then waiting time, then id; nor any at all when nothing was running |
| `AgingLimits.AgingInvertsTiers` | internal/downloads/scheduler.go:31-60 | with aging that can cross a tier, a concrete table is planned against base priority, and not because of any cap |
| `AgingLimits.AgingNeedsAnotherPass` | internal/downloads/scheduler.go:31-60 | and that plan is not a fixpoint: on the rows as its batches leave them, the next pass plans the normal row in for one of a lower tier |
| `CapLimits.CapInvertsTiers` | internal/downloads/scheduler.go:149-155 | with a cap that can bind, a concrete table leaves a high-priority group out for a normal one although its user ends below the cap |
| `CapLimits.CapNeedsAnotherPass` | internal/downloads/scheduler.go:144-155 | and that plan is not a fixpoint: on the rows as its batches leave them, preempted ones stamped, the next pass plans the high-priority row in |
| `SettingsLaw.ExactSettings` | internal/downloads/scheduler.go:110-157 | plans are always optimal, always optimal but for groups whose user is at its cap, and always a fixpoint after one pass, under exactly the same settings: per-user cap off or above MaxActive, and aging off or capped below 1000 |
| `Settling.RunningKept` | internal/downloads/scheduler.go:110-113 | for every setting: a pass over running groups within both limits drops one only by giving its place to a waiting group of strictly higher base priority |
| `Settling.NextPassMatched` | internal/downloads/scheduler.go:110-113 | for every setting, after any plan took effect, at any later instant: as many groups are chosen as run, and each running one dropped has lost its place to a waiting one of strictly higher base priority |
| `Settling.OneTierStable` | internal/downloads/scheduler.go:110-113 | for every setting, a table whose rows have one base priority never thrashes: its plan is a fixpoint |
| `Settling.NextWorthMore` | internal/downloads/scheduler.go:110-113 | for every setting, the next pass repeats the plan or strictly raises the sum of the base priorities chosen |
| `Settling.PlansSettle` | internal/downloads/scheduler.go:110-113 | for every setting, however long plans are made and take effect, they change at most 2 * MaxActive times, or 6 if that is not positive |
| `Store.GuardedExact` | internal/downloads/store_groups.go:58-87 | the rows a batch changes are exactly those it reports, each as the status change leaves it, and the same batch again changes and reports nothing |
| `Store.EachChange` | internal/downloads/store_groups.go:10-56 | each of the batches changes a row it names from the one status it is for to the other, stamping the waiting time and counting the stall where it should |
| `Store.Changed` | internal/downloads/store_groups.go:76-83 | the ids reported are exactly the batch's ids whose row was in the guarded status, each once |
| `Store.Database.TxGuardedStatus` | internal/downloads/store_groups.go:58-87 | one transaction: every matching row changes, or none; a success reports exactly those changed, and only a commit that takes effect without saying so changes rows and reports an error |
| `ApplySchedule.IdsToFlip` | internal/downloads/worker_sched.go:33-41 | a group promotes its queued planned members and preempts its downloading unplanned ones, no others |
| `ApplySchedule.ApplyGroupSchedule` | internal/downloads/worker_sched.go:32-50 | the loop and the two batches, each of which takes effect or not, are the group's two steps of the run |
| `ApplySchedule.ApplyTo` | internal/downloads/worker_sched.go:15-25 | an undisturbed tick is the run of all groups' batches in order |
| `ApplySchedule.RunAccounted` | internal/downloads/worker_sched.go:15-70 | at every point of every interleaving, a downloading row is planned, started past the queue, rolled back, or still in a pending preemption batch |
| `ApplySchedule.LimitsHoldUnderInterference` | internal/downloads/worker_sched.go:15-70 | when the last batch has run, whatever interleaved, the downloading rows (but those started past the queue or rolled back) lie in at most MaxActive groups, or 3 if that is not positive, and PerUserMax per user |
| `ApplySchedule.GroupEnforced` | internal/downloads/worker_sched.go:27-50 | a group's two batches leave each of its rows exactly as the plan wants it: promoted, or back in the queue with a new waiting time, or untouched |
| `ApplySchedule.SettledLists` | internal/downloads/worker_sched.go:9-50 | after an undisturbed tick whose batches commit, the schedulable rows are those before it, each exactly as its batch left it |
| `ApplySchedule.QuietTickSettles` | internal/downloads/worker_sched.go:9-25 | after an undisturbed tick whose batches commit, the table is the plan applied, and under good settings the next plan is the same |
| `Disk.Device.Rename` | internal/downloads/move.go:526-576 | a rename replaces its target at once; a crash leaves it done or not done |
| `Disk.Device.Append` | internal/downloads/move.go:553-557 | a failed or interrupted write leaves an unsynced file of any content |
| `FileMove.CopyToScratch` | internal/downloads/move.go:542-568 | the copy touches nothing but the scratch file, and success leaves it complete and synced |
| `FileMove.MoveFileProgress` | internal/downloads/move.go:526-577 | wherever it stops, either nothing has happened to source and destination or the destination holds all the data; success leaves it there and the source gone; without failed renames and removals nothing is left elsewhere but the unfinished scratch file of a copy |
| `FileMove.Relocate` | internal/downloads/move.go:251-296 | one attempt keeps a complete copy at all times, never leaves part of the data at the destination, and success leaves it complete, without faults also emptying the cache; if the destination were the source itself it would be deleted |
| `FileMove.MoveDownloadedFile` | internal/downloads/move.go:251-296 | the single-file move gives the same guarantee, for the last name of the torrent's path directly below the destination |
| `FileMove.Flattened` | internal/downloads/move.go:251-253 | wherever the torrent has the file, its destination is its last name directly below the directory |
| `FileMove.AttemptCompletionMove` | internal/downloads/move.go:135-207 | a file found at any destination looked at ends the attempt at once, with nothing moved and its size not compared; otherwise up to three attempts keep the file safe. A success leaves the data where it says exactly when nothing was found there before, or what was found was the data |
| `FileMove.BulkPathOf` | internal/downloads/move.go:243-245 | it is looked for below each directory by its path within the torrent's folder |
| `FileMove.Recover` | internal/downloads/move.go:38-45 | any number of processes killed or failing anywhere keep the file safe, and the first success leaves it complete exactly when, at the start, no file was found where one is looked for, or the first one found was the data; none of those places is an in-between name of the move |
| `Finalizing.PlacesApart` | internal/downloads/move.go:218-247 | which they are not in directories unrelated to the cache, for a file not called like an unfinished one |
| `Finalizing.StaleTaken` | internal/downloads/move.go:178-207 | so a complete file in the cache with a shorter one at its destination is a start from which success leaves it unmoved |
| `Paths.StaysExactly` | internal/downloads/move.go:421-436 | segments never climb above their start exactly when from every directory they lead inside it |
| `Paths.StrippedCanEscape` | internal/downloads/move.go:428-434 | stripping the torrent folder can turn a local path into one that escapes, so the second validation is needed |
| `Paths.DestContained` | internal/downloads/move.go:421-436 | whatever the torrent calls its files, a destination lies inside the destination directory |
| `Paths.DestOf` | internal/downloads/move.go:421-436 | and a path of names within the torrent's folder leads to the same names below the destination |
| `Paths.DestInFolder` | internal/downloads/move.go:421-436 | any other leads where the rest of it leads from the destination, if both it and the rest are local |
| `Paths.LocalExactly` | internal/downloads/move.go:421-436 | local means neither empty nor absolute, and leading inside every directory |
| `Paths.PadExactly` | internal/downloads/move.go:438-445 | padding is exactly what lies below `.pad/`, within the torrent's folder or without one |
| `TreeMove.MoveTreeEntry` | internal/downloads/move.go:377-419 | an entry is skipped as padding, refused, or moved, and no other entry is lost or displaced: under any failures if no two files share a name on the way, and under interruptions if the list is orderly |
| `TreeMove.MoveCompletedTree` | internal/downloads/move.go:357-371 | success places every non-padding file at its destination and signals each once; failure loses none, under either of those conditions; undisturbed, it is the function the order is judged by |
| `TreeMove.RetryTree` | internal/downloads/move.go:351-371 | any number of attempts, interrupted at any file or step, lose nothing, and the one that succeeds completes the move |
| `TreeMove.AttemptTreeMove` | internal/downloads/move.go:135-207 | a destination found with anything in it ends the attempt at once; otherwise up to three attempts move the torrent. A success leaves every file where it says exactly when no directory was occupied before, or the one found held them all |
| `TreeMove.SomethingFound` | internal/downloads/worker_paths.go:78-82 | a directory counts as occupied exactly when some file or directory lies below it |
| `TreeMove.RecoverTree` | internal/downloads/move.go:38-45 | over any number of processes no file is lost, and the success leaves the torrent complete exactly when the process that reports it began with no directory occupied, or with the one found holding every file |
| `Finalizing.DoneTooEarly` | internal/downloads/move.go:178-207 | so when a first attempt stopped with one file moved and another to go, the next process reports success with the torrent incomplete |
| `TreeOrder.OrderlyExactly` | internal/downloads/move.go:351-419 | attempts stopped between any two entries never lose a file, whatever the files contain, exactly when no file arrives where a later one is copied through or arrives, and none has, unfinished, the name of a later one in the cache; that stops inside an entry lose none either is `TreeMove.RetryTree` |
| `TreeOrder.OrderlyCompletes` | internal/downloads/move.go:366-369 | and then an attempt left alone completes the move whatever attempts came before |
| `TreeNames.PartListed` | internal/downloads/move.go:251-296 | a torrent listing `x` and later `x.part` is not orderly |
| `TreeNames.PartialListed` | internal/downloads/move.go:526-557 | nor, between devices, one listing `x.partial` and later `x` |
| `TreeNames.ProperWhen` | internal/downloads/move.go:357-371 | unrelated directories and a place of its own in the cache for each file are enough for a list to be judged by its order |
| `TreeNames.MovesInside` | internal/downloads/move.go:421-436 | every file moved ends inside the destination directory |
| `TreeNames.SeparateWhen` | internal/downloads/move.go:377-419 | unrelated directories, different places and ordinary names suffice for the files to keep out of each other's way |
| `InitProtocol.TrackedWithinListing` | internal/downloads/worker_tick.go:61-79 | over every run from the start, whatever is tracked, pending or about to be started was listed by the last tick that untracked |
| `InitProtocol.FreshTickEndsIt` | internal/downloads/worker_tick.go:48-79 | once a tick that did not list a deleted row has untracked, no run ever tracks that row again |
| `InitProtocol.LatePromotionExactly` | internal/downloads/worker_init.go:132-159 | an init in flight when its row is removed is promoted in some continuation of the removal exactly when a second init of the row was in flight and a tick could still start one; alone, it never is |
| `InitProtocol.ResurrectionExactly` | internal/downloads/worker_remove.go:8-20 | after the removal of a deleted row it is tracked again in some continuation exactly when an init of it was still in flight and a tick could still start another |
| `InitProtocol.Resurrects` | internal/downloads/worker_remove.go:8-20 | and a run from the start comes to that: a deleted row is tracked |
| `InitProtocol.LatePromotes` | internal/downloads/worker_init.go:132-159 | as does one to an init in flight at the removal being promoted: paused and resumed, the row had two |
| `InitProtocol.RunSound` | internal/downloads/worker.go:443-482 | every run keeps deleted rows inactive, init numbers fresh and the tick's work apart from its list |
| `InitWorker.Worker.SetPending` | internal/downloads/worker.go:488-495 | pending ids and pending hashes stay in step |
| `InitWorker.Worker.StartInit` | internal/downloads/worker.go:475-482 | an init that starts is pending: the protocol's step |
| `InitWorker.Worker.ClearPending` | internal/downloads/worker.go:499-502 | and so when cleared |
| `InitWorker.Worker.PromoteOrAbort` | internal/downloads/worker_init.go:146-159 | promotes exactly when still pending and without a tombstone: the protocol's step |
| `InitWorker.Worker.ExitInit` | internal/downloads/worker_init.go:25-35 | the deferred cleanup clears pending entry and tombstone: the protocol's step |
| `InitWorker.Worker.Reconcile` | internal/downloads/worker.go:443-463 | reconciling a whole-torrent row starts an init only for a row neither tracked nor pending, or tracked with a dead torrent and not pending |
| `InitWorker.Worker.ReconcileGroup` | internal/downloads/aggregate.go:168-238 | reconciling a single-file row starts one for a dead torrent even while the row is pending |
| `InitProtocol.BecomesSteady` | internal/downloads/worker.go:475-482 | an init that the tick starts is the only one of its row, if none was in flight |
| `InitProtocol.PendingKeepsOneInit` | internal/downloads/worker.go:455-457 | through any run that leaves its pending entry alone and finds no single-file row of it dead, a pending row keeps the one init it has |
| `InitWorker.Worker.PreemptTeardown` | internal/downloads/worker_sched.go:96-110 | a preempted row's tracked and pending entries go: the protocol's `Forget` step |
| `InitWorker.Worker.RemoveState` | internal/downloads/worker_remove.go:48-84 | the removal is the protocol's step; the torrent is kept exactly when a sibling is tracked or pending with its hash |
| `InitWorker.Worker.UntrackPass` | internal/downloads/worker_tick.go:55-79 | the untrack loops are the protocol's step; a torrent is dropped exactly when a download that goes tracked it and no listed row shares it |
| `Completion.GroupAllComplete` | internal/downloads/aggregate_move.go:66-78 | true exactly when every member is tracked with all its bytes on disk |
| `Completion.WantedRowsByHash` | internal/downloads/store_list.go:105-116 | lists exactly the user's queued and downloading rows of the torrent |
| `Completion.EligibleMeans` | internal/downloads/aggregate_move.go:35-61 | eligible means, in the rows' own terms, that each member is tracked with all its bytes and every queued or downloading row of the user and hash for one file is a member |
| `Completion.GroupCompletionEligible` | internal/downloads/aggregate_move.go:35-61 | true exactly when all members are complete and no per-file row outside the group wants the torrent; false when the listing fails |
| `Completion.PlanExact` | internal/downloads/aggregate_move.go:101-122 | the rows flipped to moving are, in order, exactly those of the submitted plan |
| `Completion.PlanOnDisk` | internal/downloads/aggregate_move.go:114-122 | each mover is a complete member with its own path and length |
| `Completion.CompleteGroup` | internal/downloads/aggregate_move.go:96-136 | a plan is submitted exactly when rows were flipped and the flip was reported; those rows are untracked. Only a commit that takes effect without saying so leaves rows flipped and no move submitted |
| `Completion.CheckGroupCompletion` | internal/downloads/aggregate_move.go:18-23 | a move is submitted only if the check passed, and what it checked still held when the rows were flipped, unless a request in between made a per-file row outside the group want the torrent |
| `Completion.EligibleUnlessIntruded` | internal/downloads/aggregate_move.go:25-61 | over any requests between check and flip, eligibility is lost only to such a request |
| `Completion.IntrudersQueueOrStart` | internal/downloads/aggregate_move.go:25-61 | which queues a row, anew or again, or starts one past the queue |
| `SourceTable.PickNextBest` | internal/downloads/sources.go:89-113 | the source picked is ready and no ready source is preferred to it; there is none exactly when nothing is ready |
| `SourceTable.PickedExactly` | internal/downloads/sources.go:89-113 | the source picked has the most seeders of those not tried in the last half hour; of several, it is the one tried longest ago or never; of several, the oldest |
| `SourceTable.EnsuredIs` | internal/downloads/sources.go:47-60 | a torrent already known only has its seeders refreshed; another becomes a new source with no tries |
| `Rotation.SourceStore.MarkSourceTried` | internal/downloads/sources.go:130-141 | one more try, and failure at the last, unless the tries so far could not be read; or nothing, if the update fails |
| `Rotation.SourceStore.MarkActiveSources` | internal/downloads/rotation.go:56-61 | the loop over the listed sources parks every active one it can; none if they cannot be listed |
| `Rotation.SourceStore.ParkCurrentSource` | internal/downloads/rotation.go:48-61 | registers the original source if none is known, or if that query fails, then parks the active ones |
| `Rotation.SourceStore.NextSource` | internal/downloads/sources.go:94-113 | the scan returns the preferred ready source |
| `Rotation.SourceStore.ActivateSource` | internal/downloads/sources.go:118-128 | three statements, of which a failure leaves the earlier ones done; the magnet changes only if the last takes effect |
| `Rotation.SourceStore.TryRotate` | internal/downloads/rotation.go:28-44 | the whole attempt, with any statement failing, leaves the table the attempt function says |
| `RotationRules.RotatedValid` | internal/downloads/rotation.go:28-61 | whichever statements fail, ids and torrents stay unique; at most one source of a download stays active, and sources fail exactly at their last try, if and only if no source is parked at its last try with its tries unread, and the original source is not registered beside an active one that then stays so with it |
| `RotationRules.OneActiveExactly` | internal/downloads/rotation.go:46-61 | two sources of a download are left active exactly by a failed query for sources, a registration beside an active one, a loop that parks neither, and no switch that gets as far as deactivating them |
| `RotationRules.TriedOnceMore` | internal/downloads/sources.go:130-141 | a source at its third try whose tries cannot be read cools down, and half an hour later is activated a fourth time |
| `RotationRules.TwoLeftActive` | internal/downloads/rotation.go:48-61 | a failed query for sources and then a failed listing leave two sources active |
| `RotationRules.ParkedNotPicked` | internal/downloads/rotation.go:46-61 | a source parked has one more try and cools down or has failed, and is not the one picked next |
| `RotationRules.SearchesLast` | internal/downloads/rotation.go:33-43 | nothing is searched for while a source is ready, and that one is picked |
| `RotationRules.SwitchesTo` | internal/downloads/sources.go:116-128 | a successful attempt leaves the chosen source active, and no other, even if two were |
| `RotationRules.SwitchesAway` | internal/downloads/rotation.go:20-44 | and it is not one that was active before, unless parking that one failed |
| `RotationRules.FailedStays` | internal/downloads/sources.go:130-141 | a failed source stays failed, whichever statements fail |
| `RotationBounds.RotatedLeft` | internal/downloads/rotation.go:28-44 | each switch takes exactly one from the activations left to a download's sources; only a new source, one not parked, or one parked with its last tries unread adds any |
| `RotationBounds.SwitchesBounded` | internal/downloads/rotation.go:11-44 | over any run of attempts, whichever statements fail, a download is switched at most three times per source it ever knew, plus once per source not parked or parked with its last tries unread |
| `RotationBounds.ActivationsBounded` | internal/downloads/rotation.go:11-44 | and to no one source more than three times, plus once for each such failure it met |
| `ContentId.InteriorExact` | internal/contentid/contentid.go:114-131 | the range found is exactly the pieces inside the file, reads start and end within the file, and less than a piece stays uncovered at each end |
| `ContentId.VerifyInteriorPieces` | internal/contentid/contentid.go:133-162 | counts the interior pieces and those that match, or stops at the first that has no hash or cannot be read |
| `ContentId.CheckableExactly` | internal/contentid/contentid.go:144-156 | a piece can be checked exactly when it has a hash of twenty bytes and can be read in full |
| `ContentId.FileMatchesPieces` | internal/contentid/contentid.go:169-180 | true exactly when the file opens, has interior pieces, and all of them match |
| `ContentId.CertainMatchExact` | internal/contentid/contentid.go:133-167 | short of a hash collision, a match means, and follows from, equality with the torrent on all interior bytes |
| `ContentId.Fingerprint` | internal/contentid/contentid.go:71-102 | hashes size and samples, fails exactly on a negative size or a failing read, and depends on the content alone |
| `ContentId.PreimageIs` | internal/contentid/contentid.go:71-102 | what is hashed is the size, a colon, and all of a file of up to 128 KiB or the first and last 64 KiB of a larger one |
| `ContentId.FingerprintAt` | internal/contentid/contentid.go:50-54 | so the fingerprint of an open file is decided by its content, wherever its reads stop short at the end |
| `ContentId.FingerprintExact` | internal/contentid/contentid.go:8-14 | short of a collision, equal fingerprints mean equal size and equal samples, and conversely |
| `Sessions.RunSound` | internal/auth/auth_sessions.go:94-173 | every interleaving of calls, issues, cleanups and revocations keeps the token table and every call consistent |
| `Sessions.OneRotation` | internal/auth/auth_sessions.go:76-92 | per token `consumed_at` is written at most once and at most one call returns Rotated |
| `Sessions.ReuseOnlyLate` | internal/auth/auth_sessions.go:84-86 | Reuse is returned only by a call that read the token consumed, more than the grace before its decision; never by one that read it active |
| `Sessions.ExpiredIsRefused` | internal/auth/auth_sessions.go:109-111 | over every run, a call returns anything but Invalid only if it read the token no later than it expired |
| `Sessions.ExpiredAtOnce` | internal/auth/auth_sessions.go:109-111 | an undisturbed call with an expired token is refused and changes nothing |
| `Sessions.FreshRotates` | internal/auth/auth_sessions.go:112-135 | an undisturbed call with an active, unexpired one is rotated and consumes it |
| `Sessions.GraceHasACause` | internal/auth/auth_sessions.go:78-83 | a reissue is within the grace, or the token was lost to another call or to a deletion |
| `Sessions.DeletedUnderfoot` | internal/auth/auth_sessions.go:120-134 | for each of the statements that delete tokens, a run from the start in which a call is told to reissue a token that nobody consumed |
| `Sessions.CleanupTakes` | internal/auth/auth_sessions.go:161-171 | the cleanup takes exactly the tokens that have expired or were consumed more than an hour ago |
| `Sessions.RevocationTakes` | internal/auth/auth_sessions.go:137-245 | the other deletions take exactly the token or the sessions they name |
| `Sessions.ReadInGraceIsReuse` | internal/auth/auth_sessions.go:114-118 | a token read exactly at the end of the grace can still be judged reuse |
| `Sessions.TokenStore.MarkConsumed` | internal/auth/auth_sessions.go:122-126 | the conditional update changes one active row or none |
| `Sessions.TokenStore.RotateRefreshToken` | internal/auth/auth_sessions.go:94-135 | every path through the rotation, with anything happening between its statements, is a run of the system and returns what the run says |
| `Totp.FirstMatch` | internal/auth/totp.go:85-90 | the step matched is in the window and gives the code, and none is found only if none does |
| `Totp.ValidateTOTPStep` | internal/auth/totp.go:73-92 | the loop finds the first matching step, refusing malformed codes and clocks before the epoch |
| `Totp.ReplayCache.Allow` | internal/auth/auth_totp.go:28-39 | spends a step exactly when it is newer than any the user has spent |
| `Totp.ValidateTOTPForUser` | internal/auth/auth_totp.go:45-54 | accepts exactly when the code matches a fresh step; without a cache the code alone decides |
| `Totp.StepsIncrease` | internal/auth/auth_totp.go:10-14 | over any run the steps a user spends strictly increase (section 5.2 of RFC 6238) |
| `Totp.LoginsBounded` | internal/auth/totp.go:70-72 | while the clock's step stays in [a, b] at most b - a + 3 logins by code succeed |
| `Totp.BoundReached` | internal/auth/totp.go:70-92 | and that many can |
| `Totp.WrapLocksOut` | internal/auth/totp.go:82-86 | a user who spends the wrapped step before zero never logs in by code again |
| `Totp.WrapOnlyAtZero` | internal/auth/totp.go:82-86 | which only a clock within 30 seconds of the epoch allows |
| `RateLimit.NewProviderLimiter` | internal/ai/ratelimit.go:25-39 | exactly the providers with a positive cap get a gap, a minute's nanoseconds by the cap, rounded down; there is no limiter exactly when there is none |
| `RateLimit.ProviderLimiter.Reserve` | internal/ai/ratelimit.go:41-58 | each call gets the next start of its provider's own arrivals; other providers are untouched |
| `RateLimit.ClosedForm` | internal/ai/ratelimit.go:51-57 | the k-th start is the maximum over j <= k of arrival j plus (k - j) gaps |
| `RateLimit.Spaced` | internal/ai/ratelimit.go:41-44 | starts are at least the gap apart |
| `RateLimit.Earliest` | internal/ai/ratelimit.go:41-44 | no schedule that respects arrivals and gaps starts a call earlier |
| `RateLimit.WindowBound` | internal/ai/ratelimit.go:10-18 | a window of length t holds at most t / gap starts, rounded up |
| `RateLimit.CapKeptExactly` | internal/ai/ratelimit.go:25-35 | every minute holds at most r starts, for all arrivals, exactly when r divides the nanoseconds of a minute |
| `RateLimit.BuiltKeepsCapExactly` | internal/ai/ratelimit.go:25-58 | so it is of a limiter built from the caps |
| `RateLimit.StartCalls` | internal/ai/ratelimit.go:25-58 | building one and reserving: a cap that divides a minute is kept in every minute, and one that does not is broken by calls arriving at once; a provider without a cap starts its calls on arrival |
| `Rebind.Rebind` | internal/dbutil/rebind.go:20-43 | the loop, with its early return, rewrites the query as scanned |
| `Rebind.ScanExact` | internal/dbutil/rebind.go:16-19 | the scan's counter is the number of question marks outside literals, and its flag the parity of the quotes |
| `Rebind.EachInPlace` | internal/dbutil/rebind.go:10-19 | the k-th placeholder from the left becomes `$k` in its place, every other character stays |
| `Rebind.Idempotent` | internal/dbutil/rebind.go:20-43 | a rewritten query has no placeholder left and is not changed again |
| `Rebind.RoundTrip` | internal/dbutil/rebind.go:20-43 | a counter-driven reader recovers the query exactly when no dollar outside a literal is followed by the number next in turn; in particular without such dollars, even if a digit follows a placeholder |
| `Rebind.Injective` | internal/dbutil/rebind.go:20-43 | different unambiguous queries stay different |
| `Rebind.AmbiguousExample` | internal/dbutil/rebind.go:20-43 | a query that already spells `$2` can collide with one that has a placeholder |

## Left out

- AgingBonus: elapsed minutes are exact integers; the source truncates a floating-point number of minutes, and saturates a time difference beyond 292 years.
- Scheduler.SchedulePlan: integers are unbounded; overflow of 64-bit scores and counters is not modelled.
- ApplySchedule.LimitsHoldUnderInterference: rows started past the queue by the remote-control handler (`internal/transmissionrpc/torrent_set.go:68-69`), and rows whose batch was rolled back, are excepted, since the code does not queue or retry them within the tick.
- InitProtocol.LatePromotionExactly: a single-file row is a group of its own; the shared init of a group of several rows, which adds members with fewer checks, is not modelled.
- ApplySchedule.ApplyGroupSchedule: changes the table only; what is dropped in memory for each preempted row is `InitWorker.Worker.PreemptTeardown`, and a protected torrent's release is not modelled.
- InitWorker.Worker.RemoveState: retry counters, cancel functions and the streamer's eviction protection are not part of the worker's state here.
- FileMove.Relocate: assumes that a file of the same size at the destination is the same file, that the cache does not hold both a finished and an unfinished file of the name, that checking for a file never fails, and that a completed rename survives a crash.
- FileMove.MoveDownloadedFile: the file in the cache is taken to be synced already; a rename within one device is not followed by a sync, so of an unsynced one the code promises nothing after a crash.
- FileMove.AttemptCompletionMove: a row without a configured destination, which is left in the cache, and the updates of the row's path and status around the move are not modelled; the directories looked at are a parameter.
- FileMove.Recover: places looked at that are in-between names of the move itself (its scratch file, or an unfinished name) are excluded.
- TreeMove.RecoverTree: with orderly lists it starts from files under their final names in the cache and nothing under the torrent's names at the destination, or from where interrupted attempts have left that; starts with unfinished names, or with files already at the destination, are covered when no two files share a name.
- TreeOrder.OrderlyExactly: each attempt is one call of the function that moves the tree; the shortcut keeps a later process from making one, so within the program they follow each other in one process.
- TreeSteps.Separate: when renames or removals can fail as well, this condition is only shown to suffice; the exact one, under which of such failures a list of files survives, is not stated.
- TreeMove.MoveCompletedTree: destinations are files; a directory in the way of one is not modelled.
- Completion.CheckGroupCompletion: a row queued between the check and the flip is not waited for; `Completion.EligibleUnlessIntruded` says that nothing else can come between. A group of one row takes the single-row path, which is not modelled.
- Completion.CompleteGroup: rows left in `moving` by a commit that did not say it took effect wait for the sweep or the next start, which are not modelled.
- Rotation.SourceStore.TryRotate: the worker's own maps, which a switch clears, appear in `InitProtocol` as its `Forget` step, not here. Offers of a search that could not be stored are left out of what it found.
- Sessions.ReuseOnlyLate: the grace is measured when the call decides, as the code does, not when it read the token; `Sessions.ReadInGraceIsReuse` shows the difference.
- ContentId.CertainMatchExact: a collision is excluded for the pieces compared, not for all inputs; version 2 torrents are not modelled.
- ContentId.InteriorExact: 64-bit overflow of offsets is not modelled.
- Totp.LoginsBounded: backup codes are not modelled; codes are taken as already trimmed.
- RateLimit.ProviderLimiter.Reserve: the wait after a reservation is not modelled; a timer may fire late, and a cancelled call keeps its reservation.
- Rebind.Rebind: a query is a sequence of characters standing for its bytes.
- The queue positions shown in lists, which sort by priority, waiting time and id, would add an easy member.
- SQL, PostgreSQL and migrations: tables are maps or sequences and each statement or transaction is one step; a stamp such as `started_at` that scheduling does not read is left out.
- The torrent client, the streamer, searches, notifications, AI rename and reseeding are arbitrary results or not modelled.
- The sweep for rows stuck in `moving`: only some dispatches are recorded, so it makes no claim about live moves.
- Starvation across priority tiers: aging is smaller than the gap between tiers, so the code does not promise it.
- The web interface, handlers, configuration and logging.
