# momos-music-manager, verified

A Dafny model of the parts of momos-music-manager in which state, order or arithmetic is
delicate, and proofs of what those parts promise. `dafny verify dfyconfig.toml` checks all of it.

| part | modules | what it models |
|---|---|---|
| download queue | `WorkQueue`, `Ledger`, `LedgerInvariant`, `Calls`, `CallEffects`, `Scheduler`, `SchedulerInvariant`, `SchedulerTheorems`, `SettledTheorems`, `ReaperTheorems`, `TrackHistory`, `RowHistory`, `OrderHistory`, `WorkerHistory`, `SchedulerWitness`, `Database` | the two coupled tables of music-api, `tracks` and `work_items`, with orders and links; HTTP calls, background tasks and the worker loop as one transition system |
| tag clusters | `EditDistance`, `Similarity`, `Clusters`, `ClusterOrder` | two-row Levenshtein, the similarity rules, union-find with path compression, and when the order of the names decides |
| data vault | `CivilCalendar`, `LoadDate`, `Satellites`, `Vault`, `Backfill`, `VaultContents`, `Resolver` | day-to-date arithmetic, sortable time stamps, hash-gated insert-only satellites, the paginated backfill, the precedence resolver |
| object store | `ObjectStore`, `StoreRace`, `StoreRaceLimits`, `StoreRaceSurvival` | content-addressed files and rows; uploads, deletes and reconciling scans running side by side |
| backpacks | `Ranking`, `Backpacks` | union, scoring and total order of a backpack's tracks |
| audio | `Frames` | frame cutting, patch windows, batches |
| text | `Splitting`, `Artists`, `ArtistLines`, `ServiceText` | artist lines, systemd command lines, XML escapes |
| devices | `Devices`, `DeviceRuns`, `DeviceHistory` | pairing, token rotation, revocation |

`Wrappers`, `Ascii` and `Hashing` are shared helpers; SHA-256 is an injective function there.

Code that updates tables, arrays or buffers in place is modelled by classes and methods
(`Database.Database`, `Vault.Store`, `ObjectStore.Store`, `Devices.Store`, and the loops of the
pure modules). Each of those methods is tied to a function or relation on values, and what the
program promises is proved of that function over all inputs or all runs. In the queue, every
`db::` and `work::` call is one atomic step; the worker's reads (free slots, a batch, the track of
an offered download, lapsed leases, downloads to poll) and the calls it makes on the strength of
them are separate steps, and any other step may come between. In the device registry the lookup
and the store of a registration are separate steps too.

What each operation does is also told from outside, without the functions the methods are proved
against and with the program's numbers and texts written out: every event's effect on every track,
queue row and order (`TrackHistory`, `RowHistory`, `OrderHistory`, `WorkerHistory`), every statement's
effect on every device (`DeviceHistory`), what stands in a vault filled from given tables
(`VaultContents`), and what becomes of an artist line (`ArtistLines`); for the other parts these
statements stand in the part's own module.

Where a promise does not hold of the code, the model keeps the code and says exactly when it holds:

- A pending or downloading track keeps a live queue item, except when the dispatcher, having seen the
  track missing or settled, finishes the item after the track has become pending
  (`SchedulerTheorems.LostExactlyByOutdatedFinish`, `SchedulerTheorems.NoWorkIsLostExactly`;
  `SchedulerWitness.LostWorkIsReachable` is such a run). The next reconcile of that track brings it back.
- A pending track's item is stuck at `running` exactly when the track was reset while the item ran, or
  the dispatcher marked it running on an outdated read (`SchedulerTheorems.StrandedExactly`; both are
  reached: `SchedulerWitness.StrandedIsReachable`, `SchedulerWitness.StrandedBySyncIsReachable`). One step
  frees it exactly if it recovers the row as stale, or starts, settles, retries, ingests or finishes
  that track (`SchedulerTheorems.StrandedEndsExactly`). Once no task and no list of the worker holds
  the track any more, it stays stuck over every run exactly until a file for it comes from outside or
  a recovery finds its row untouched for half an hour
  (`SchedulerTheorems.ForgottenStaysStrandedExactly`). A worker with a free slot that reconciles the
  track on every tick touches the row each time, so its ticks never free it
  (`SchedulerTheorems.TicksNeverRescue`); the ticks of a worker without a free slot leave the row alone, and
  free it exactly when they bring it to half an hour (`SchedulerTheorems.FullWorkerRescuesExactly`).
  music-api's README documents retry for a failed or stranded ISRC; the code accepts every row that is
  not ready, downloads in flight among them.
- A download can run with no attempts left, in one way only: the track spent its last try between the
  worker's look at it and the start (`SchedulerTheorems.BudgetLeftOnlyByLateStart`).
- The reaper clears every lease that had lapsed when it read, whatever comes between and whatever the
  download timeout, which may be set to zero (`ReaperTheorems.ReaperClearsAmongOthers`).
  That rests on the process having given the leases its own tasks renew: from any world that keeps the
  invariant, reached or not, it takes a timeout of at least a second (`ReaperTheorems.AlwaysClearsExactly`).
- Similarity of tag names is one-sided exactly between a four-byte and a three-byte name
  (`Similarity.OneSidedExactlyAtFourAndThree`). A list of names is grouped alike in every order exactly
  when each of its one-sided pairs is joined by links that hold both ways
  (`ClusterOrder.OrderIndependentExactly`).
- Vault stamps sort by time exactly up to the end of the year 9999 (`LoadDate.StampsFollowTimeExactly`).
- Two loaders of one satellite hash different numbers of columns and never agree, so loads by turns
  append every time (`Backfill.LoadersByTurnsAlwaysAppend`). A second backfill adds nothing exactly when
  no two rows load different values under one key (`Backfill.SecondRunChangesNothing`).
- Where a key's clock never goes back, its satellite rows are its loads with repetitions left out
  exactly as long as no load changes a value at a stamp already taken
  (`Satellites.RunStoresEachChangeExactly`, `Satellites.StandingClockDropsARow`); exactly those loads are
  answered "written" and write nothing (`Satellites.AnswersWronglyExactly`).
- A grace period protects young files always, and young rows exactly below 2^63 seconds
  (`ObjectStore.GraceProtectsRowsExactly`).
- An upload of a new key survives every concurrent scan exactly when the grace period exceeds both a
  scan plus a publication and, because rows keep whole seconds, a publication plus a second
  (`StoreRaceLimits.GraceSufficesExactly`). An upload over an old half-object can be lost under any
  grace period (`StoreRaceLimits.PresentCanBeUndone`, `StoreRaceLimits.OldRowCanBeUndone`); under a
  sufficient one it survives exactly when no scan under way can still take the object for an orphan and
  the row it found stays young until the file is there (`StoreRaceSurvival.SurvivesExactly`).
- A registration looks for a live row in one statement and stores in another. A name keeps at most one
  live pending row exactly as long as no store doubles one (`DeviceRuns.OneLivePendingRowExactly`); two
  registrations that both look before either stores make two exactly if their pairing hashes differ
  and are both free (`DeviceRuns.OverlappingCallsMakeTwoExactly`). A bound device keeps its token exactly
  as long as no registration that had found its row pending stores late
  (`DeviceRuns.BoundForeverExactly`), and each row holds the device hash staged last for it exactly as
  long as no store reaches a bound row (`DeviceRuns.HashIsLastStagedExactly`). A revoked row keeps its
  time and is never let in again, whatever overlaps (`DeviceRuns.RevokedForever`); its old token can
  come back through another row, but only after such a store over the revoked one
  (`DeviceRuns.RevokedTokenCanReturn`, `DeviceRuns.RevokedTokenStaysOut`). Where each lookup's answer is
  still right at its store, none of this happens (`DeviceRuns.OneLivePendingRow`,
  `DeviceRuns.PunctualOverwritesNothing`, `DeviceRuns.PunctualIsNeverLate`).

## Model

| member | source | states |
|---|---|---|
| SchedulerTheorems.NoLostWork | music-api/src/worker.rs:163-348 | in every reachable world a pending or downloading track has a download item with attempts still 0, queued or running unless an outdated finish settled it |
| SchedulerTheorems.LostExactlyByOutdatedFinish | music-api/src/worker.rs:200-216 | a step takes a pending track's item out of the queue exactly when the dispatcher finishes it on a read that is out of date |
| SchedulerTheorems.NoWorkIsLostExactly | music-api/src/worker.rs:163-226 | over every run no work is lost at any point exactly when no finish comes too late |
| SchedulerTheorems.ReconcilingRestores | music-api/src/worker.rs:163-185 | what was lost is queued and due after the next reconcile of the track |
| SchedulerTheorems.OrderStatusIsCurrent | music-api/src/db.rs:280-328 | in every reachable world the stored status of an order with links is the one derived from its tracks' present states, and every link has a track |
| SchedulerTheorems.CancelledForever | music-api/src/db.rs:641-653 | a cancelled order has no links and stays cancelled over every continuation of a run |
| OrderHistory.CancelledExactly | music-api/src/db.rs:641-653 | over every run from the empty database an order is cancelled at the end exactly if some event cancelled it after its creation |
| OrderHistory.CancelStep | music-api/src/db.rs:641-653 | in one step too: an order is cancelled afterwards exactly if it was before, or this event cancels it and it exists |
| OrderHistory.CancelTouchesNothingElse | music-api/src/db.rs:641-653 | cancelling marks that order and takes its links; every other order, link, track and item stays as it is |
| OrderHistory.LinkStep | music-api/src/db.rs:222-275 | a link is there after a step exactly if it was and its order is not cancelled now, or its order is created with the track |
| OrderHistory.PriorityStep | music-api/src/db.rs:612-637 | an order's priority is that of its creation until a call changes it |
| OrderHistory.StatusExactly | music-api/src/db.rs:280-328 | in every reachable world an order that is not cancelled is open while it has no tracks or one is pending or downloading, complete if all are ready, and else partial |
| OrderHistory.FoundFileCompletes | music-api/src/worker.rs:497-635 | a found file makes its track ready, and completes exactly those of its orders whose other tracks are ready |
| TrackHistory.TrackStep | music-api/src/worker.rs:163-535 | what every event makes of every track, told by event: started, ready, absent, tried again after the backoff, failed at the cap, lease renewed, reset, new; nothing else changes one and nothing deletes one |
| TrackHistory.ReadyAtTheEndExactly | music-api/src/db.rs:827-963 | over every run a track is ready at the end exactly if a file was found or brought for it and stands, or it was ready and stayed so |
| TrackHistory.AttemptsCountFailures | music-api/src/db.rs:495-532 | over every run a track's counter is the number of its failed tries since it was last reset |
| RowHistory.RowStep | music-api/src/work.rs:100-370 | what every event makes of every queue row: enqueued, claimed, run, put back until a time, done, failed, recovered; nothing else changes one and nothing deletes one |
| WorkerHistory.LooksInTurn | music-api/src/worker.rs:189-226 | whatever comes between, the dispatcher looks at each offered download once, in the order of the batch |
| WorkerHistory.OfferedBatch | music-api/src/worker.rs:163-195 | offered are queued downloads whose time has come, at most 25 and at most as many as free slots |
| WorkerHistory.LooksUpExactly | music-api/src/worker.rs:196-240 | which sight of a track the dispatcher acts on: unknown, under way, to fetch, or to look up, the last for pending tracks of Deezer alone |
| WorkerHistory.PolledExactly | music-api/src/db.rs:864-871 | polled are exactly the downloads under way whose source is Deezer, each once |
| WorkerHistory.ReapedExactly | music-api/src/db.rs:547-564 | reaped are exactly the downloads under way without a lease or with one that is over, each once |
| WorkerHistory.FinalizeStep | music-api/src/worker.rs:430-535 | a finalize task lives from the poll that finds the download over to its own report or a crash, and knows whether deemix reported success |
| WorkerHistory.MissingFileFailsOnlyAfterSuccess | music-api/src/worker.rs:497-535 | a missing file counts as a failed try only if deemix had reported success |
| SchedulerTheorems.DownloadCapHolds | music-api/src/worker.rs:163-226 | downloading rows never exceed the cap, though the count is read long before downloads start and other steps come between |
| SchedulerTheorems.RunningCapHolds | music-api/src/worker.rs:682-695 | running rows of each claimed kind never exceed that kind's cap |
| SchedulerTheorems.LinksSetThePriorityFloor | music-api/src/db.rs:612-637 | for every live link the download item is at least as urgent as the order |
| SchedulerTheorems.PrioritiesOnlyRise | music-api/src/work.rs:100-129 | over every run no queue row disappears and no priority is lowered |
| SchedulerTheorems.RetriesAreBounded | music-api/src/db.rs:495-532 | between manual resets a track is re-queued at most one time fewer than the attempt cap, counters within 32 bits |
| SchedulerTheorems.ClaimedAttemptsAreBounded | music-api/src/work.rs:226-257 | a claimed row's attempts are at most five plus its stale recoveries since it was armed |
| SchedulerTheorems.StrandedExactly | music-api/src/db.rs:593-609 | a step leaves a pending track with a running item exactly when the track is reset while its item runs, or the item is synced to running on an outdated read |
| SchedulerTheorems.PendingIsQueuedStrandedOrLost | music-api/src/worker.rs:200-216 | a pending track's item is queued exactly if the track is neither stranded nor lost |
| SchedulerTheorems.StrandedEndsExactly | music-api/src/work.rs:358-370 | a step frees a stranded track exactly if it recovers its stale row, or starts, settles, retries, ingests or finishes that track |
| SchedulerTheorems.ForgottenStaysStrandedExactly | music-api/src/worker.rs:95-226 | over every run, a stranded track no task or list holds stays so exactly as long as no file for it is ingested and no recovery finds its row stale |
| SchedulerTheorems.TicksNeverRescue | music-api/src/work.rs:358-370 | any number of ticks less than half an hour apart, undisturbed and with a free slot, leave a stranded track stranded |
| SchedulerTheorems.FullWorkerRescuesExactly | music-api/src/worker.rs:163-170 | with every slot taken, any ticks make it queued and due exactly when they bring its row to half an hour, else leave it stranded |
| SchedulerTheorems.UntouchedRowsAreRecovered | music-api/src/work.rs:358-370 | a stranded track's row left alone for half an hour is queued and due after recovery |
| SchedulerTheorems.ResetInFlightOutlastsTicks | music-api/src/db.rs:593-609 | a reset in flight followed by any number of such ticks leaves the track stranded |
| SchedulerTheorems.BudgetLeftOnlyByLateStart | music-api/src/worker.rs:216-348 | a step takes a download out of its attempt budget exactly when it starts, on an earlier look, a track that has spent its last try |
| ReaperTheorems.ReaperClearsAmongOthers | music-api/src/db.rs:547-564 | from any process start and for every timeout: whatever comes between the reaper's read and its last retry, no download then has a lease that had lapsed at the read |
| ReaperTheorems.AlwaysClearsExactly | music-api/src/config.rs:124-124 | from every world that keeps the invariant, reached or not, that holds exactly for timeouts of at least a second |
| SchedulerWitness.SpentDownloadIsReachable | music-api/src/worker.rs:497-534 | a run from the empty database to a download with no attempt left |
| SchedulerWitness.LostWorkIsReachable | music-api/src/worker.rs:200-216 | a run from the empty database to a pending track whose item is done |
| SchedulerWitness.StrandedIsReachable | music-api/src/db.rs:593-609 | a run from the empty database in which a reset in flight strands a track |
| SchedulerWitness.StrandedBySyncIsReachable | music-api/src/worker.rs:206-211 | and one in which an outdated sync does, with two slots |
| SchedulerInvariant.StepKeepsInv | music-api/src/worker.rs:95-112 | every enabled event keeps the invariant behind the theorems above |
| LedgerInvariant.CallKeepsCoherent | music-api/src/db.rs:222-963 | every ledger and queue call keeps tracks, items, links and orders in agreement |
| LedgerInvariant.ReaperClearsLapsed | music-api/src/db.rs:547-564 | run without interruption, the reaper leaves no downloading row with a lapsed lease |
| CallEffects.CallKeepsRequeues | music-api/src/db.rs:495-532 | every call keeps the count of automatic re-queues within a track's attempts |
| Ledger.StatusOfListing | music-api/src/db.rs:301-316 | the derived status depends on which states occur, not on the order they are listed in |
| Ledger.BackoffGrowsToCap | music-api/src/db.rs:487-492 | delays never shrink with the attempt number, stay under the cap and are positive |
| Ledger.BackoffDoubles | music-api/src/db.rs:487-492 | the first delay is the base, capped; each further one is twice the one before, capped, up to 20 doublings |
| Ledger.SourceStandsBeforeColon | music-api/src/models.rs:190-195 | a track's source is what stands before the first colon of its key, or Deezer if that is nothing, "deezer" in any case, or there is no colon |
| WorkQueue.BatchIsTopOfRanking | music-api/src/work.rs:162-180 | no due item left out of a full batch is more urgent than one taken, or as urgent and older |
| WorkQueue.SettlingLeavesQueue | music-api/src/work.rs:200-223 | finishing or failing an item takes it, and it alone, out of the due and the running rows |
| SettledTheorems.SettledEndsExactly | music-api/src/work.rs:100-370 | a step brings a settled row back exactly by enqueuing it, then with no attempts counted, or by a retry with tries left, a start or a sync of its own |
| SettledTheorems.SettledStaysExactly | music-api/src/work.rs:100-370 | over every run a settled row stays settled exactly until such a step |
| WorkQueue.RunningTakesSlot | music-api/src/work.rs:265-282 | marking an item running takes it out of the due rows and makes it count against its own kind's slots only |
| Ledger.RenewalPostponesReaping | music-api/src/db.rs:536-543 | a renewed lease keeps its track, and no other, out of the lapsed ones until it runs out |
| Database.Database.Enqueue | music-api/src/work.rs:100-129 | inserts, re-arms a terminal row, or raises the priority; nothing else changes |
| Database.Database.EnqueueIfAbsent | music-api/src/work.rs:135-160 | inserts an absent item and leaves every present one as it is |
| Database.Database.Next | music-api/src/work.rs:162-180 | the due queued items of a kind by priority, then age, at most as many as slots |
| Database.Database.Claim | music-api/src/work.rs:185-197 | takes a row exactly when it is still queued |
| Database.Database.RetryLater | music-api/src/work.rs:226-257 | re-queues with the attempt counted, or fails the row at the cap |
| Database.Database.RetryRef | music-api/src/work.rs:318-352 | the same by reference |
| Database.Database.RecoverStale | music-api/src/work.rs:358-370 | re-queues exactly the running rows untouched for the stale period |
| Database.Database.FreeSlots | music-api/src/work.rs:374-387 | never negative; where there are any, they and the running rows make up the cap, and there are none exactly when the running rows reach it |
| Database.Database.CreateOrder | music-api/src/db.rs:222-276 | one order, its links, missing tracks and raised items |
| Database.Database.RefreshOrder | music-api/src/db.rs:280-297 | sets the status of any order that exists, cancelled ones too, to the one its tracks' states give; one with no linked tracks becomes open, and nothing else changes |
| Database.Database.RefreshOrdersForIsrc | music-api/src/db.rs:319-328 | rewrites the status of every order linked to a track |
| Database.Database.ScheduleRetry | music-api/src/db.rs:495-532 | pending with backoff and a re-queued item, or failed at the cap, orders refreshed |
| Database.Database.RecoverExpiredLeases | music-api/src/db.rs:547-564 | retries every row whose lease has lapsed, one after the other |
| Database.Database.ResetTrackToPending | music-api/src/db.rs:593-609 | resets any row that is not ready, with fresh attempts and an enqueued item |
| Database.Database.SetOrderPriority | music-api/src/db.rs:612-637 | sets the order's priority and raises its tracks' items |
| Database.Database.CancelOrder | music-api/src/db.rs:641-653 | an existing order is cancelled and answered yes, its links and no others go, every other order stays; an unknown one is answered no |
| Database.Database.MarkDownloading | music-api/src/db.rs:897-915 | starts a download under a lease and marks its item running |
| Database.Database.MarkReady | music-api/src/db.rs:918-942 | settles a track as ready and its item as done, orders refreshed |
| Database.Database.MarkTerminal | music-api/src/db.rs:944-963 | settles a track and its item, orders refreshed |
| Database.Database.IngestReadyTrack | music-api/src/db.rs:827-862 | a ready track from outside the queue, orders refreshed |
| EditDistance.Levenshtein | music-hub/src/clusters.rs:63-75 | the two rows compute the recursive distance, and it is at most n exactly when n single-character edits suffice |
| EditDistance.TableIsRecursion | music-hub/src/clusters.rs:64-74 | the cells of the table, filled row under row, are the values of the textbook recursion |
| EditDistance.DistanceIsLeastScript | music-hub/src/clusters.rs:63-75 | the distance is the length of a shortest edit script |
| EditDistance.DistanceAtMostOne | music-hub/src/clusters.rs:100-103 | a distance of at most one means equal, or one insertion, deletion or replacement apart |
| Similarity.AreSimilar | music-hub/src/clusters.rs:80-105 | the decision, with lengths in UTF-8 bytes: equal, a shared token, a prefix, or one edit |
| Similarity.SimilarExactly | music-hub/src/clusters.rs:80-105 | the same rules told from the characters: a common word of three bytes, one the beginning of the other with four, or one place apart with four bytes and at most one byte more or less |
| Similarity.OneSidedExactlyAtFourAndThree | music-hub/src/clusters.rs:100-103 | similarity fails to be symmetric exactly between a four-byte and a three-byte name one edit apart that share no token |
| Clusters.Find | music-hub/src/clusters.rs:111-123 | ends on every parent forest, returns the root, and path compression changes nobody's root |
| Clusters.RootsAreUnique | music-hub/src/clusters.rs:111-123 | a parent array determines its roots |
| Clusters.Cluster | music-hub/src/clusters.rs:108-139 | the connected components of size two or more, in the order of their roots: ascending, disjoint, and two names are together exactly when a chain of similar names joins them |
| Clusters.ConnectedExactly | music-hub/src/clusters.rs:112-139 | two names are connected exactly when every labelling that gives each similar pair one label gives these two one |
| Clusters.Groups | music-hub/src/clusters.rs:135-139 | files indices by root: two are together exactly when they share one, and groups of one are dropped |
| ClusterOrder.BridgedIgnoresOrder | music-hub/src/clusters.rs:108-139 | where every one-sided pair is joined by links that hold both ways, reordering the names does not change who is connected |
| ClusterOrder.OrderIndependentExactly | music-hub/src/clusters.rs:125-134 | a list of names is grouped alike in all its orders exactly under that condition |
| ClusterOrder.OrderMatters | music-hub/src/clusters.rs:125-134 | the list of `abcd` and `abc` depends on its order |
| CivilCalendar.NumberOfCivil | music-api/src/vault.rs:101-112 | for every day number the date is a real one, no unsigned subtraction goes below zero, and counting its days gives the number back |
| CivilCalendar.CivilOfNumber | music-api/src/vault.rs:101-112 | every real date comes from the number that counting its days yields |
| CivilCalendar.DaysFollowTheCalendar | music-api/src/vault.rs:101-112 | the next day number has the next calendar day |
| LoadDate.StampsFollowTime | music-api/src/vault.rs:87-98 | later instants have stamps that sort later, before the year 10000 |
| LoadDate.StampsHave27Characters | music-api/src/vault.rs:87-98 | every such stamp has 27 characters |
| LoadDate.StampTellsTheInstant | music-api/src/vault.rs:87-98 | the stamp of an instant before the year 10000 spells, digit by digit, a real date and time, and that is the instant |
| LoadDate.StampsFollowTimeExactly | music-api/src/vault.rs:87-98 | all stamps up to an instant sort by time exactly when it is before the year 10000 |
| Satellites.PlainColumnsHashApart | music-api/src/vault.rs:52-62 | columns free of 0x1F and not the single NUL hash alike only if they are the same, missing and empty told apart |
| Satellites.CollidesExactlyWhenNotPlain | music-api/src/vault.rs:52-62 | a value collides with other plain columns exactly when it holds 0x1F or is one NUL |
| Satellites.LinkKeysAreApart | music-api/src/vault.rs:39-48 | link keys tell order and boundaries of their hub keys |
| Satellites.PreimageOneMore | music-api/src/vault.rs:52-62 | hashed are the columns, a zero for a missing one, each with 0x1F behind it |
| Satellites.LinkTextOneMore | music-api/src/vault.rs:39-48 | and the keys of a link with 0x1F between them |
| Satellites.LatestIsLast | music-api/src/vault.rs:309-326 | where a key's rows stand in the order of their stamps, the row with its greatest stamp is the last one written |
| Satellites.RunStoresEachChange | music-api/src/vault.rs:330-361 | over every run whose clock moves on between loads of one key, a key's rows are its loads with immediate repetitions left out, and old rows stay |
| Satellites.RunStoresEachChangeExactly | music-api/src/vault.rs:330-361 | over every run whose clock goes back for no key, that holds at every point exactly if no load changes a value at a stamp its key already has |
| Satellites.StoredRowsDiffer | music-api/src/vault.rs:330-361 | neighbouring rows of a key differ, and the last row is the last load |
| Satellites.SecondPassAddsNothing | music-api/src/vault.rs:330-361 | loading everything again writes no row exactly when no two loads of a key disagree |
| Vault.Store.LoadSatellite | music-api/src/vault.rs:330-361 | the gate: nothing if the newest row has the same digest, else a row unless its primary key is taken |
| Backfill.FirstStampStays | music-api/src/vault.rs:190-304 | whatever is loaded afterwards, a hub or link keeps the stamp of the load that inserted it |
| Backfill.NothingElseInserted | music-api/src/vault.rs:190-304 | every hub and link in the vault was there before or is one of those loaded |
| Satellites.AnswersWronglyExactly | music-api/src/vault.rs:345-361 | in every run and on every clock, a load is answered "written" though the table stays as it was exactly if it is such a load |
| Satellites.StandingClockDropsARow | music-api/src/vault.rs:345-361 | two different loads of a key at one reading of the clock: both are answered "written", and the second is not there |
| Satellites.RealClockStoresEachChange | music-api/src/vault.rs:87-98 | with stamps of a clock that moves on between loads of one key, before the year 10000, every change is stored |
| Vault.Store.Backfill | music-api/src/vault.rs:1346-1451 | whatever the batch size, the vault is as if every visible row had been handled once in key order, and the counts are of rows and pages; what then stands there is `VaultContents.RowsSayWhatTablesSay` and `VaultContents.HubsAreWhatTablesSay` |
| Vault.PageAt | music-api/src/vault.rs:1350-1405 | a query behind the cursor returns the next rows, and its last key moves the cursor just past them |
| Vault.Store.Walk | music-api/src/vault.rs:1350-1405 | the cursor loop ends after every visible row was handled once, in as many pages as it takes |
| Backfill.SecondRunChangesNothing | music-api/src/vault.rs:1340-1346 | on a clock that moves on between loads of one key, a second run changes nothing in the vault exactly when no two commands load different values under one key |
| Backfill.NormalisedTablesAreConsistent | music-api/src/vault.rs:1365-1400 | rows whose keys are normalised ISRCs, or composite keys that the backfill skips, never load two values under one key |
| Backfill.BackfillIsIdempotent | music-api/src/vault.rs:1340-1451 | over tables of such rows a second run changes nothing |
| Backfill.FirstBackfillIsFinal | music-api/src/vault.rs:1340-1451 | filling an empty vault from them twice, on a real clock, changes nothing the second time |
| VaultContents.RowsSayWhatTablesSay | music-api/src/vault.rs:1346-1451 | a vault filled from tables of normalised keys, on any clock, holds one satellite row a key with exactly the columns the tables say: title, artist, album; state, source format, formats; tempo, key, camelot under the named analyzer or "hub"; and no other row |
| VaultContents.HubsAreWhatTablesSay | music-api/src/vault.rs:1363-1415 | and exactly the hubs and links of its visible tracks, artists and albums |
| VaultContents.NormalisedExactly | music-api/src/db.rs:18-23 | the keys that normalising leaves alone are those of capital letters and digits |
| VaultContents.CountableAre | music-api/src/vault.rs:1398-1441 | counted are the rows whose key has no colon |
| VaultContents.PagesAre | music-api/src/vault.rs:1347-1444 | full pages, and one more for what is left |
| Backfill.LoadersNeverAgree | music-api/src/vault.rs:363-403 | the digest of three columns is never that of the same three and one more, whatever they hold |
| Backfill.LoadersByTurnsAlwaysAppend | music-api/src/vault.rs:363-403 | loading unchanged facts by turns through the two track-metadata loaders appends every time |
| Resolver.GroupNewest | music-api/src/vault.rs:876-883 | keeps the newest row of each analyzer |
| Resolver.NewestIsLatest | music-api/src/vault.rs:876-883 | that row is the one the load gate compares with |
| Resolver.AskingPicks | music-api/src/vault.rs:894-922 | each field comes from the first analyzer of the list that has it, else from the newest of the others that has it |
| Resolver.PickIsUnique | music-api/src/vault.rs:894-922 | that rule leaves no choice |
| Resolver.ResolveOne | music-api/src/vault.rs:894-937 | tempo, key, camelot and energy are columns 0 to 3 of the row of the analyzer that comes first for each, and missing exactly if no analyzer has that column; the source is the analyzer of the first of them that is there; the date is the greatest |
| Resolver.ResolveTracks | music-api/src/vault.rs:853-892 | one result per known ISRC asked, in the order asked, each answering so from the newest rows of its analyzers |
| ObjectStore.Store.Put | music-api/src/store.rs:210-372 | all or nothing, never under a wrong key, an existing file and an existing row's time untouched |
| ObjectStore.Store.DeleteObject | music-api/src/store.rs:734-750 | removes file and row, and says whether either was there |
| ObjectStore.Store.PruneOrphans | music-api/src/store.rs:853-993 | removes exactly the old half-objects, counts them and their bytes; a dry run counts the same and touches nothing |
| ObjectStore.PrunedHasNoOldOrphans | music-api/src/store.rs:853-993 | repeating it at the same instant finds nothing |
| ObjectStore.PrunedExactly | music-api/src/store.rs:853-993 | a file stays exactly with a row or while it is young in nanoseconds, a row with a file or while it is young in whole seconds under the cast grace period; what stays is unchanged |
| ObjectStore.CountedExactly | music-api/src/store.rs:930-972 | what is counted is what goes; a file frees its bytes, a row its size if that is positive |
| ObjectStore.PrunedKeepsTheRest | music-api/src/store.rs:853-993 | whole objects and young files stay, and below 2^63 seconds of grace young rows too |
| ObjectStore.PrunedIsWhole | music-api/src/store.rs:853-993 | once nothing is young, files and rows have the same keys afterwards |
| ObjectStore.GraceProtectsRowsExactly | music-api/src/store.rs:953-957 | young rows are safe from pruning exactly under grace periods below 2^63 seconds, which the cast to a signed number keeps; young files under all |
| StoreRace.ReachableIsIntact | music-api/src/store.rs:315-356 | under every interleaving a file at a key has the key's digest |
| StoreRace.FreshPutSurvives | music-api/src/store.rs:322-372 | with enough grace, an upload of a new key is still whole at the end of every run in which nobody deletes it |
| StoreRaceLimits.GraceSufficesExactly | music-api/src/store.rs:853-993 | the exact condition on grace period, publication gap and scan length for that |
| StoreRaceLimits.PresentCanBeUndone | music-api/src/store.rs:233-267 | a run from the empty store in which an upload answered "present" over an old file without a row loses it to a scan under way |
| StoreRaceLimits.OldRowCanBeUndone | music-api/src/store.rs:328-356 | a run from the empty store in which an upload over an old row without a file loses its row to a scan under way |
| StoreRaceSurvival.SurvivesExactly | music-api/src/store.rs:853-993 | with enough grace, a recorded object survives every undisturbed run exactly when every scan under way is harmless to it and its row stays young until the file has to be there |
| StoreRaceSurvival.PresentSurvivesExactly | music-api/src/store.rs:233-267 | an upload answered "present" keeps its object exactly when every scan under way is harmless to it |
| StoreRaceSurvival.RecordedSurvivesExactly | music-api/src/store.rs:328-356 | an upload that has recorded its row keeps the object exactly when besides the row it found is young enough to last until publication |
| Backpacks.Contributions | music-hub/src/backpacks.rs:587-633 | each source once, where an item first names it |
| Backpacks.FoldSources | music-hub/src/backpacks.rs:637-708 | the first tracks by score, least position and id, scores counting the different sources, sources by position and kind; on the list itself: `Backpacks.ResolutionIsRanked` and `Backpacks.LeftOutIsNoBetter` |
| Backpacks.ResolutionIsRanked | music-hub/src/backpacks.rs:671-677 | scores never rise along the list; equal scores come by least position, equal positions by ascending id |
| Backpacks.LeftOutIsNoBetter | music-hub/src/backpacks.rs:671-696 | a contributed track is left out only of a full list, and has no higher score than any track taken; ties lose by position, then id |
| Backpacks.SourcesAreHolders | music-hub/src/backpacks.rs:679-694 | a result's sources hold its track and come by position, then kind |
| Backpacks.SourcesAreAll | music-hub/src/backpacks.rs:679-694 | and they are all that do |
| Backpacks.ItemsByKind | music-hub/src/backpacks.rs:587-633 | the kind of an item says which column counts; a lens needs no key, an unknown kind names nothing |
| Backpacks.KindsInOrder | music-hub/src/backpacks.rs:537-544 | tags rank before playlists, playlists before lenses, lenses before single tracks |
| Backpacks.ResolveWithLimit | music-hub/src/backpacks.rs:573-634 | the fold of the gathered contributions, nothing for an unknown backpack |
| Backpacks.Resolve | music-hub/src/backpacks.rs:557-563 | the same with the limit brought into 1 to 500: never more than 500, one at most for limits below one, and between them as many as asked for, if there are so many |
| Backpacks.ResolveUnbounded | music-hub/src/backpacks.rs:569-571 | the same with no limit below 2^63 |
| Backpacks.FirstMentionIsLeast | music-hub/src/backpacks.rs:545-556 | items come by position, so a source counts at its least position |
| Backpacks.ScoreCountsSources | music-hub/src/backpacks.rs:545-556 | a score counts the different sources among the items that hold the track |
| Backpacks.ArrangedIsSorted | music-hub/src/backpacks.rs:682-683 | a track's sources come out in order, none lost |
| Backpacks.SmallerLimitIsPrefix | music-hub/src/backpacks.rs:557-571 | a smaller limit gives the beginning of what a larger one, or none, gives |
| Backpacks.ContributionOrderDoesNotMatter | music-hub/src/backpacks.rs:637-708 | tracks and scores do not depend on the order of the contributions |
| Ranking.TopIsPrefix | music-hub/src/backpacks.rs:671-677 | the first few by a strict total order are unique |
| Frames.FrameSignal | music-hub/src/audio.rs:124-148 | ends with one frame per hop, rounded up, and one more; every cell is the right sample or silence |
| Frames.SignalFromFrames | music-hub/src/audio.rs:124-148 | every sample can be read back from two neighbouring frames |
| Frames.EachSampleTwice | music-hub/src/audio.rs:124-148 | and stands in no other place |
| Frames.PatchesAreTheWindows | music-hub/src/audio.rs:209-216 | the patch count takes exactly the windows that lie inside the frames |
| Frames.FramesInNumbers | music-hub/src/audio.rs:124-148 | frames of 512 samples 256 apart, the first starting 256 early, as many as it takes to pass the end |
| Frames.PatchesInNumbers | music-hub/src/audio.rs:209-239 | patches of 128 frames of 96 bands, 62 frames apart, as many as there is room for |
| Frames.FillBatch | music-hub/src/audio.rs:227-239 | the tensor holds each patch of the batch in its place |
| Frames.SumEmbeddings | music-hub/src/audio.rs:226-264 | the sums are those of feeding every patch by itself, once and in order |
| Artists.ReplaceCi | music-hub/src/artists.rs:95-118 | replaces, from the left, every occurrence that does not overlap an earlier one, ASCII case ignored |
| Artists.ReplacedLacks | music-hub/src/artists.rs:95-118 | replacing by the mark leaves no occurrence and makes none of another marker |
| ArtistLines.ReplacedExactly | music-hub/src/artists.rs:95-118 | replaced are occurrences apart from each other, such that every other one begins inside one of them; the rest of the text stays |
| ArtistLines.ChosenIsUnique | music-hub/src/artists.rs:95-118 | there is only one such choice |
| Artists.SplitArtists | music-hub/src/artists.rs:125-142 | markers replaced, split, trimmed, blanks and repetitions left out |
| Artists.SplitIsNormal | music-hub/src/artists.rs:120-142 | names are trimmed, non-empty, free of separators and of all five markers, and pairwise different ignoring case |
| Artists.FirstSeenIsComplete | music-hub/src/artists.rs:130-141 | every piece that is not blank is named, and no name is made up |
| ArtistLines.FirstSeenExactly | music-hub/src/artists.rs:130-141 | kept, in their order, are exactly the pieces that are not blank and not the same but for case as one before |
| ArtistLines.NamesArePlain | music-hub/src/artists.rs:125-142 | no name holds ' feat. ', ' feat ', ' ft. ', ' ft ' or ' featuring ' in any case, nor a semicolon, comma or ampersand |
| ArtistLines.PlainLineIsOneName | music-hub/src/artists.rs:125-142 | a line that holds none of them is one name |
| ArtistLines.SeparatorDivides | music-hub/src/artists.rs:131-141 | each of the three separators divides two such lines |
| ArtistLines.MarkersInTurn | music-hub/src/artists.rs:126-129 | the five markers are replaced in this order |
| Artists.SplitTwice | music-hub/src/artists.rs:125-142 | splitting the semicolon-joined names gives the same names |
| Splitting.PiecesAreTheStretches | music-hub/src/artists.rs:131-131 | the pieces are exactly the separator-free stretches between separators |
| ServiceText.SystemdQuote | kellner/src/service.rs:150-168 | safe words stay, others are quoted with quotes and backslashes escaped |
| ServiceText.QuotedExactly | kellner/src/service.rs:150-168 | an argument stays as it is exactly if it is not empty and made of ASCII letters, digits and / . _ - : @ + |
| ServiceText.EscapedOneMore | kellner/src/service.rs:160-165 | in quotes a backslash stands before each double quote and backslash, and nothing else changes |
| ServiceText.ExecStartReadsBack | kellner/src/service.rs:117-122 | reading the printed command line by the quoting rules gives the exact arguments |
| ServiceText.ExecStartIsInjective | kellner/src/service.rs:117-122 | two argument lists never print alike |
| ServiceText.OneLineExactly | kellner/src/service.rs:117-141 | the command line stays one line exactly when no argument holds a line break |
| ServiceText.ChainIsOnePass | kellner/src/service.rs:108-113 | the four replaces in a row do what one pass would |
| ServiceText.EscapedOneByOne | kellner/src/service.rs:108-113 | character by character: exactly the four are replaced, each by its entity |
| ServiceText.EscapeDecodes | kellner/src/service.rs:108-113 | decoding the predefined entities restores the text |
| ServiceText.EscapedHasNoMarkup | kellner/src/service.rs:108-113 | the result holds no angle bracket and no double quote |
| Devices.Store.CreatePending | music-hub/src/devices.rs:156-205 | undisturbed, sweeps, then renews the live pending row of the name or inserts one, unless the index on hashes refuses |
| Devices.Store.StorePending | music-hub/src/devices.rs:176-205 | the store by itself: the row found before is rewritten whatever has become of it, nothing if it is gone, and an insert where none was found |
| Devices.Store.SweepExpired | music-hub/src/devices.rs:141-151 | deletes exactly the pending rows whose time is over, and counts them |
| Devices.Store.BindDevice | music-hub/src/devices.rs:228-244 | binds exactly a live pending row with a staged hash, which becomes its token |
| Devices.Store.FindBoundByTokenHash | music-hub/src/devices.rs:252-266 | finds a bound, unrevoked row of that hash if there is one |
| Devices.Store.RevokeDevice | music-hub/src/devices.rs:308-318 | the owner's call revokes the row, once, and is answered yes, again too; anybody else's is answered no and leaves it (`DeviceHistory.RevokeStep`, `DeviceHistory.RevocationAnswer`) |
| DeviceHistory.RevokeStep | music-hub/src/devices.rs:308-318 | a statement makes a row revoked exactly if it is the call of the row's owner, at the time of the call, and it touches no other row |
| DeviceHistory.RevocationAnswer | music-hub/src/devices.rs:308-318 | the answer is yes exactly for the owner, and a no changes nothing |
| DeviceHistory.RevokedExactly | music-hub/src/devices.rs:308-318 | over every run a row is revoked exactly if its owner has called for it |
| DeviceHistory.FirstRevocationCounts | music-hub/src/devices.rs:308-318 | and the time kept is that of the owner's first call |
| DeviceHistory.OwnedExactly | music-hub/src/devices.rs:225-244 | over every run a row has an owner exactly if that user's bind of it was answered yes |
| DeviceHistory.BindsExactly | music-hub/src/devices.rs:225-244 | a bind is answered yes exactly for a row nobody owns or has revoked, within its time, with a staged hash no other row holds; otherwise nothing changes |
| DeviceHistory.RowStep | music-hub/src/devices.rs:141-318 | what every statement makes of every row: staged for 900 seconds, bound, revoked, seen; deleted exactly by a sweep after its time |
| DeviceHistory.NewRowStep | music-hub/src/devices.rs:187-205 | and only a registration that found none makes a new one |
| DeviceHistory.LookUpExactly | music-hub/src/devices.rs:156-176 | a registration finds a row of its name that is nobody's and within its time, if there is one |
| DeviceHistory.StoreAnswer | music-hub/src/devices.rs:176-205 | its store is refused exactly if the hash stands in another row; a new row gets the number after the greatest |
| DeviceHistory.SweptExactlyWhenNotLive | music-hub/src/devices.rs:141-151 | a pending row with a time is swept exactly when it is not live |
| DeviceRuns.OneLivePendingRow | music-hub/src/devices.rs:156-205 | in runs where every lookup's answer still holds at its store, no name ever has two live pending rows |
| DeviceRuns.OneLivePendingRowExactly | music-hub/src/devices.rs:156-205 | over every run a name has at most one live pending row throughout exactly when no store writes a live row beside another of that name |
| DeviceRuns.StoreDoublesExactly | music-hub/src/devices.rs:166-205 | when a store does that, told before it from the rows and the registration |
| DeviceRuns.BoundKeepsTokenExactly | music-hub/src/devices.rs:166-244 | every step keeps a bound row, its owner and its revocation, answers no to binding it again, and keeps its token exactly unless a registration that had found the row stores another hash over it |
| DeviceRuns.BoundForeverExactly | music-hub/src/devices.rs:166-244 | over every run bound rows keep owner, token and first revocation exactly if no such late store occurs |
| DeviceRuns.PunctualOverwritesNothing | music-hub/src/devices.rs:166-186 | none occurs where every lookup's answer still holds at its store |
| DeviceRuns.OverwrittenTokenIsReached | music-hub/src/devices.rs:166-244 | a run from the empty registry in which a bind comes between, and the pairing hash lets in instead of the device's |
| DeviceRuns.BindsOnce | music-hub/src/devices.rs:225-244 | over every run, whatever overlaps: after the call that bound a row every other attempt answers no |
| DeviceRuns.HashIsLastStagedExactly | music-hub/src/devices.rs:156-244 | over every run each row always holds the device hash staged last for it exactly if no store with another pairing hash reaches a bound row |
| DeviceRuns.LetsInExactly | music-hub/src/devices.rs:252-266 | then a hash lets in exactly if it is the last one staged for a bound, unrevoked row |
| DeviceRuns.PunctualIsNeverLate | music-hub/src/devices.rs:166-186 | where every lookup's answer still holds at its store, none reaches a bound row |
| DeviceRuns.RevokedForever | music-hub/src/devices.rs:308-318 | over every run, whatever overlaps: a revoked row keeps its first revocation time and is never let in again |
| DeviceRuns.RevokedTokenStaysOut | music-hub/src/devices.rs:252-318 | its token lets nobody in as long as no late store overwrites that row |
| DeviceRuns.OutUntilAdmittedExactly | music-hub/src/devices.rs:166-266 | over every run a token that lets nobody in stays out exactly until a bind rotates to it or a late store writes it over a bound row |
| DeviceRuns.RevokedTokenCanReturn | music-hub/src/devices.rs:166-318 | a run from the empty registry in which a late store frees a revoked row's token and another row is bound to it |
| DeviceRuns.OverlappingCallsMakeTwoExactly | music-hub/src/devices.rs:166-205 | two registrations of a new name that both look before either stores make two live rows exactly if their pairing hashes differ and neither is taken |
| DeviceRuns.TwoLiveRowsAreReached | music-hub/src/devices.rs:166-205 | a run from the empty registry that does |

## Left out

- HTTP handlers, SQL text, templates, configuration, the tray program and the legacy Python service: input and output only.
- ffmpeg, yt-dlp, deemix, Deezer and Spotify: each is an arbitrary result that feeds a step.
- Interleaving between the statements inside one `db::` or `work::` call, and a database error half-way through one: each call is one step.
- Text columns that no decision reads (titles, paths, errors, record sources), and 64-bit overflow of times.
- Artist orders and the ingestion of their files: another queue of the same shape.
- `LoginBackoff`, and small helpers such as `interval_for`, `ct_eq` and `parse_range`: they would only add easy members.
- `import_file`: it trusts its caller's hash, so there is no integrity to state.
- Floating point: the mel filterbank, the FFT, suggestion scores. In `Frames` sums are taken with an arbitrary addition, so no rounding is assumed away.
- Unicode case folding in `normalize_name` and `normalize` of tag names: such normalisations are parameters.
- `tracks_for_tag`, `tracks_for_playlist` and `tracks_for_lens`: queries, a parameter of the backpack resolver. `add_source`, `set_active` and `clear_active` are single row updates.
- Names in the store's directories that are no digests, and files that cannot be read or removed: the scan passes over them.
- Grace periods from 2^63 seconds on in the race model; what the cast does to them is in `ObjectStore`.
- Keys that are no digests (refused before anything happens), and tables that change while the backfill pages through them.
- The order of a scan's directory walk: a scan may check any file at any time, which includes every walk.
- `%` specifiers and `$` variables of systemd unit files: `systemd_quote` does not treat them, and the reader models quoting only.
- `touch_last_seen` is an event of the device runs; deleting a user, which deletes the user's devices, is not.
- Devices.Store.CreatePending: one clock reading per call stands for the program's three, and the order of RFC 3339 texts is taken as the order of instants.
- Backpacks.FoldSources: tracks are taken from the accumulator in any order; the sort decides, so the map's own order is not modelled.
- The hubs and links of the vault outside the backfill, and the detail view: inserts and reads without a gate.
