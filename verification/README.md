# A verified model of the posting-queue scheduler and the protocols around it

The repository is a social-media publishing backend (Django). This project models the part of it
that allocates, moves, replays and counts things, and proves what that code keeps.

The core is the **posting-queue scheduler**. A channel has weekly posting slots; a walk over 60 days
turns them into concrete instants, and five operations (add, prioritize, re-slot, remove, reorder)
place posts on those instants. Two data sources matter: `PlatformPost.scheduled_at`, which the
publisher fires on, and the queue entry's copy of it. Around the scheduler sit smaller machines:
idempotency slots of the agent API, daily credits from cumulative analytics snapshots, the API key
cache, the sync cadence, recurring posts, the calendar's open slots, and a rate limiter.

How the model is laid out, by file:

| file | models |
|---|---|
| `PostingSlots.dfy`, `Availability.dfy` | the 60-day slot walk and the bounded search for a free slot |
| `ScheduleStore.dfy`, `QueueOps.dfy`, `QueueReorder.dfy` | the rows, and each operation as a loop-free function of them |
| `Scheduler.dfy` | the operations as the code runs them: loops, slot writes, a candidate list that grows while it is scanned; each method is proved equal to its loop-free form |
| `SchedulerRuns.dfy` | what holds over every sequence of operations |
| `QueueEffects.dfy` | what each operation does to every row, in the fields of the rows alone |
| `QueueExample.dfy` | one small queue on which prioritize departs from its description |
| `Repair.dfy` | the repair of published posts that were dragged into the future |
| `Idempotency.dfy` | claim, finalize, release and sweep, alone and interleaved by many workers |
| `SnapshotDeltas.dfy`, `AnalyticsBundle.dfy`, `DerivedCards.dfy` | lifetime totals to daily credits to series to cards |
| `ApiTokens.dfy`, `ApiKeyStore.dfy`, `ApiKeyRuns.dfy` | token format, verification with its cache, and its interleavings with edits |
| `SyncCadence.dfy` | the decaying sync schedule and the announced next sync |
| `RecurrenceDates.dfy`, `RecurringPosts.dfy` | recurrence dates and the job that clones posts onto them |
| `OpenSlots.dfy` | the calendar grid's open and taken slots |
| `RateLimit.dfy` | the fixed-window counter |

Instants, dates and days are integers; a date is a day ordinal. A time zone is an abstract pair of
functions between wall clock and instant. Where a result needs wall-clock order to be instant order
(no slot inside a daylight-saving gap or fold) it says so with `PostingSlots.WellFormed`.
Every locked operation is one atomic step, as the channel lock at
`backend/apps/calendar/services.py:155-166` intends, with one reading of the clock.

## Where the code and its descriptions differ

The model follows the code. These statements are exact, each with its condition or a witness:

- *Prioritize* says every other entry shifts one slot later. Only entries within the first
  (movable + 2) upcoming slots do (`SchedulerRuns.LadderMovesTheFirstFew`), and one of them goes to
  the very next slot exactly when no post that stays holds it (`QueueOps.LadderShiftsByOne`; a post
  that skips a slot: `QueueExample.BlockedSlotIsSkipped`).
- *Prioritize* also rewrites its own post when that is already published: exactly when there is room
  and the post is not already at its target (`SchedulerRuns.PrioritizeRewritesOwnHistory`; such a post:
  `QueueExample.PublishedPostIsRewritten`). The other operations never do.
- *Remove* says it clears the schedule. A post still in draft or under review keeps its instant and
  goes on blocking it; every other post frees it (`QueueOps.RemovalFreesTheInstant`).
- *Reorder* with a repeated id can book one instant twice (`QueueReorder.RepeatedIdDoubleBooks`; when
  exactly: `QueueReorder.ReorderBooksOnceExactly`).
- *Repair* says it never drags a pending post into the past. It does exactly when neither the post
  nor its parent had a time (`Repair.RepairKeepsDueTimes`), which cannot happen while parents are in
  sync (`Repair.RepairMakesNothingDue`).
- *update_api_key* says a new scope applies on the very next request. It busts the cache before the
  edit commits, so a request in between restores the old row (`ApiKeyRuns.EarlyBustServesOldRow`).
- An announced sync time is missed early by platforms with excluded metrics, exactly when the newest
  counted capture goes stale at the end of a rung or of the wait (`SyncCadence.EtaHoldsExactly`), and
  is announced but never kept for posts between a platform's window and 90 days, or for all younger
  ones when that window is zero days (`SyncCadence.AnnouncedButNeverSynced`).
- A recurrence interval of zero is accepted and makes 180 clones of one date
  (`RecurringPosts.ZeroIntervalFloods`).
- Running the recurrence job twice makes a date's clone twice unless some clone of the first run lands
  on that date (`RecurringPosts.RerunMakesNothingExactly`). That happens when the children have no
  times of their own, and when they lag a day behind their post
  (`RecurringPosts.UnscheduledChildClonedTwice`, `RecurringPosts.LateChildClonedTwice`).
- The calendar's widening by one day misses slots when zones are more than 24 hours apart
  (`OpenSlots.CompleteWithinADay`; +14 against -12 are 26).
- An idempotency claimant that outlives the 24-hour TTL loses its row, and its late finish is filed
  under another request's fingerprint (`Idempotency.LateClaimantCorruptsTheKey`).

## Model

| member | source | states |
|---|---|---|
| `PostingSlots.NextSlotDatetimes` | backend/apps/calendar/services.py:42-84 | the nested loops return exactly the first max(count, 1) of all active slot instants after `after` in the horizon: none missed, none added, even for a count below one |
| `PostingSlots.UpcomingMembers` | backend/apps/calendar/services.py:65-82 | an instant is upcoming if and only if it is later than `after` and is some active slot's wall time on a date of its weekday among the 60 |
| `PostingSlots.UpcomingAscends` | backend/apps/calendar/services.py:65-84 | the instants are strictly increasing, all after `after` |
| `PostingSlots.TakePrefixes` | backend/apps/calendar/services.py:42-84 | a smaller count yields a prefix of a larger one |
| `PostingSlots.EachSlotRecursEightTimes` | backend/apps/calendar/services.py:64-82 | each active slot's instant in each of eight consecutive weeks is among the upcoming ones |
| `PostingSlots.UpcomingLowerBound` | backend/apps/calendar/services.py:64-84 | the horizon holds at least eight distinct instants per active slot |
| `PostingSlots.FixedZoneIsWellFormed` | backend/apps/calendar/services.py:58-76 | in a zone without daylight saving every slot list the query can return makes a well-formed calendar, so the hypothesis of the ordering results can be met |
| `Availability.NextAvailableSlot` | backend/apps/calendar/services.py:127-141 | the bounded scan returns what an exhaustive scan of the whole horizon returns |
| `Availability.BoundedSearchIsExhaustive` | backend/apps/calendar/services.py:134-137 | the pigeonhole: the first (occupied + 1) slots contain the first free one whenever there is one |
| `Availability.FirstFreeIsEarliest` | backend/apps/calendar/services.py:138-141 | the result is the least unoccupied candidate, and there is none if and only if every candidate is occupied |
| `Availability.FreeSlotWhenSparse` | backend/apps/calendar/services.py:127-141 | with fewer than eight occupied instants per active slot a free slot exists |
| `ScheduleStore.WritesAddUp` | backend/apps/calendar/services.py:180-189 | one slot write after a batch of writes equals the batch extended by it: child, entry and parent together |
| `ScheduleStore.AssignKeepsSync` | backend/apps/calendar/services.py:180-189 | writing any set of slots leaves every parent without a time exactly when no child has one, and otherwise at the time of some child that no child undercuts |
| `ScheduleStore.EarliestIsLeastTime` | backend/apps/composer/services.py:48-63 | the synced value of a parent is the one value that is a child's time and at most every child's, or none when no child has a time |
| `ScheduleStore.BookingOverTime` | backend/apps/calendar/services.py:106-124 | time passing never creates a double booking |
| `QueueEffects.AddEffect` | backend/apps/calendar/services.py:192-217 | add writes the earliest upcoming slot that no other unpublished child of the channel holds to the post's child, entry and parent, a new entry going last; it raises exactly when others hold every slot, and leaves a published or publishing post alone; no other field of any row changes |
| `QueueEffects.PrioritizeEffect` | backend/apps/calendar/services.py:220-299 | the rows after prioritize in full: when a post of the queue waits on the first slot, the post takes that slot and each post waiting within the first (waiting + 2) slots goes to the first later slot no other post keeps; otherwise the post takes the earliest gap; when it raises; what stays |
| `QueueEffects.RemoveEffect` | backend/apps/calendar/services.py:302-326 | the entry goes, and a drafted post's other entries on the channel with it; exactly a child whose status may become a draft ends as a draft without a time; every other entry and child stays, and the parent takes the least time of its children |
| `QueueEffects.ReorderTouches` | backend/apps/calendar/services.py:358-378 | reordering distinct ids changes the times of named draggable entries that hold one, their children and parents, and the positions of named draggable entries to their index among those; nothing else |
| `QueueEffects.ReorderConserves` | backend/apps/calendar/services.py:369-373 | every instant is held by as many of the named entries after a reorder as before |
| `QueueEffects.ReorderFollowsTheRequest` | backend/apps/calendar/services.py:369-373 | of two named entries that hold a time, the one named earlier ends no later than the other |
| `QueueOps.LadderKeepsOrder` | backend/apps/calendar/services.py:284-297 | each mover climbs strictly, no further than the instant the next mover leaves, and movers keep their order |
| `QueueOps.OnlyTheTopMoverCanFail` | backend/apps/calendar/services.py:286-293 | the ladder does not fit exactly when every horizon slot after the highest mover is held by a post that stays |
| `QueueOps.LadderShiftsByOne` | backend/apps/calendar/services.py:275-298 | a mover goes from slot k to slot k + 1 if and only if no post that stays holds slot k + 1 |
| `QueueOps.UnhinderedLadderShifts` | backend/apps/calendar/services.py:275-298 | with no staying post on any slot, every mover goes from slot k to slot k + 1, and one on the last slot makes the ladder fail |
| `QueueExample.BlockedSlotIsSkipped` | backend/apps/calendar/services.py:284-298 | a concrete queue, at any midnight: the post on the first slot goes to the third, as a post scheduled by hand holds the second |
| `QueueOps.LadderNeverDoubleBooks` | backend/apps/calendar/services.py:284-298 | after any number of ladder writes from the top, all posts but the prioritized one hold distinct instants |
| `QueueOps.RungAvoidsStayers` | backend/apps/calendar/services.py:278-297 | a mover's new instant is never that of a post that stays, nor of a mover at or below it |
| `QueueOps.AddKeepsBooking` | backend/apps/calendar/services.py:192-217 | add never books an instant twice, on its own channel or on any other |
| `QueueOps.PrioritizeKeepsBooking` | backend/apps/calendar/services.py:220-299 | prioritize keeps each channel's instants distinct, whatever the other channels look like |
| `QueueOps.PrioritizeNeedsRoom` | backend/apps/calendar/services.py:233-298 | prioritize succeeds if and only if there is a slot and, when a post must make way, one beyond the highest mover that no staying post holds; otherwise any unoccupied one |
| `QueueOps.RemoveKeepsBooking` | backend/apps/calendar/services.py:302-326 | remove never books an instant twice |
| `QueueOps.RemovalFreesTheInstant` | backend/apps/calendar/services.py:302-326 | a removed post still blocks an instant if and only if it blocked one before and is in draft or under review, so that its schedule was not cleared |
| `QueueReorder.ReorderPermutes` | backend/apps/calendar/services.py:358-378 | for distinct ids the held instants keep their multiset, the k-th named post gets the k-th smallest, named entries are numbered in order, and every other child, entry and parent is untouched |
| `QueueReorder.ReorderKeepsBooking` | backend/apps/calendar/services.py:358-378 | reordering distinct ids keeps each channel's instants distinct, whatever the other channels look like |
| `QueueReorder.ReorderBooksOnceExactly` | backend/apps/calendar/services.py:358-378 | for any ids, repeated or not, the reorder keeps the channel's instants distinct if and only if no two posts are last mentioned at positions of one future instant in the sorted list of held instants |
| `QueueReorder.ReorderTwiceMovesNothing` | backend/apps/calendar/services.py:358-378 | repeating a reorder changes no post and no parent |
| `QueueReorder.RepeatedIdDoubleBooks` | backend/apps/calendar/services.py:361-378 | a concrete request naming one entry twice ends with two posts on one instant |
| `Scheduler.FindRung` | backend/apps/calendar/services.py:287-295 | the search ends although it refetches candidates as it goes, at the first index neither claimed nor avoided, or at the end of the horizon |
| `Scheduler.IndexMovers` | backend/apps/calendar/services.py:275-277 | exactly the movable entries that sit on a candidate become movers, at that candidate's index |
| `Scheduler.SortByIndexDescending` | backend/apps/calendar/services.py:286 | the movers in descending index order, none lost or doubled |
| `Scheduler.EveryWriteBooksOnce` | backend/apps/calendar/services.py:284-297 | after every single write of the loop as it runs, all posts but the prioritized one hold distinct instants |
| `Scheduler.TraceIsLadder` | backend/apps/calendar/services.py:275-298 | the loop's writes are those of the loop-free ladder when it finishes, and it runs out of slots exactly when the ladder does not fit |
| `Scheduler.QueueScheduler.WriteEntryAndChild` | backend/apps/calendar/services.py:180-189 | the write changes entry, child and parent as the shared slot write does, and nothing else |
| `Scheduler.QueueScheduler.AddPostNextAvailable` | backend/apps/calendar/services.py:192-217 | the new rows are those of the loop-free add; a full queue changes nothing |
| `Scheduler.QueueScheduler.ReslotToNextAvailable` | backend/apps/calendar/services.py:329-331 | re-slotting has the same outcome as adding the entry's post |
| `Scheduler.QueueScheduler.CollectMovable` | backend/apps/calendar/services.py:241-247 | exactly the queue's other unprotected entries with a future time, each with that time, in any order |
| `Scheduler.QueueScheduler.ClimbLadder` | backend/apps/calendar/services.py:284-297 | every write of the loop goes to the first index that was free at that turn, and a stop happens only with the whole horizon blocked |
| `Scheduler.QueueScheduler.TakeFirstOrNextGap` | backend/apps/calendar/services.py:256-268 | the first slot, or the next free one when a foreign post holds it; only the post itself moves |
| `Scheduler.QueueScheduler.Prioritize` | backend/apps/calendar/services.py:220-299 | from a distinct start the new rows are those of the loop-free prioritize, and a full queue leaves every row as it was |
| `Scheduler.QueueScheduler.RemoveFromQueue` | backend/apps/calendar/services.py:302-326 | the entry goes, its unprotected child becomes an unscheduled draft where its status allows, and the parent is resynced |
| `Scheduler.QueueScheduler.ReorderQueue` | backend/apps/calendar/services.py:347-383 | the loops produce the loop-free reorder, positions included |
| `SchedulerRuns.AddTakesEarliestGap` | backend/apps/calendar/services.py:192-217 | add writes the least upcoming slot no other post claims, to this one row and its entry, or raises with all of them claimed |
| `SchedulerRuns.AddFullNeedsManyBookings` | backend/apps/calendar/services.py:208-213 | add raises only with at least eight instants per active slot occupied |
| `SchedulerRuns.RunsNeverDoubleBook` | backend/apps/calendar/services.py:192-383 | over every sequence of operations on any channels, with time moving between them, a channel that starts with distinct instants keeps them distinct |
| `SchedulerRuns.RunsKeepParentsInSync` | backend/apps/calendar/services.py:180-189 | over every sequence, each parent has no time exactly when no child has one, and otherwise the time of some child that no child undercuts |
| `SchedulerRuns.StepMovesOnlyTheQueue` | backend/apps/calendar/services.py:192-383 | an operation moves only rows of its channel that it names or that sit in its queue, and adds entries only for the post it names |
| `SchedulerRuns.RunsLeaveBystandersAlone` | backend/apps/calendar/services.py:192-383 | a post that no operation on its channel names, and that is in none of the operated queues, is never moved, even if it sits in another queue of the channel |
| `SchedulerRuns.RunsLeaveHistoryAlone` | backend/apps/calendar/services.py:149-152 | a published or publishing row is never moved by a run that does not prioritize its own post |
| `SchedulerRuns.PrioritizeRewritesOwnHistory` | backend/apps/calendar/services.py:233-298 | prioritize rewrites its own published or publishing row if and only if there is room and the row does not hold its target already |
| `SchedulerRuns.PublishedRowsAreRewritten` | backend/apps/calendar/services.py:233-298 | a protected row with a past time or none is rewritten by its own prioritize if and only if there is room |
| `QueueExample.PublishedPostIsRewritten` | backend/apps/calendar/services.py:233-298 | a concrete published post whose schedule moves from yesterday to tomorrow |
| `SchedulerRuns.LadderMovesTheFirstFew` | backend/apps/calendar/services.py:249-277 | a movable post moves exactly when it sits within the first (movable + 2) slots, and then strictly later |
| `Repair.RepairFuturePublished` | backend/apps/calendar/services.py:386-495 | the run reports the published rows scheduled after their publication, how many posts they have and how many entries it would change, and changes nothing on a dry run |
| `Repair.RepairTouches` | backend/apps/calendar/services.py:423-488 | every child after the repair: a published one scheduled after its publication takes its publication time, a scheduled sibling without a time its parent's, every other stays as it was |
| `Repair.RepairTouchesEntries` | backend/apps/calendar/services.py:449-488 | every entry after the repair: one of such a row that shows a time after the publication takes the publication time, every other stays, positions included |
| `Repair.RepairTouchesParents` | backend/apps/calendar/services.py:490-491 | exactly the parents of such rows are resynced, to the least of their children's repaired times |
| `Repair.RepairTwiceFindsNothing` | backend/apps/calendar/services.py:396-402 | a second run finds no row and changes nothing |
| `Repair.RepairKeepsDueTimes` | backend/apps/calendar/services.py:469-491 | a pending post keeps its due time if and only if it is not one without any time beside a repaired sibling |
| `Repair.RepairMakesNothingDue` | backend/apps/calendar/services.py:469-491 | with parents in sync no pending post's due time changes |
| `Repair.RepairKeepsSync` | backend/apps/calendar/services.py:490-491 | from parents in sync the repair leaves every parent at the least of its children's times |
| `Idempotency.IdempotencyTable.TryInsert` | backend/apps/api/middleware.py:167-177 | the insert succeeds exactly when the key is free, and only then adds a pending row with this fingerprint |
| `Idempotency.IdempotencyTable.Claim` | backend/apps/api/middleware.py:136-188 | a claim inserts a pending row on a free key; on a taken one it is a mismatch exactly for another fingerprint, in flight exactly for a pending row of the same, and otherwise a replay of that row's response, the rows unchanged |
| `Idempotency.IdempotencyTable.Finalize` | backend/apps/api/middleware.py:191-209 | the row keeps fingerprint and age and takes the response; a missing row stays missing |
| `Idempotency.IdempotencyTable.Release` | backend/apps/api/middleware.py:212-230 | at most a pending row goes; a finalized one stays |
| `Idempotency.IdempotencyTable.SweepStale` | backend/apps/api/tasks.py:52-55 | exactly the rows older than 24 hours go, whatever their status, and they are counted |
| `Idempotency.UndisturbedStepsAreAClaim` | backend/apps/api/middleware.py:167-188 | the insert and fetch steps of one worker, run without interruption, leave the rows and give the disposition that a claim promises |
| `Idempotency.ReleaseBetweenMakesFetchMiss` | backend/apps/api/middleware.py:177-181 | when the claimant releases between another worker's failed insert and its fetch, the fetch finds no row |
| `Idempotency.FetchTells` | backend/apps/api/middleware.py:178-188 | what a fetch tells for each state of the row it finds, whatever happened since the insert |
| `Idempotency.StepsTreatRowsAlike` | backend/apps/api/middleware.py:191-230 | the sweep, release and finish steps change the rows as the table's methods do, said in the fields of the rows |
| `Idempotency.FinishAnswersEveryRequest` | backend/apps/api/middleware.py:177-188 | in a timely run, from a finish until its row is swept, every request on the key is told exactly the finished response, from the worker that finished it, if it has its fingerprint, and a mismatch otherwise |
| `Idempotency.EveryRequestIsTold` | backend/apps/api/middleware.py:167-188 | a request that found the key taken and has not crashed is told something by its fetch, whatever happens in between |
| `Idempotency.StepSafe` | backend/apps/api/middleware.py:136-230 | every step of claim, fetch, finish, release, crash, sweep and time keeps: each row belongs to the one worker that inserted it and shows what that worker did |
| `Idempotency.OneLiveClaimant` | backend/apps/api/middleware.py:136-188 | in every timely run a key has at most one live claimant, and its pending row carries that worker's fingerprint |
| `Idempotency.OneFinalizationPerSweep` | backend/apps/api/middleware.py:191-209 | in every timely run the finished executions of a key are its finalized rows swept so far, plus the one still there |
| `Idempotency.ReplaysAreIdentical` | backend/apps/api/middleware.py:177-188 | from finalization until the sweep the row never changes and every replay returns its response, to a caller with its fingerprint |
| `Idempotency.ReplaysAreBacked` | backend/apps/api/middleware.py:177-188 | every replay was produced by a worker that finished the same request under the same key |
| `Idempotency.ReleaseRemovesOnlyOwnClaim` | backend/apps/api/middleware.py:212-230 | in a timely run a release removes only the releaser's own pending row |
| `Idempotency.SweepSparesClaimsInTime` | backend/apps/api/tasks.py:52-53 | a sweep leaves a live claim its row if and only if the claim is no older than the TTL |
| `Idempotency.LateClaimantCorruptsTheKey` | backend/apps/api/middleware.py:206-209 | a claimant that outlives the TTL shares its key with a second one and files its response under the other's fingerprint |
| `Idempotency.FingerprintInputIsInjective` | backend/apps/api/middleware.py:120-133 | equal hash inputs mean equal method, path and canonical body |
| `SnapshotDeltas.PostSummedSeries` | backend/apps/analytics/services.py:181-224 | the stateful loop returns exactly the row-by-row credits, with a key for each written day, and the newest capture |
| `SnapshotDeltas.Spread` | backend/apps/analytics/services.py:206-216 | an in-window first total adds an equal part to each day from publication to snapshot and nothing elsewhere |
| `SnapshotDeltas.FoldIsPerPost` | backend/apps/analytics/services.py:187-223 | the fold with its carried maximum credits what each post's own history is credited with, day by day |
| `SnapshotDeltas.HistoriesArePosts` | backend/apps/analytics/services.py:166-190 | in query order each group of rows is exactly one post's rows, one group per post |
| `SnapshotDeltas.PostCreditsAreItsGain` | backend/apps/analytics/services.py:191-223 | through any day a post has been credited its highest total so far less its anchor, or the elapsed part of its spread |
| `SnapshotDeltas.PostCreditsThrough` | backend/apps/analytics/services.py:191-223 | through any day a post is credited its greatest total so far, less the first one if it was published before the window, or before its first snapshot an equal part of that total for each day since publication |
| `SnapshotDeltas.DailyWhere` | backend/apps/analytics/services.py:197-223 | the days of the result: those of a spread first total, and those of a snapshot higher than all before it of its post |
| `SnapshotDeltas.CreditsAreGains` | backend/apps/analytics/services.py:181-224 | through any day of the window the credits of all posts add up to their gains by that day |
| `SnapshotDeltas.CreditsConserve` | backend/apps/analytics/services.py:181-224 | the window's credits are the posts' highest totals, less the first snapshot of each post that predates the window |
| `SnapshotDeltas.NetIsGreatestLessBaseline` | backend/apps/analytics/services.py:191-223 | what a post nets is its greatest total, less its first one when it was published before the window |
| `SnapshotDeltas.CreditsStayInWindow` | backend/apps/analytics/services.py:197-223 | every credit and every key of the result lies inside the window |
| `AnalyticsBundle.SeriesFor` | backend/apps/analytics/services.py:77-102 | 2·days values: for a metric with account rows the value of the last row of each day or zero, otherwise the post credits of the day where posts may stand in |
| `AnalyticsBundle.AccountBundle` | backend/apps/analytics/services.py:241-304 | every metric's series is its account rows overlaid by post credits where those are fresher or alone, and the freshness is the newest capture used |
| `AnalyticsBundle.BundleValues` | backend/apps/analytics/services.py:286-304 | day by day, a metric's value is that of its last account row of the day or zero, except that on days the posts write to it is their credit when the metric has no account row or some post row is fresher than all of them |
| `AnalyticsBundle.FreshnessIsNewest` | backend/apps/analytics/services.py:265-303 | the bundle's freshness is the newest capture of all account rows and of the post rows of the metrics that use them, and missing exactly when there is none |
| `AnalyticsBundle.GroupAccountRows` | backend/apps/analytics/services.py:265-275 | one pass yields each metric's day values and newest capture, and the newest overall |
| `AnalyticsBundle.FallbackSeriesConserves` | backend/apps/analytics/services.py:286-304 | without account rows a metric's series sums to what its posts netted in the window |
| `AnalyticsBundle.BundleAgreesWithSeries` | backend/apps/analytics/services.py:286-304 | the bundle and the one-metric query agree if and only if no fresher overlay changes a day of existing account rows |
| `DerivedCards.SplitIsAdjacent` | backend/apps/analytics/derive.py:38-46 | the two windows are adjacent: together the last 2·days values |
| `DerivedCards.WindowsByIndex` | backend/apps/analytics/derive.py:38-46 | the current window is the last `days` values, the previous one up to as many before them |
| `DerivedCards.HeadlineAddsUp` | backend/apps/analytics/derive.py:49-69 | a count's value is the sum of its window, a rate's times the window's length is, and zero on an empty window |
| `DerivedCards.ZeroDaysTakesEverything` | backend/apps/analytics/derive.py:38-46 | with zero days the current window is the whole list |
| `DerivedCards.CountWindowsAddUp` | backend/apps/analytics/derive.py:49-69 | a count card's value and its previous window add up to the 2·days series |
| `DerivedCards.AverageIsBetween` | backend/apps/analytics/derive.py:49-69 | a rate card's value lies between any bounds on the values it averages |
| `DerivedCards.DeltaRelatesWindows` | backend/apps/analytics/derive.py:57-63 | the change carries the previous value to the current one, and reads zero when the previous is zero |
| `DerivedCards.CardsConserveTotals` | backend/apps/analytics/derive.py:49-69 | end to end, a fallback count's two card windows add up to what the posts netted |
| `ApiTokens.ParseInvertsPrint` | backend/apps/api_keys/services.py:93-120 | parsing a printed token recovers its parts for every random part of 32 to 64 characters, underscores included |
| `ApiTokens.PrintInvertsParse` | backend/apps/api_keys/services.py:93-120 | an accepted string is the print of what was parsed from it |
| `ApiTokens.AcceptedAreExactlyPrinted` | backend/apps/api_keys/services.py:197-200 | the accepted strings are exactly the printed tokens |
| `ApiKeyStore.EditedPermissions` | backend/apps/api_keys/services.py:276-279 | after an edit a grantable permission is there exactly when it was requested, any other exactly when it was there before |
| `ApiKeyStore.VerdictExactly` | backend/apps/api_keys/services.py:345-383 | the row a request goes by (cached within 30 seconds, else the database's) is the verdict exactly when it is unrevoked, unexpired, has the token's hash and an issuer who is a member; and exactly which row is cached afterwards |
| `ApiKeyStore.NextRequestSees` | backend/apps/api_keys/services.py:345-361 | a request works from the current row if and only if no live cache entry holds another |
| `ApiKeyStore.RemovedKeysAreNoLongerHolders` | backend/apps/api_keys/signals.py:60-76 | a query made after a removal finds none of the keys that lost the account |
| `ApiKeyStore.Store.VerifyToken` | backend/apps/api_keys/services.py:331-383 | the verdict and the cache entry left behind, for every kind of key; with nothing cached, the key is accepted exactly when its row is unrevoked, unexpired, matches and has a member as issuer; other entries stay |
| `ApiKeyStore.Store.RevokeApiKey` | backend/apps/api_keys/services.py:289-300 | the row is revoked once, keeping an earlier revocation time, and its cache entry is gone |
| `ApiKeyStore.Store.UpdateApiKey` | backend/apps/api_keys/services.py:215-286 | an edit succeeds exactly under its four checks and otherwise changes neither row nor cache |
| `ApiKeyStore.Store.RemoveAccount` | backend/apps/api_keys/signals.py:60-68 | whatever stays cached after keys lose an account has not changed |
| `ApiKeyStore.Store.ClearAccount` | backend/apps/api_keys/signals.py:70-86 | clearing an account's links busts exactly the keys that held it, and whatever stays cached has not changed |
| `ApiKeyRuns.StepSafe` | backend/apps/api_keys/services.py:345-383 | every lookup, read, cache write, verdict, edit, bust and tick keeps each cached and held row in force at the moment it was read |
| `ApiKeyRuns.AcceptedRowsAreRecent` | backend/apps/api_keys/services.py:289-296 | in every run the row a request was accepted with was the database's within the last 30 seconds (plus twice the allowed delay), and at the verdict it has no revocation time, no expiry at or before then, and the token's hash |
| `ApiKeyRuns.AcceptsOnlyMembers` | backend/apps/api_keys/services.py:374-404 | a request is accepted only while the row's issuer is a member of its workspace |
| `ApiKeyRuns.AloneIsVerified` | backend/apps/api_keys/services.py:331-383 | run without interruption the four steps give the verdict and cache entry of one verification |
| `ApiKeyRuns.BustAfterCommitIsImmediate` | backend/apps/api_keys/services.py:297-300 | after commit then bust, with no request holding an older row, every later acceptance rests on the committed version or a newer one |
| `ApiKeyRuns.RevocationIsImmediate` | backend/apps/api_keys/services.py:289-300 | after committing a revoked, expired or deleted row and then busting, with no request holding an older row and no later commit, no request is accepted any more |
| `ApiKeyRuns.EarlyBustServesOldRow` | backend/apps/api_keys/services.py:281-285 | an edit that busts before it commits lets the request after the commit be accepted with the old row |
| `SyncCadence.PostSyncInterval` | backend/apps/analytics/tasks.py:41-61 | the table scan returns the interval of the post's age, and none from 90 days on |
| `SyncCadence.DueExactly` | backend/apps/analytics/tasks.py:594-624 | a published post is due exactly before day 90 when every snapshot of a counted metric is at least 1 hour, 6 hours, 1 day or 7 days old, by the post's age |
| `SyncCadence.AnnouncedExactly` | backend/apps/analytics/freshness.py:69-113 | the announced pair: the newest capture of all, and the interval after it or five minutes from now without one; no time from day 90 on, nothing for unpublished posts or platforms without analytics |
| `SyncCadence.IntervalNeverShrinks` | backend/apps/analytics/tasks.py:41-47 | an older post never has a shorter interval, and the stop is final |
| `SyncCadence.NotDueBeforeEta` | backend/apps/analytics/freshness.py:97-113 | with a snapshot and no exclusions a post is not due before its announced time |
| `SyncCadence.DueAtEtaUnlessSlower` | backend/apps/analytics/freshness.py:111-113 | it is due at that time if and only if the time is past or the post is still on its rung |
| `SyncCadence.NoEtaMeansNeverAgain` | backend/apps/analytics/freshness.py:103-108 | once no time is announced the post is never due again |
| `SyncCadence.EtaHoldsExactly` | backend/apps/analytics/tasks.py:616-624 | with excluded metrics the announcement holds if and only if the newest counted capture is still fresh at the last moment of the wait and at the end of each rung the post leaves during it |
| `SyncCadence.EtaHoldsIfCountedIsNewest` | backend/apps/analytics/tasks.py:616-624 | on one rung that means that the newest counted capture is the newest of all |
| `SyncCadence.AnnouncedButNeverSynced` | backend/apps/analytics/tasks.py:704-716 | a time is announced for posts never synced again exactly between the platform's window and 90 days, or at any age before that when the window is zero days |
| `SyncCadence.SyncsBy` | backend/apps/analytics/tasks.py:594-624 | a post has had at most the given number of syncs by each age |
| `SyncCadence.AtMost79Syncs` | backend/apps/analytics/tasks.py:594-624 | no run of due syncs of one post is longer than 79 |
| `SyncCadence.SeventyNineArePossible` | backend/apps/analytics/tasks.py:41-47 | a run of 79 due syncs exists |
| `RecurrenceDates.FromOrdinal` | backend/apps/calendar/tasks.py:159-160 | every day ordinal is a valid civil date of that ordinal |
| `RecurrenceDates.ComputeRecurrenceDates` | backend/apps/calendar/tasks.py:147-168 | the loop returns the steps up to the first past the end or the 180th, and none for an unknown frequency |
| `RecurrenceDates.DatesAreTheFirstTerms` | backend/apps/calendar/tasks.py:147-168 | the k-th date exists if and only if k is at most 180 and the k-th term is not past the end, and is that term |
| `RecurrenceDates.DatesAscend` | backend/apps/calendar/tasks.py:147-168 | the dates ascend strictly if and only if the interval is positive or there is nothing to repeat |
| `RecurrenceDates.DayTerms` | backend/apps/calendar/tasks.py:154-157 | the k-th daily or weekly date is k intervals after the base |
| `RecurrenceDates.MonthTerms` | backend/apps/calendar/tasks.py:158-159 | the k-th monthly date is k intervals of months on, on the least of the base day and the month lengths met |
| `RecurrenceDates.ShortestDayIsLeast` | backend/apps/calendar/tasks.py:158-159 | that day is the least of the base day and the lengths of the months stepped on, and one of them |
| `RecurrenceDates.YearStarts` | backend/apps/calendar/tasks.py:159-160 | the model's calendar is the Gregorian one: the closed form of the ordinal of every 1 January |
| `RecurrenceDates.MonthLengths` | backend/apps/calendar/tasks.py:159-160 | the twelve month lengths, February's by the leap rule |
| `RecurrenceDates.WeekdaysAreCivil` | backend/apps/calendar/services.py:65-71 | weekday numbers are those of the calendar, Monday being 0: the weekday of every 1 January, and each day's successor |
| `RecurrenceDates.JanuarySeriesDrifts` | backend/apps/calendar/tasks.py:158-159 | no later date of a monthly series begun on 31 January falls after the 29th |
| `RecurringPosts.RecurrenceJob.GenerateRecurringPosts` | backend/apps/calendar/tasks.py:23-144 | a run adds exactly each rule's due clones, in order, stamps each rule with a scheduled source, and counts them |
| `RecurringPosts.DueExactly` | backend/apps/calendar/tasks.py:42-76 | a date is due exactly when it is one of the first 180 terms, after today, at most 90 days ahead and not past the rule's end, and no other post of the workspace with the source's caption is scheduled on it |
| `RecurringPosts.CloneInFull` | backend/apps/calendar/tasks.py:73-120 | a clone's workspace, caption, children's times and own time, the least of them or the series' time when there are none |
| `RecurringPosts.RunsAddTheDueClones` | backend/apps/calendar/tasks.py:69-120 | in any history of runs, additions and deletions a run keeps every post and adds exactly one clone for each due date, in order |
| `RecurringPosts.RulesRunInOrder` | backend/apps/calendar/tasks.py:31-34 | rules run one after the other, each on the posts the earlier ones left |
| `RecurringPosts.StampedExactly` | backend/apps/calendar/tasks.py:140-141 | exactly the rules with a scheduled source are stamped with the time of the run |
| `RecurringPosts.ClonesLandInSync` | backend/apps/calendar/tasks.py:73-120 | a clone keeps the series' time on its date if and only if the source is in sync with its children |
| `RecurringPosts.ClonesKeepOffsets` | backend/apps/calendar/tasks.py:91-113 | the gaps between a post's platforms carry over to every clone |
| `RecurringPosts.AtMostOneClonePerDate` | backend/apps/calendar/tasks.py:53-76 | over any runs, additions and deletions an unchanged synced source has at most one clone per local date |
| `RecurringPosts.RerunMakesNothing` | backend/apps/calendar/tasks.py:53-76 | for a source in sync with its children, a second run at the same moment makes no clone |
| `RecurringPosts.RerunRepeatsTheMissed` | backend/apps/calendar/tasks.py:53-120 | a second run at the same moment clones exactly the due dates on which no clone of the first run landed |
| `RecurringPosts.RerunMakesNothingExactly` | backend/apps/calendar/tasks.py:53-120 | a second run makes no clone if and only if every due date of the first is the local date of one of its clones |
| `RecurringPosts.UnscheduledChildrenRepeat` | backend/apps/calendar/tasks.py:95-120 | when no child has a time of its own, a second run makes all clones of the first again |
| `RecurringPosts.UnscheduledChildClonedTwice` | backend/apps/calendar/tasks.py:95-120 | a concrete daily rule whose child has no time clones the next day on both runs |
| `RecurringPosts.LateChildClonedTwice` | backend/apps/calendar/tasks.py:95-120 | a concrete weekly rule whose child is a day late clones the next week's date on both runs |
| `RecurringPosts.ZeroIntervalFloods` | backend/apps/calendar/tasks.py:147-168 | an interval of zero makes 180 clones for one date in one run |
| `OpenSlots.GetCalendarSlotOccurrences` | backend/apps/calendar/views.py:214-302 | every cell of the grid lists exactly its open occurrences in order, and each post is marked if and only if it takes a shown slot |
| `OpenSlots.OccurrenceMembers` | backend/apps/calendar/views.py:253-284 | an occurrence is generated if and only if it is some slot's on a matching date of the range and falls on a visible date |
| `OpenSlots.ShownExactly` | backend/apps/calendar/views.py:227-284 | an occurrence is generated exactly for a slot and a date of its weekday from the day before the first visible date to the day after the last, shown at the display's date, hour and minute on a visible date, and marked past exactly when its instant is not after now |
| `OpenSlots.OpenExactly` | backend/apps/calendar/views.py:286-300 | open are exactly the generated occurrences in whose display minute no post of the channel sits |
| `OpenSlots.TakesExactly` | backend/apps/calendar/views.py:286-296 | a post takes a slot exactly when it sits in the display minute of a generated occurrence of its channel |
| `OpenSlots.CellMembers` | backend/apps/calendar/views.py:298-300 | a cell lists the occurrences of its date and hour |
| `OpenSlots.CellsKeepOrder` | backend/apps/calendar/views.py:298-300 | cells list untaken occurrences in the order generated, each as often |
| `OpenSlots.SlotsInOrder` | backend/apps/calendar/views.py:253-284 | occurrences are generated slot by slot |
| `OpenSlots.DatesInOrder` | backend/apps/calendar/views.py:249-255 | and for each slot by ascending date |
| `OpenSlots.OpenIsNeverOccupied` | backend/apps/calendar/views.py:286-300 | on unfiltered posts, a slot shown as open is never an instant the scheduler counts as occupied |
| `OpenSlots.OpenSlotBoundsNextAvailable` | backend/apps/calendar/services.py:127-141 | an open slot of the coming 60 days bounds the scheduler's next free slot, which therefore exists |
| `OpenSlots.OpenAndTakenAreAll` | backend/apps/calendar/views.py:286-300 | open and taken occurrences together are the shown ones, each once |
| `OpenSlots.NothingIsMissed` | backend/apps/calendar/views.py:231-233 | when display dates are within a day of workspace dates, every occurrence on a visible date is shown |
| `OpenSlots.CompleteWithinADay` | backend/apps/calendar/views.py:231-233 | for fixed offsets the one-day widening shows everything if and only if the zones are at most 24 hours apart |
| `OpenSlots.DisplayIsAClock` | backend/apps/calendar/views.py:255-259 | the display at a fixed offset shows date, hour and minute as a clock does |
| `RateLimit.Limiter.IncrementAndCheck` | backend/apps/accounts/middleware.py:100-110 | the counter afterwards, and the refusal, in all three cases: added, incremented, expired in between |
| `RateLimit.OutcomesAreWindowed` | backend/apps/accounts/middleware.py:100-110 | windows are disjoint 60-second spans, ranks count up within one, and a request is refused exactly past the limit |
| `RateLimit.RefusedPastTheLimit` | backend/apps/accounts/middleware.py:100-110 | a request is refused exactly when its window has by then counted more requests than the limit, refused ones included |
| `RateLimit.LimitPerWindow` | backend/apps/accounts/middleware.py:100-110 | at most the limit pass per window, over every arrival sequence |
| `RateLimit.LessThanTwiceTheLimit` | backend/apps/accounts/middleware.py:100-110 | at most 2·limit − 1 requests pass in any 60 seconds |
| `RateLimit.TwiceTheLimitLessOneIsReached` | backend/apps/accounts/middleware.py:100-110 | for every limit some arrivals make 2·limit − 1 requests pass within two seconds, so the bound is reached |

## Left out

- One reading of the clock per queue operation: the code calls `timezone.now()` again inside some of them, so a slot may pass between two readings.
- Daylight-saving gaps and folds: the order of wall times is a hypothesis (`PostingSlots.WellFormed`, `RecurringPosts.StaysOnDate`); the time-zone database is not part of this model.
- `reschedule_post` sets any time without an occupancy check; it is outside the booking invariant, which is why runs start from a distinct state instead of assuming one.
- Scheduler.QueueScheduler.Prioritize: equality with the loop-free form is stated from a distinct start only; from a double-booked start the code's dictionary keeps an arbitrary one of two equal instants.
- QueueReorder.ReorderTwiceMovesNothing: for distinct ids, and about instants and parents; positions are rewritten as the code does and not compared.
- Clearing a post's proposed publish time when it is scheduled, the default queue and slots of a new channel, and the publisher itself.
- Deadlock and database isolation: the channel lock makes each queue operation one step.
- SHA-256, HMAC and JSON canonicalization are functions of their input; that digests do not collide is not needed for what is proved.
- ApiKeyRuns.AcceptedRowsAreRecent: the key's activity, hash and membership checks of one request are one step; the code makes them one after another.
- Issuing a key, its permission and account checks, and the debounced last-used stamp: each is one guarded write, with no property across calls.
- Failing syncs, provider calls and the account-level cadence; a failed sync writes no snapshot and does not count.
- Rounding of analytics floats: values are reals, and a change is stated before it is rounded. The engagement-rate card is not modelled.
- Uniqueness of snapshots per post, metric and day is not needed: equal days are allowed.
- Clones' media, captions per platform and other copied settings; edits of a clone after it was made.
- Other rules' clones and other posts enter a rule's run as arbitrary additions; what two rules with the same caption do to each other's series is not stated.
- Dates after the year 9999, where the original's date type overflows.
- Connection status, channel filters and labels of the calendar grid; the cell's composer link.
- The limiter's client address and path rules, and a cache whose increment resets the expiry.
- Approvals, notifications, media, comments and all views other than the slot grid.
