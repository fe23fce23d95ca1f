# Verified model of the Pulsyr backlog manager

This project models the algorithms and state machines that remain of Pulsyr once the web layer,
the ORM and SQL are taken away, and proves what they keep. A database table is a map or a
sequence of rows, a committed transaction is one atomic step, and a history is a sequence of
such steps in any interleaving. Code that updates rows in place is a class whose methods are
proved to take exactly the step that the lemmas reason about.

| file | models |
|---|---|
| `Precedence.dfy`, `Listing.dfy` | the precedence order of items (Kahn's algorithm with a priority key) and the pages cut from it |
| `Lifecycle.dfy`, `Items.dfy` | the status table, status changes with their audit trail, blocking derived from the graph |
| `JobQueue.dfy`, `Worker.dfy` | the leased job queue: every interleaving of enqueues, claims, finishes, crashes, cancellations, reclaims |
| `Calendar.dfy`, `Gantt.dfy` | the proleptic Gregorian calendar, ISO weeks, the week-then-month axis, bars, the marker for today |
| `Plan.dfy`, `Rollup.dfy` | the plan-task forest, its upserts and removals; rolled-up dates and the depth-first rows |
| `Paddle.dfy` | the mirror of Paddle subscription events |
| `Documents.dfy` | append-only deliverable versions under a storage quota |
| `RateLimit.dfy` | the fixed-window rate limiter and its pruning |
| `Archive.dfy` | week-boundary pagination of the archive |
| `AccountPlans.dfy` | the account plans and their storage limits |
| `Options.dfy`, `Sequences.dfy`, `Sorting.dfy`, `Text.dfy` | option and result types; the slice `s[:n]`; stable sorting, distinctness, multisets, string order; stripping strings |

## Where the code and its documentation differ

The model follows the code. Six statements made by comments, tests or design notes hold only
under a condition, and the model proves which:

- `topological_order` promises `len(order) == len(node_ids)`. With an id given twice this holds
  exactly when every repeated id is on a cycle or after one (`Precedence.LengthExact`); it fails on
  the ids a, a without arcs (`Precedence.RepeatedIdIsLost`). Both callers
  (`app/items/service.py:329`, `app/ui/router.py:432`) pass primary keys, so only a direct call
  with a repeated id meets the failure.
- `close_item` promises the items this closure unblocked. Re-closing a closed item reports
  items that nothing was blocking (`Items.RecloseMisreports`); `Items.CloseReport` has the exact condition.
- `upsert_plan_task` caps the hierarchy at three levels but looks only at the moved task, not at
  what hangs below it (`Plan.MovingSubtreeGoesDeeper`); `Plan.DepthKeptIff` says when the cap holds.
- The axis comment says months start at M4. They start at M4 or M5 (`Gantt.FirstMonthIsM4OrM5`
  says when); an axis from a 31 January starts them at M5 (`Gantt.MonthsFromM5`).
- `put_deliverable` promises that identical bytes are a no-op. The same put again is one exactly
  when the stripped name has at most 200 characters and the compartment's at most 120
  (`Documents.PutAgain`); a longer name is stored cut, not found again, and refused as a duplicate
  (`Documents.LongNameIsRefused`).
- The archive's fetch cap, when it cuts a week, hides the rest of that week from every page:
  501 items closed at one instant are enough (`Archive.BusyWeekIsCut`). `Archive.WalkShowsAllIff`
  has the exact condition on the sizes of the weeks.

## Model

| member | source | states |
|---|---|---|
| `Precedence.LeastTopologicalOrder` | app/items/graph.py:209-247 | On an acyclic graph with distinct ids the result is a topological order, and no topological order comes before it lexicographically under (descending impact, id) |
| `Precedence.HasCycleExact` | app/items/graph.py:242-247 | has_cycle is true if and only if the precedence graph restricted to the given ids has a directed cycle |
| `Precedence.CycleNodesExact` | app/items/graph.py:231-247 | cycle_nodes holds exactly the nodes on a cycle or reachable from one |
| `Precedence.OrderIsPermutation` | app/items/graph.py:206-245 | For distinct ids the order is a permutation of the ids, cycles or not |
| `Precedence.EdgesGoForward` | app/items/graph.py:202-245 | Every precedence edge not wholly inside cycle_nodes goes from an earlier to a later position |
| `Precedence.EdgeMeans` | app/items/graph.py:214-223 | A pair is an edge if and only if both ids are given and the first blocks the second or the second requires the first |
| `Precedence.DependenciesGoForward` | app/items/graph.py:202-245 | With distinct ids, what blocks an item or is required by it comes before it, unless both are cycle nodes |
| `Precedence.GreedyByImpact` | app/items/graph.py:225-240 | At each place comes an item with the most impact, then the least id, among those whose dependencies have all come |
| `Precedence.LeftoversByImpact` | app/items/graph.py:242-245 | Cycle nodes come in descending impact, then by id |
| `Sorting.StringLeqIs` | app/items/graph.py:226-227 | Ids compare as Python strings do: a prefix first, otherwise the first difference decides |
| `Precedence.OrderCount` | app/items/graph.py:231-245 | How often each id comes out: once if it is on or after no cycle, otherwise as often as it went in |
| `Precedence.LengthExact` | app/items/graph.py:207-245 | The documented length invariant holds if and only if every id given more than once is a cycle node |
| `Precedence.RepeatedIdIsLost` | app/items/graph.py:207-245 | The ids a, a without arcs give an order of length one |
| `Precedence.OrderDependsOnGraph` | app/items/graph.py:209-247 | The result depends only on the ids, the set of normalized edges between them and their impacts, not on how ids or arcs are listed |
| `Precedence.ArcPresentationIrrelevant` | app/items/graph.py:214-223 | Permuting or repeating arcs, adding other relations, or writing `requires` B to A for `blocks` A to B changes nothing |
| `Precedence.BuildGraph` | app/items/graph.py:211-223 | Adjacency and in-degrees agree with the normalized edge set, repeated arcs counted once |
| `Precedence.Release` | app/items/graph.py:234-238 | Lowering the in-degrees of an emitted node's successors keeps them equal to the remaining predecessors, and yields exactly the nodes that became available |
| `Precedence.KahnLoop` | app/items/graph.py:229-240 | The loop over the sorted ready list emits, step by step, the least available node |
| `Precedence.TopologicalOrder` | app/items/graph.py:197-247 | The whole function returns the reference order and cycle nodes that the theorems are about |
| `Listing.ListTopological` | app/items/service.py:430-435 | The topological branch returns the requested slice of the rank-sorted candidates |
| `Listing.OrderedIsOrder` | app/items/service.py:323-356 | Sorting rows by their rank reproduces the precedence order itself and is a permutation of the rows |
| `Listing.PagesConcatenate` | app/items/service.py:434-435 | Consecutive offset/limit pages concatenate to the list from the first offset on |
| `Listing.PageIs` | app/items/service.py:434-435 | A page is the limit entries from the offset on, as far as there are any |
| `Listing.CandidatesAreNewest` | app/items/service.py:431-432 | At the ceiling of 1000 no row left out is newer than one taken in |
| `Listing.ImpactsOfRows` | app/items/service.py:328-328 | The order runs on the rows' own impacts, a missing one counting as 0 |
| `Listing.PagesCoverOrder` | app/items/service.py:430-435 | Turning pages walks the candidates in precedence order, each exactly once; that is every row if and only if there are at most 1000, and exactly 1000 of them otherwise |
| `Listing.RowOrderIrrelevant` | app/items/service.py:430-433 | What the pages show does not depend on the order in which rows or arcs come from the database |
| `Items.CloseReport` | app/items/service.py:68-100 | A successful close reports without repeats, and its query on the new state equals (blocked before) minus (blocked after) minus the item if and only if the item was open, or every open item it blocks has another open blocker |
| `Items.ClosingOpenItemReportsFreed` | app/items/graph.py:80-129 | Closing an open item reports exactly the items it freed |
| `Items.RecloseMisreports` | app/items/service.py:78-94 | A closed item can be closed again and then reports an item that was not blocked |
| `Items.ReopenRestoresBlocking` | app/items/service.py:68-114 | Closing an open item only shrinks the blocked set, and reopening it restores exactly the set from before |
| `Items.ReopenIsMoveToBacklog` | app/items/service.py:47-53 | Moving a closed item to backlog leaves the same row as reopening it, closed_at cleared |
| `Items.RequestOutcome` | app/items/service.py:38-114 | A request is granted exactly when the table and the kind of request allow it; then its item alone changes: status, closing time and commit reference as asked, title and other references kept; refused, nothing changes |
| `Items.RefusedBecause` | app/items/service.py:41-105 | Each refusal has its own cause |
| `Items.CloseRecords` | app/items/service.py:87-99 | A close appends its own event with actor and reason, then one unblocked_by event for each freed item with who freed it |
| `Lifecycle.EnteredFrom` | app/items/lifecycle.py:10-27 | The table read the other way: where each status can be entered from, and that exactly the terminal ones lead to backlog alone |
| `Items.BlockedMeaning` | app/items/graph.py:65-129 | The blocked set agrees with the per-item blocker query: open, and some open item blocks it |
| `Items.RunIsAudited` | app/items/service.py:38-114 | In every run closed_at is set exactly on terminal items, and replaying the audit trail from the initial status gives the current one through legal changes or re-closes only |
| `Items.StepReplays` | app/items/service.py:54-114 | The events one request appends replay from the old status to the new one |
| `Items.ItemService.ApplyTransition` | app/items/service.py:38-59 | The in-place transition takes exactly the modelled step, errors included |
| `Items.ItemService.CloseItem` | app/items/service.py:62-100 | The in-place close takes exactly the modelled step: status, closing time, the commit among the references, the event with its reason, and one unblocked_by event for each freed item |
| `Items.ItemService.ReopenItem` | app/items/service.py:103-114 | The in-place reopen takes exactly the modelled step |
| `JobQueue.InvInEveryRun` | app/jobs/worker.py:34-207 | In every run, stale finishes included: at most job_queue_max_active active rows per project, at most one active row per project, kind and ref, leased_until set iff running, finished_at set iff ok or error |
| `JobQueue.StepKeepsInv` | app/jobs/worker.py:43-205 | Each single transaction keeps that invariant |
| `JobQueue.EmptyQueueInv` | app/jobs/worker.py:34-40 | An empty queue satisfies it |
| `JobQueue.EnqueueReport` | app/jobs/worker.py:54-89 | A single enqueue adds a row exactly when the work is not active and there is room, is refused only with the queue exactly full, and finds at most one duplicate, although the count stops at the cap; the row waits, stamped with the time, and carries the work asked for |
| `JobQueue.ActiveAreUnfinished` | app/jobs/worker.py:34-40 | What counts against the capacity is every job neither ok nor in error |
| `JobQueue.EarliestFit` | app/jobs/worker.py:103-120 | When not all fit, the refs accepted are the ones asked for first |
| `JobQueue.EnqueueStepServes` | app/jobs/worker.py:43-129 | After an enqueue every ref asked for is active, or the queue is exactly full |
| `JobQueue.PlainEnqueueStep` | app/jobs/worker.py:71-89 | An enqueue without a ref adds one active row, or leaves the queue exactly full |
| `JobQueue.OldestFirst` | app/jobs/worker.py:149-155 | In every run, no job is claimed while one enqueued earlier, or at the same time with a lesser id, waits unlocked |
| `JobQueue.StatusMovesInTimelyRuns` | app/jobs/worker.py:132-205 | In such runs a row's status moves only from pending to running, and from running to pending, ok or error |
| `JobQueue.BulkReport` | app/jobs/worker.py:92-129 | Bulk counts add up over the unique refs, a prefix of the inactive refs is accepted, capacity_reached says exactly that not all fit and then the queue is exactly full, otherwise every ref is active afterwards |
| `JobQueue.RowsNeverDisappear` | app/jobs/worker.py:43-205 | No row is ever removed |
| `JobQueue.ReclaimLeavesNoExpired` | app/jobs/worker.py:132-141 | After a reclaim no running row has an expired lease, and no other row changed |
| `JobQueue.ReclaimExclusiveIffTimely` | app/jobs/worker.py:132-141 | A reclaim keeps job ownership exclusive if and only if no live handler is past its lease |
| `JobQueue.StepKeepsExclusive` | app/jobs/worker.py:144-205 | Every other transaction keeps ownership exclusive unconditionally |
| `JobQueue.ExclusiveInTimelyRuns` | app/jobs/worker.py:144-205 | In runs where no handler outlives its lease at a reclaim, at most one live worker holds a job, and its row is running under that worker's lease |
| `JobQueue.ExclusiveIffTimely` | app/jobs/worker.py:132-205 | From an exclusive start, every state of a run is exclusive if and only if no handler is past its lease at any reclaim |
| `JobQueue.FinalRowsStay` | app/jobs/worker.py:185-205 | In such runs a row in ok or error never changes again |
| `JobQueue.LateHandlerBreaksOwnership` | app/jobs/worker.py:200-204 | Without the timing hypothesis: two workers hold one job and a late failure overwrites an ok |
| `Worker.AgentRuns.EnqueueJob` | app/jobs/worker.py:43-89 | Adds a pending row stamped with the time, returns an active duplicate, or fails with the queue full, and changes nothing else |
| `Worker.AgentRuns.EnqueueJobs` | app/jobs/worker.py:92-129 | Inserts the accepted refs and returns the three counts that BulkReport is about |
| `Worker.AgentRuns.ReclaimExpiredLeases` | app/jobs/worker.py:132-141 | Returns exactly the expired running rows to pending and counts them |
| `Worker.AgentRuns.ClaimNext` | app/jobs/worker.py:146-164 | Claims the row created first, then of least id, among the pending ones not locked by another transaction: running, leased, cleared of finish time and error; returns nothing only if there is none |
| `Worker.AgentRuns.RecordOk` | app/jobs/worker.py:200-204 | Writes ok, result and finish time over whatever the row says, and clears the lease |
| `Worker.AgentRuns.RecordError` | app/jobs/worker.py:185-195 | Writes status error, the message and finish time over whatever the row says, if it still exists |
| `Worker.AgentRuns.RequeueCancelled` | app/jobs/worker.py:174-182 | Returns the row to pending only if it still says running |
| `Calendar.GregorianIsRegular` | app/management/gantt.py:26-35 | The Gregorian months are a regular calendar, one whose months have 28 to 31 days and hold every day: the axis theorems are proved for all of these |
| `Calendar.HelpersAreGregorian` | app/management/gantt.py:26-35 | First of month, last of month and next month, computed with monthrange, are the month boundaries of that calendar |
| `Calendar.MonthUnique` | app/management/gantt.py:26-35 | On a regular calendar a day lies in exactly one month |
| `Calendar.YearOfMonth` | app/management/gantt.py:57-74 | Year numbers counted by years and by months agree |
| `Calendar.YearStartClosedForm` | app/management/gantt.py:30-35 | Years have 365 days and a leap day every fourth year, except every hundredth, except every four hundredth |
| `Calendar.NewYear2024` | app/management/gantt.py:22-23 | 2024 began on a Monday |
| `Calendar.IsoWeekOne` | app/ui/router.py:1164-1169 | ISO week 1 of a year holds 4 January |
| `Calendar.IsoWeekNext` | app/ui/router.py:1164-1169 | A week later in the same ISO year the number is one higher |
| `Calendar.IsoWeekRoundTrip` | app/ui/router.py:1164-1248 | Formatting a day's ISO week and parsing the key back gives the Monday of that week (section 4.1.4 of ISO 8601:2004) |
| `Gantt.WeeklyRegion` | app/management/gantt.py:49-61 | The weekly loop stops after exactly as many weeks as reach the end, at most twelve |
| `Gantt.MonthlyRegion` | app/management/gantt.py:63-76 | The monthly loop terminates and yields exactly the months after the last week up to the one that holds the end |
| `Gantt.NextMonthColumn` | app/management/gantt.py:69-76 | One turn of the loop: the column of the month that begins on the day reached, numbered from the start's month, and the next first of the month |
| `Gantt.HeaderGroups` | app/management/gantt.py:78-84 | The header is the run-length encoding of the columns' periods: read back it gives them, spans add up, neighbours differ |
| `Gantt.BuildAxis` | app/management/gantt.py:38-86 | build_axis computes the closed form of the axis and the run-length header of its periods, spans positive and neighbours different |
| `Gantt.WeeksShape` | app/management/gantt.py:49-61 | Weekly columns are contiguous Monday weeks numbered from 1, the first holding the start |
| `Gantt.MonthsShape` | app/management/gantt.py:63-76 | Monthly columns come only after twelve weeks, are whole contiguous months and are numbered consecutively |
| `Gantt.AxisOrdered` | app/management/gantt.py:47-76 | Columns are never empty or overlapping and run strictly forward |
| `Gantt.FirstMonthIsM4OrM5` | app/management/gantt.py:65-75 | The first month column is numbered 4 or 5, and 4 exactly when the twelve weeks end before the third month after the start's begins |
| `Gantt.MonthsFromM5` | app/management/gantt.py:65-70 | An axis from 31 January of year 1 numbers its first month column 5 |
| `Gantt.AxisReachesEnd` | app/management/gantt.py:63-76 | The last column reaches the end if and only if the end is not between the twelfth week and the next first of the month; there the twelve weeks are all |
| `Gantt.NoSpareColumn` | app/management/gantt.py:51-76 | Every column but the first starts on or before the end |
| `Gantt.HeadedByPeriod` | app/management/gantt.py:54-74 | A week is headed by the year and month its Monday is in, a month by the year it is in |
| `Gantt.GregorianAxis` | app/management/gantt.py:38-86 | The axis on the Gregorian calendar is ordered, reaches the end exactly outside the gap, and numbers its months from 4 or 5 |
| `Gantt.BarGeometry` | app/management/gantt.py:105-126 | The in-order scan finds the first column ending on or after the start and the last one starting on or before the end |
| `Gantt.BarCoversTask` | app/management/gantt.py:105-126 | A bar exists exactly for tasks touching the window, stays inside the columns and spans exactly the columns the task meets, or the one after the gap when it meets none |
| `Gantt.UndatedHasNoBar` | app/management/gantt.py:109-132 | Without a start or an end there is no bar, without a date no milestone |
| `Gantt.BarOnAxis` | app/management/gantt.py:105-126 | On a built axis a task meeting no column lies in the gap after the twelfth week and gets the single column after it |
| `Gantt.OnlyGap` | app/management/gantt.py:63-76 | Neighbouring columns touch everywhere except between the twelfth week and the first month |
| `Gantt.MilestoneIndex` | app/management/gantt.py:129-138 | Finds the first column holding a day inside the window |
| `Gantt.WindowHidesNothing` | app/management/gantt.py:131-138 | The window check never hides a column that holds the day |
| `Gantt.MilestoneIsHeld` | app/management/gantt.py:129-138 | On ordered columns a milestone is placed on a column if and only if that column holds its day |
| `Gantt.TodayFraction` | app/management/gantt.py:89-102 | Computes the marker position that TodayInside and TodayAdvances are about |
| `Gantt.TodayInside` | app/management/gantt.py:89-102 | The marker is defined exactly for days some column holds and lies strictly between 0 and 1 |
| `Gantt.TodayAdvances` | app/management/gantt.py:89-102 | The marker moves strictly right as days pass, across columns too |
| `Gantt.TodayEvenly` | app/management/gantt.py:98-101 | Within a column the marker moves by equal steps, a day's share of the column each, and mirror days lie equally far from its edges |
| `Plan.ChainUp` | app/management/service.py:537-547 | On a forest the guarded walk up is the true path of ancestors, root last |
| `Plan.UpsertVerdict` | app/management/service.py:558-611 | An upsert is accepted if and only if progress and dates are in range, the parent is in the project, at most two levels deep and not below the moved task, the task exists there or else has a name that is not blank, and the columns can hold the values |
| `Plan.UpsertColumns` | app/management/service.py:577-611 | An accepted upsert writes one row: on an existing task each column given and no other, on a new one what was given and the defaults, names stripped |
| `Plan.UpsertFailsBecause` | app/management/service.py:558-603 | Each error of an upsert has its cause |
| `Plan.UpsertKeepsForest` | app/management/service.py:550-613 | An upsert keeps an acyclic forest with each tree inside one project and shifts the levels of the moved subtree only; a refused one changes nothing |
| `Plan.RemoveKeepsForest` | app/management/service.py:616-624 | A removal with its cascade keeps a forest and every remaining task's level |
| `Plan.RemoveColumns` | app/management/service.py:616-624 | A removal takes exactly the task and its descendants and leaves every other row as it was |
| `Plan.ForestInEveryRun` | app/management/service.py:550-624 | Every run of upserts and removals keeps the forest |
| `Plan.ProjectRowsLevelling` | app/management/service.py:514-519 | One project's rows of the shared table are a forest of their own, each task as deep as in the whole table |
| `Plan.DepthKeptIff` | app/management/service.py:563-571 | On a plan within three levels an accepted upsert keeps it so if and only if it moves no task or the moved subtree fits below the new parent |
| `Plan.ThreeLevelsMovingLeaves` | app/management/service.py:550-624 | Runs that reparent only leaves never exceed three levels |
| `Plan.MovingSubtreeGoesDeeper` | app/management/service.py:567-571 | A phase with a task moved under another phase's task is accepted and reaches level four |
| `Plan.PlanService.UpsertPlanTask` | app/management/service.py:550-613 | The in-place upsert takes exactly the modelled step, with the same error for the same first failing check, and records one event exactly when it succeeds |
| `Plan.PlanService.RemovePlanTask` | app/management/service.py:616-624 | The in-place removal takes exactly the modelled step and records one event exactly when it succeeds |
| `Plan.Cascade` | app/management/service.py:622-622 | Deleting children of deleted rows until none is left deletes exactly the task's subtree |
| `Rollup.EffectiveStartIsExplicit` | app/management/gantt.py:151-168 | A rolled-up start is always an explicit start of some task in the same subtree |
| `Rollup.PlanStartIsEarliestExplicit` | app/management/gantt.py:175-182 | Rolling up never moves the plan's start: the earliest effective start is the earliest explicit one |
| `Rollup.Renderer.PlanBounds` | app/management/gantt.py:175-182 | From the rows in any order: the earliest explicit start and the latest rolled-up end, None exactly when there is none |
| `Rollup.BoundsOf` | app/management/gantt.py:180-182 | The minimum and maximum over the recorded dates are those bounds |
| `Rollup.EffectiveDates` | app/management/gantt.py:151-168 | A task keeps its own dates; a missing start is the earliest and a missing end the latest among its children's effective dates; a milestone ends where it starts |
| `Rollup.DatedTasksGetBars` | app/management/gantt.py:185-211 | On the plan's own axis a task with effective start not after its effective end gets a bar if and only if it does not begin after week twelve of a plan ending in the gap |
| `Rollup.EachTaskOnce` | app/management/gantt.py:193-215 | plan_rows emits each task of the forest exactly once |
| `Rollup.RowsArePreorder` | app/management/gantt.py:193-215 | Each row is directly followed by its whole subtree, and its level is its number of ancestors plus one |
| `Rollup.PlansRenderInEveryRun` | app/management/service.py:512-624 | After every run of upserts and removals on the shared table, every project's plan lists each of its tasks once, in preorder, at its depth in the table, siblings in order |
| `Rollup.RowsShowTheirTasks` | app/management/gantt.py:193-214 | Column by column: a row carries its task's name, progress and flags, its effective dates, its depth and the position of the phase above it; a milestone its place and no bar, any other task its bar and no place |
| `Rollup.DatedRowsShowBars` | app/management/gantt.py:193-211 | In the rows of a plan on its own axis, a task with dates in order that is no milestone shows a bar if and only if it does not begin after week twelve of a plan ending in the gap |
| `Rollup.SiblingsInRowOrder` | app/management/gantt.py:146-147 | Of two tasks with the same parent the one first by (sort_order, name, id) has the earlier row |
| `Rollup.IndexedForest` | app/management/gantt.py:143-147 | Indexing a forest's rows by parent, in any order, gives the sorted children lists rendering relies on |
| `Rollup.Renderer.BuildIndex` | app/management/gantt.py:143-147 | Appending then sorting gives every parent its children in order |
| `Rollup.Renderer.Index` | app/management/gantt.py:141-172 | The index and every task's effective dates, from the rows in any order |
| `Rollup.Renderer.Compute` | app/management/gantt.py:151-168 | The memoizing recursion terminates, returns the effective dates and records them for the whole subtree and nothing else |
| `Rollup.Renderer.ComputeAll` | app/management/gantt.py:155-164 | The loop over siblings yields their earliest start and latest end and records their subtrees |
| `Rollup.Renderer.RollUpRoots` | app/management/gantt.py:170-172 | Rolling up the roots records every task's effective dates |
| `Rollup.Renderer.Emit` | app/management/gantt.py:193-211 | Appends exactly the subtree's rows |
| `Rollup.Renderer.EmitRoots` | app/management/gantt.py:213-215 | Emitting phase by phase yields all rows, each phase's with its ordinal |
| `Rollup.Renderer.PlanRows` | app/management/gantt.py:185-215 | plan_rows, from the rows in any order, indexes them, rolls them up and yields the list of rows the theorems are about |
| `Paddle.RunMirrorsFirstNewest` | app/accounts/plans.py:123-180 | After any deliveries the row mirrors the first delivery among the newest known-status ones, or is untouched if there are none |
| `Paddle.RowSaysFirstNewest` | app/accounts/plans.py:114-180 | In the row's own columns: time and customer of the first of the newest known events; Free and active if it is a cancellation, otherwise its plan, suspended if paused and active if active, trialing or past due |
| `Paddle.KnownStatuses` | app/accounts/plans.py:114-120 | Exactly five statuses are known |
| `Paddle.OutcomeTellsRow` | app/accounts/plans.py:139-180 | What a delivery returns is what it did: unknown status or stale and nothing changed, or applied and the row says so |
| `Paddle.DeliveryOrderIrrelevant` | app/accounts/plans.py:123-180 | With distinct times, any order and any repeats leave the same plan, status, customer and event time |
| `Paddle.OrderIrrelevantIff` | app/accounts/plans.py:151-154 | Delivery order never matters if and only if the newest known-status events agree on what they say |
| `Paddle.TimeAdvances` | app/accounts/plans.py:151-178 | The mirrored event time never goes back |
| `Paddle.RedeliveryIsNoOp` | app/accounts/plans.py:151-154 | Delivering any earlier event again changes nothing, pointer included |
| `Paddle.PointerExact` | app/accounts/plans.py:156-176 | The pointer is s if and only if some applied non-cancellation about s is followed only by applied cancellations of other subscriptions |
| `Paddle.CancellationClearsOnlyIts` | app/accounts/plans.py:157-172 | An applied cancellation clears the pointer to its own subscription, keeps any other, and drops the account to Free |
| `Paddle.ApplyPaddleSubscription` | app/accounts/plans.py:123-180 | The in-place update, on an existing or a new row, takes exactly the modelled delivery |
| `RateLimit.RetryReachesNextWindow` | app/auth/rate_limit.py:66-84 | retry_after lies in 1..window and waiting it out lands in the very next window |
| `RateLimit.WindowHolds` | app/auth/rate_limit.py:66-69 | Windows are aligned to multiples of their length and hold the instant |
| `RateLimit.BucketIs` | app/auth/rate_limit.py:66-81 | A call counts in the bucket of its own action, key and window |
| `RateLimit.PruneForgets` | app/auth/rate_limit.py:86-90 | A prune forgets exactly the windows that started longer ago than the retention |
| `RateLimit.ExactDecision` | app/auth/rate_limit.py:65-90 | A call is allowed if and only if fewer than limit calls came before it in its window, whatever was pruned when |
| `RateLimit.PruningInvisibleIff` | app/auth/rate_limit.py:86-90 | The pruned store decides every call like one never pruned, in all runs with a given window length, if and only if that length is within the retention |
| `RateLimit.EarlyPruneForgets` | app/auth/rate_limit.py:86-90 | A window longer than the retention lets a call through that an unpruned store refuses |
| `RateLimit.AllowedPerWindow` | app/auth/rate_limit.py:66-84 | In each aligned window exactly min(attempts, limit) calls are allowed |
| `RateLimit.AtMostTwiceTheLimit` | app/auth/rate_limit.py:66-84 | No interval as long as the window lets more than twice the limit through |
| `RateLimit.DatabaseRateLimiter.ConsumeBucket` | app/auth/rate_limit.py:56-84 | The upsert counts one attempt in the aligned window's bucket and decides on the new count |
| `RateLimit.DatabaseRateLimiter.PruneBuckets` | app/auth/rate_limit.py:86-90 | Deletes exactly the buckets whose window started before the cutoff |
| `Documents.HistoryInEveryRun` | app/management/service.py:221-341 | In every run, plan changes included, versions are numbered exactly 1..current_version and no version row is changed or removed |
| `Documents.AuditInEveryRun` | app/management/service.py:276-340 | In every run the created and version_added events of a deliverable are as many as its versions |
| `Documents.PutEffect` | app/management/service.py:221-316 | A put adds exactly one version, charged in full to the project's account and no other and within its plan, or adds none and changes no usage; a failed one changes nothing |
| `Documents.PutColumns` | app/management/service.py:245-316 | Every successful put, table by table: an existing deliverable takes the status, owner and summary given and the type, keeping the rest; a new one starts as draft unless told otherwise; the version row carries the bytes, digest, MIME type and note; compartment and events as written |
| `Documents.MimeTypes` | app/management/service.py:247-247 | The MIME type kept with a version is the canonical one of its type |
| `Documents.PutFailsBecause` | app/management/service.py:228-307 | Each error of a put has its cause in the upload or the tables |
| `Documents.PutVerdict` | app/management/service.py:228-316 | A put succeeds if and only if name and compartment are not blank, type and status are known, the size is in range, the compartment exists once or can be created, and the bytes can be stored there |
| `Documents.StoreVerdict` | app/management/service.py:249-316 | In a known compartment a put is skipped if and only if the deliverable of that name has those bytes by digest, and stores a version if and only if the bytes are new, the plan has room, a version number is left and no other deliverable has the cut name |
| `Documents.RollbackVerdict` | app/management/service.py:319-337 | A rollback succeeds if and only if the project has the deliverable, the number is one of 1..current_version, the plan has room for those bytes again and a number is left |
| `Documents.PutThenRead` | app/management/service.py:202-316 | A read after a put that added a version returns the bytes put; after a skipped put it returns what it returned before, whose digest is that of the bytes put |
| `Documents.PutThenReadSameBytes` | app/management/service.py:246-299 | If the digest has no collisions, a read after any successful put returns the bytes put |
| `Documents.PutAgain` | app/management/service.py:221-299 | Right after a successful put, the same put again is skipped if and only if the stripped name has at most 200 and the stripped compartment name at most 120 characters; otherwise it fails |
| `Documents.LongNameIsRefused` | app/management/service.py:249-266 | With a name of 201 characters the second put fails |
| `Documents.NamesFitInEveryRun` | app/management/service.py:75-265 | In every run stored names fit their columns, which is all PutAgain asks of the table |
| `Documents.RollbackEffect` | app/management/service.py:319-341 | A rollback makes the current content that of the source version as one new version, leaves the source readable, and is charged like any other version |
| `Documents.RollbackColumns` | app/management/service.py:319-341 | A rollback writes the source's content, size, digest and type as the next version, noted as restoring it, with its event, and nothing else |
| `Documents.RollbackFailsBecause` | app/management/service.py:323-330 | Each error of a rollback has its cause |
| `AccountPlans.StorageInBytes` | app/accounts/plans.py:52-72 | The storage limits of the plans in bytes |
| `Text.LowerMeans` | app/management/service.py:252-252 | Names compare equal if and only if they differ at most in the case of ASCII letters |
| `Text.StripMeans` | app/management/service.py:228-228 | Stripping takes all blanks off both ends and nothing else |
| `Documents.DocumentService.ResolveCompartment` | app/management/service.py:59-79 | Finds the project's compartment of that name or creates it, exactly as modelled |
| `Documents.DocumentService.ReviseDoc` | app/management/service.py:280-316 | Metadata first, then a new version if the content changed: exactly the modelled step when it succeeds, the same error otherwise |
| `Documents.DocumentService.PutDeliverable` | app/management/service.py:221-316 | The in-place put, its compartment, metadata, version and events included, takes exactly the modelled step; an error rolls everything back |
| `Documents.DocumentService.RollbackDeliverable` | app/management/service.py:319-341 | The in-place rollback takes exactly the modelled step |
| `Archive.IsoWeeksAreWeekly` | app/ui/router.py:1164-1169 | ISO week keys of closing days follow each other in time and name the week that starts at their Monday midnight |
| `Archive.RegistroPage` | app/ui/router.py:1227-1260 | The handler builds the page, the next cursor and the undated tail that the walk is made of |
| `Archive.PageShows` | app/ui/router.py:1233-1260 | A page shows a prefix of the remaining items; its cursor is the start of the last shown item's week; undated items appear exactly when there is no cursor; the cap cuts a week exactly when the next item is of the same week |
| `Archive.PageIsFull` | app/ui/router.py:1237-1238 | A page has at most 12 weeks and 500 items, and fewer of both only when nothing is left |
| `Archive.RowsSplit` | app/ui/router.py:1227-1258 | Every closed item is dated by its closing time, or undated |
| `Archive.DayHolds` | app/ui/router.py:1164-1169 | A day is 86400 seconds |
| `Archive.NextCursor` | app/ui/router.py:1240-1248 | The next page starts right after the shown items, and later exactly when the cap cut a week |
| `Archive.WalkFollowsCursor` | app/ui/router.py:1227-1248 | Each page of the walk is the one the server returns, over the whole table, for the previous page's cursor |
| `Archive.WalkEnds` | app/ui/router.py:1240-1260 | The walk terminates; only its last page shows undated items and has no cursor |
| `Archive.WalkShowsAllIff` | app/ui/router.py:1227-1260 | Following the cursor shows every dated item exactly once, newest first, if and only if filling pages with whole weeks, twelve at most and 500 items at most, never runs out of room inside a week; otherwise it shows fewer |
| `Archive.SizesAreOfGroups` | app/ui/router.py:1234-1236 | The week sizes that condition reads are those of the groups |
| `Archive.BusyWeekIsCut` | app/ui/router.py:1159-1161 | With 501 items closed at one instant the walk shows fewer than all |
| `Archive.WalkWeeksDescend` | app/ui/router.py:1156-1158 | Whatever the cap does, no week is shown twice or out of order |
| `Archive.FewMeansNoPageCuts` | app/ui/router.py:1159-1161 | If no 12 consecutive non-empty weeks hold more than 500 items, no page runs out of room inside a week |
| `Archive.ArchiveComplete` | app/ui/router.py:1185-1260 | On such data the handler's walk from the first page, by ISO weeks, visits every dated closed item exactly once, splits or repeats no week, and ends with all undated items, newest first |

## Left out

- SQL, row and advisory locks, isolation levels and the ORM's identity map: a locked read-then-write or a single commit is one atomic step, and the rows that `skip_locked` passes over are an arbitrary set.
- Failed calls: the error leaves the function and its transaction is rolled back by the caller, so a failed step changes nothing.
- Clocks: every step takes the instant as a parameter; one clock is shared by all workers and replicas.
- Job handlers: an arbitrary step that succeeds, raises, is cancelled or dies with its worker; their own writes and the metrics are not modelled.
- Deletion of a project or account, which cascades to jobs, documents and plan tasks.
- Dates after 9999-12-31, where Python raises OverflowError: the calendar here goes on.
- Floating point: `today_fraction` is over the reals, so strictness is exact arithmetic, not rounding.
- The text form of archive week keys: a key is the pair (year, week); years before 1000, whose label the source could not parse back, are treated like any other.
- Parsing of the `before` cursor: an unparsable cursor is the first page, as the caller passes none.
- Search, scope and type filters of the archive, and the order among items closed at the same instant.
- Item ids are compared as strings in the precedence order; elsewhere ids are numbers standing for UUIDs, whose text order is their numeric order.
- Listings by impact, priority or recency, the neighbourhood and subgraph queries, unblocker ids and the per-project form of the blocked set: no further property.
- Comments and the item columns that no status change reads; source references that are not a dictionary count as empty.
- Items.RunIsAudited: speaks of runs from states where closed_at already matches; items created directly in a terminal status are not covered.
- Documents.DocumentService.PutDeliverable: lower-casing of names is that of ASCII letters; the creator column, event payloads other than the ids and names kept, and the length limit of the owner column are not modelled.
- Renaming or moving a deliverable (`update_deliverable`), which writes no version.
- Plan.PlanService.UpsertPlanTask: the database's refusal of over-long names and of sort orders outside SMALLINT is one error, NotStorable.
- Admin change of a plan (`update_subscription`), which rewrites the plan without an event time and is no webhook delivery.
- The project, member and token guards of the plans: the storage guard is the one that a history depends on.
- Hashing of rate-limit keys and the settings that choose limits, windows and retention.
- Routing, templates, sessions, sign-in, language models, embeddings, webhooks' signatures, migrations and scripts: I/O or foreign libraries.
