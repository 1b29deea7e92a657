# DeployPro: a verified model of its decision logic

DeployPro builds and runs web projects on one host. This project models the
parts of it that decide something (which job slot is due, which build starts
next, what production points at, which container is killed and when, which
image is deleted, what a log reader sees) and proves what those decisions keep
over every input, every run and every stop in between.

`dafny verify dfyconfig.toml` checks everything.

## How it is laid out

| file | what it models |
|---|---|
| `Wrappers.dfy`, `Sets.dfy` | options and results, and sizes of sets |
| `Calendar.dfy`, `Search.dfy`, `Schedule.dfy`, `LookAhead.dfy` | the Gregorian calendar, the cron engine's two searches, and how far ahead they reach |
| `ScheduleText.dfy`, `CronGrammar.dfy`, `Text.dfy` | parsing a cron expression, exactly which ones are accepted, and the string operations of Python it rests on |
| `JobRuns.dfy`, `SlotProtocol.dfy`, `JobHistory.dfy`, `Scheduler.dfy`, `SweptSlots.dfy` | the `job_runs` table, every interleaving of what happens to it, what its rows say, the sweep that fills it as a run of those steps, and which slots a run of sweeps enqueues |
| `Deployments.dfy`, `DeployQueue.dfy`, `BuildHistory.dfy` | the deployments table as a build queue, every interleaving of callers and workers, and what its rows say |
| `Routing.dfy`, `Promotion.dfy`, `RouteHistory.dfy`, `PromotionHarm.dfy`, `PromotionCases.dfy`, `Promote.dfy` | the route file, promotions and refreshes as steps that can stop anywhere, what the route holds after any run, exactly when they harm what is served, runs in which they do, and the code that takes the promotion's steps |
| `Naming.dfy`, `Docker.dfy`, `Draining.dfy`, `Workers.dfy` | names that carry meaning, the daemon's containers, drains as commands that can overlap or stop anywhere, and worker reconciliation |
| `Retention.dfy`, `JobOutput.dfy`, `BuildLogs.dfy`, `Alerting.dfy` | the image sweep, the kept end of a job's output, the buffered log and its reader, alert latching |
| `BuildSecret.dfy`, `BuildArgs.dfy` | the files variables are written to and how a shell and Docker read them, and build arguments |

Objects whose fields change are classes with those fields; their methods are
proved equal to functions on values, and the laws are proved about the
functions. Protocols are step relations: each SQL statement, file write and
Docker command of a promotion, a refresh or a drain is one step, and anything
may happen between two of them. Where several are one step, "Left out" says so.

Time is counted in minutes from 1 January of year 1 for schedules, in seconds
for leases, and as a real number for draining. A row id, a container id and a
project are natural numbers. Text is ASCII.

## What was found

Where the code and a property one would expect of it part, the model follows
the code, and a lemma says exactly when the property holds.

* A slot fires once if and only if finished runs are kept for at least the
  25-hour catch-up window, the rest of a minute and the longest lag of an
  insert. The default of 30 days is ample; the one day the configuration admits
  is not (`FiresOnceIff`, `OneDayIsTooShort`).
* `next_slot` finds every real schedule from 2001 to 28 February 2096. A day
  later `0 0 29 2 *` is reported as never running, because 2100 is no leap year
  (`FiveYearBound`, `LeapDayOutOfReach`; for any instant, `InReachIff`).
* A weekday range that ends in 7 is refused as backwards when it starts on any
  of the days 1 to 6, and is Sunday alone when it starts at 0 or 7
  (`RangeToSevenIsBackwards`). The complaint that a field matches nothing
  cannot occur (`NeverMatchesNothing`).
* A draining deadline is cut to a whole second, so a container can lose up to
  the last second of its grace, exactly when it was asked to stop at a moment
  that is not a whole second (`CutIsEarlyIff`).
* A container that is draining keeps its deadline through later drains, except
  one that had inspected it before it was renamed: that one renames it again and
  moves the deadline (`DrainingStep`, `DeadlineIsKept`, `OverlapMovesDeadline`).
* Worker names of two projects can coincide (`blog` with `api-mailer`, `blog-api`
  with `mailer`); reconciling one then removes the other's worker outright
  (`WorkerNamesCollideIff`, `OthersAreLeftIff`).
* Route and pointer can part in two more ways than a stop between the two
  writes: a refresh of the domains that writes in that window, or for a
  production it read before the pointer moved, and a promotion that does not
  publish because it read a background service. They are apart exactly when the
  route was last written for another deployment than production, from a list
  with a verified domain (`ApartIff`, `ApartHasCause`, and step by step
  `StepPartsIff`).
* Only those two can make a reclaim drain the deployment being routed to, or
  leave the route naming one that was reclaimed (`DrainsSpare`,
  `RoutedIsNotRetired`; the exact conditions are `DrainsRoutedIff`,
  `RefreshDrainsRoutedIff` and `LateRefreshIff`, and `PromotionCases.dfy` has a
  run for each).
* The docstring of `promote` says that reconciliation repairs a route that is
  ahead of the pointer. The code has no such step. A refresh that nothing
  interrupts brings the two together, by putting the old route back
  (`RefreshRepairs`), and so does a promotion, unless it read a background
  service; then only when it promotes what the route was last written for
  (`PromotionRepairsIff`).
* A refresh or a promotion writes the route from domains it read a moment
  earlier, so a removed domain can be routed again (`LateListRoutesRemoved`). A
  host is routed exactly when it was verified as the list behind the last write
  was read (`RoutedHostsIff`); if the domains were not changed since, the route
  is exactly what they ask for (`RouteIsCurrent`).
* A reclaim that stops between draining a container and detaching it leaves a
  deployment that a later rollback takes for running (`WarmButDyingIff`,
  `RollbackServesDying`).
* A job that prints exactly 64,000 bytes is told that earlier output was
  trimmed, though none was (`HeadingIsRightIff`).
* `mark_built` on a row whose lease was reclaimed in the meantime is refused by
  the table's check on leases.

## Model

| member | source | states |
|---|---|---|
| Calendar.DateOfOrdinal | deploypro/domain/schedule.py:100-115 | the calendar the cron fields are read against: a day number gives back exactly the date it was computed from, for every Gregorian date |
| Calendar.OrdinalOfDate | deploypro/domain/schedule.py:100-115 | the other direction: every day number is that of its date, so days and dates correspond one to one |
| Calendar.DaysFollow | deploypro/domain/schedule.py:100-115 | the days of a month follow one another |
| Calendar.MonthsFollow | deploypro/domain/schedule.py:100-115 | every month of every year ends on the day the wall calendar says, and the day after is the first of the next month or year |
| Calendar.WeekdaysFollow | deploypro/domain/schedule.py:108-109 | 1 January 2024 is a Monday, and each day is followed by the next day of the week |
| Calendar.WeekdayCounts | deploypro/domain/schedule.py:108-109 | the weekday of any day is counted off from Sunday 7 January 2024 |
| Schedule.MatchesByParts | deploypro/domain/schedule.py:100-115 | a minute is named exactly when its clock time is named and its date could be; the two date tests of the code agree, the union rule included |
| Schedule.DateRule | deploypro/domain/schedule.py:108-115 | a day field left as a star has no say in the date, and of two that are restricted either will do |
| Schedule.WeeklyNames | deploypro/domain/schedule.py:100-115 | a schedule of some weekdays names exactly the days that far from a dated Sunday |
| Schedule.WeeklyRecurs | deploypro/domain/schedule.py:100-115 | it names the same minutes every seven days |
| Schedule.DayCannotMatch | deploypro/domain/schedule.py:154-169 | when a date cannot match, no minute up to the next midnight is named, so skipping the day loses nothing |
| Schedule.DueSlotIsLatest | deploypro/domain/schedule.py:117-136 | the due slot is the latest named minute of the last 25 hours, or there is none in them |
| Schedule.DueSlot | deploypro/domain/schedule.py:117-136 | the backward loop returns that slot |
| Schedule.NextSlotIsEarliest | deploypro/domain/schedule.py:138-159 | the next slot is the earliest named minute strictly after the instant, or the look-ahead holds none |
| Schedule.NextSlot | deploypro/domain/schedule.py:138-159 | the loop that skips whole days terminates and returns what a minute-by-minute search returns |
| LookAhead.EveryYearIsInReach | deploypro/domain/schedule.py:71-74 | a schedule that names a date every year has is never reported as never running, whatever the year |
| LookAhead.FiveYearBound | deploypro/domain/schedule.py:71-74 | from 2001 to 28 February 2096 the next slot exists if and only if the schedule names a real date, 29 February included |
| LookAhead.InReachIff | deploypro/domain/schedule.py:138-159 | for any instant at all, the next slot exists if and only if the schedule names a date every year has, or one of its minutes on a leap day is within the look-ahead |
| LookAhead.LeapDayOutOfReach | deploypro/domain/schedule.py:71-74 | the bound is sharp: on 29 February 2096 a schedule of leap days is reported as never running |
| ScheduleText.Parse | deploypro/domain/schedule.py:172-200 | parsing with its field loop gives the specified schedule or complaint, whose meaning AcceptedMeans and RefusedIs state |
| ScheduleText.AcceptedMeans | deploypro/domain/schedule.py:172-202 | every accepted expression names a minute exactly when its fields name the minute, hour and month and, for the date, the weekday field does if the day field is a star, the day field if the weekday field is, and either if neither is |
| ScheduleText.StarNamesAll | deploypro/domain/schedule.py:20-26 | a star names 0 to 59, 0 to 23, 1 to 31, 1 to 12 and 0 to 6 |
| ScheduleText.RefusedIs | deploypro/domain/schedule.py:172-187 | a refusal is the first complaint there is: nothing there, not five fields, or that of the first field that does not parse |
| ScheduleText.ExpressionMeans | deploypro/domain/schedule.py:172-259 | whatever an expression's writer means by its five fields, with any spaces and capitals, it is accepted and names exactly those minutes |
| CronGrammar.ChunkIff | deploypro/domain/schedule.py:202-259 | a chunk is accepted if and only if it is in the grammar of values, names, ranges and steps, and names exactly what that form of it names |
| CronGrammar.BadShapeIff | deploypro/domain/schedule.py:202-217 | the complaint about a chunk's shape is made exactly when nothing comes before a slash, or something other than digits comes after one |
| CronGrammar.ZeroStepIff | deploypro/domain/schedule.py:219-223 | and that about its step exactly when its digits are all zero |
| CronGrammar.AcceptedIff | deploypro/domain/schedule.py:172-259 | an expression is accepted if and only if, trimmed, in small letters and with an alias written out, it has five words and every chunk of each is in its field's grammar |
| CronGrammar.AcceptedNames | deploypro/domain/schedule.py:155-259 | whatever is accepted names a minute exactly when readings of its fields do, by the rule for the day and the weekday |
| ScheduleText.AliasMeans | deploypro/domain/schedule.py:56-65 | every alias names the first minute of its year, month, Sunday, day or hour and no other |
| ScheduleText.ParseField | deploypro/domain/schedule.py:205-211 | the union loop over the chunks of one field gives the specified set or complaint |
| ScheduleText.ParsedIsWellFormed | deploypro/domain/schedule.py:172-211 | every accepted expression has non-empty fields with every value in range, and a field left as a star holds every value |
| ScheduleText.NeverMatchesNothing | deploypro/domain/schedule.py:205-239 | no chunk that parses is empty, so the complaint that a field matches nothing is never made |
| ScheduleText.ChunkMeans | deploypro/domain/schedule.py:214-259 | a printed star, value, range or stepped form of any of them, with numbers, names of months or weekdays, or 7 for Sunday, is read back as the values its writer meant |
| ScheduleText.FieldMeans | deploypro/domain/schedule.py:205-259 | a comma-separated field of such chunks names exactly what some chunk of it names |
| ScheduleText.NormalisedParsesBack | deploypro/domain/schedule.py:172-200 | the normalised text a schedule keeps parses to that very schedule again |
| ScheduleText.RangeIffForward | deploypro/domain/schedule.py:214-259 | a range of two valid ends, by name or number, is accepted if and only if it does not run backwards, and then has those ends |
| ScheduleText.RangeToSevenIsBackwards | deploypro/domain/schedule.py:214-259 | for every start and with or without a step, a weekday range to 7 is refused as backwards exactly from 1 to 6, is Sunday alone from 0 or 7, and is out of range from beyond |
| JobRuns.JobRunTable.ClaimSlot | deploypro/repositories/processes.py:169-204 | a slot already taken changes nothing and returns none; a new one adds exactly one row with a fresh id |
| JobRuns.JobRunTable.ClaimNextRun | deploypro/repositories/processes.py:207-228 | takes a pending row with the earliest slot among those no other transaction holds locked, and none only when there is none |
| JobRuns.JobRunTable.FinishRun | deploypro/repositories/processes.py:231-254 | records the outcome of that run only, whatever its status was |
| JobRuns.JobRunTable.ReclaimAbandonedRuns | deploypro/repositories/processes.py:265-287 | fails exactly the running rows whose lease is too old, and returns them |
| JobRuns.JobRunTable.DeleteOldRuns | deploypro/repositories/processes.py:306-323 | deletes exactly the expired rows and counts them |
| JobRuns.DeletedIff | deploypro/repositories/processes.py:306-323 | a row goes exactly when its slot is out of date, it is over, and its process has a later run; pending and running ones never do |
| JobRuns.LatestIsRetained | deploypro/repositories/processes.py:306-323 | a process that has any run keeps its latest one through every deletion, and it stays the latest |
| SlotProtocol.StepKeepsInv | deploypro/repositories/processes.py:169-323 | every step keeps the invariant: a slot ever enqueued has its row until it is out of the catch-up window, and a slot ever started has no pending row |
| SlotProtocol.FiresOnceIff | deploypro/engine/scheduler.py:23-66 | over every interleaving of sweeps, manual runs, claims, finishes, crashes, reclaims and deletions each slot starts at most once, if and only if retention outlasts the catch-up window |
| SlotProtocol.TooShortFiresTwice | deploypro/repositories/processes.py:306-323 | with any shorter retention, a run in which one slot starts twice |
| SlotProtocol.OneDayIsTooShort | deploypro/config.py:260 | the one day the configuration admits is too short, and two days are enough for inserts up to 22 hours late |
| JobHistory.RowsAreOk | deploypro/repositories/processes.py:169-287 | over every run a row is leased exactly while it is running, says when it was over exactly once it is, and was not started while it is pending |
| JobHistory.SweptRowIs | deploypro/engine/scheduler.py:40-57 | over every run the row a sweep adds can be claimed if and only if the sweep found a production, and is over as skipped otherwise |
| JobHistory.StartedWasQueued | deploypro/engine/scheduler.py:40-57 | over every run a slot is started only if a sweep queued it while its project served a deployment, or it was run by hand |
| JobHistory.ClaimIs | deploypro/repositories/processes.py:207-228 | over every run a claim takes an unlocked pending row of the earliest slot and makes it that worker's, running from then |
| JobHistory.ReclaimFailsIff | deploypro/repositories/processes.py:265-287 | over every run a reclaim fails exactly the running rows started too long ago, saying that the worker stopped responding |
| JobHistory.LostIff | deploypro/repositories/processes.py:307-326 | a row is lost only with its process, or by a deletion once it is over, out of date and not the last of its process |
| JobHistory.LastReportStands | deploypro/repositories/processes.py:231-254 | over every run a row still there records the status, exit code, detail, output and time of the last report of its run, whatever happened since |
| Scheduler.SweepOne | deploypro/engine/scheduler.py:34-66 | one process's turn adds a row for the latest minute its schedule named in 25 hours, unless that has one: queued with the deployment its project serves, or skipped and over if it serves none; and nothing else |
| Scheduler.TurnQueues | deploypro/engine/scheduler.py:34-57 | after its turn the latest minute a process's schedule named in 25 hours has its row |
| Scheduler.SweepAll | deploypro/engine/scheduler.py:23-66 | the loop takes those turns in order, each insert at its own time: every owed slot ends with its row, every new row is some process's due run, no row changes, and the count is of the new rows |
| Scheduler.SweptAllIs | deploypro/engine/scheduler.py:23-66 | afterwards every owed slot has its row, every new row is owed, and no row changed or was lost |
| Scheduler.TurnIsRun | deploypro/engine/scheduler.py:34-66 | after any run of the slot protocol, one turn within the lag is a possible continuation that leaves the same table |
| Scheduler.SweepIsRun | deploypro/engine/scheduler.py:23-66 | so is a whole sweep, so what holds of every run of the protocol holds of the sweep's code |
| SweptSlots.StepEnqueues | deploypro/engine/scheduler.py:34-66 | within the protocol a sweep enqueues its due slot unless it already was, a manual run its minute, and no other step anything |
| SweptSlots.EnqueuedIff | deploypro/engine/scheduler.py:34-66 | over every run, with claims, finishes, deletions and other processes in between, the slots ever enqueued for a process are exactly those its sweeps found due and those run by hand |
| SweptSlots.SweepsAreComplete | deploypro/engine/scheduler.py:34-66 | over every run whose sweeps of a process leave out no minute of a span, the slots enqueued are exactly the minutes named in it, the one owed when it began, and those run by hand |
| SweptSlots.NoGapsCover | deploypro/engine/scheduler.py:34-66 | sweeps in order that never jump by more than a minute leave out none |
| SweptSlots.PauseAddsAtMostOne | deploypro/domain/schedule.py:117-136 | over every run, a sweep after a pause of any length adds at most the latest slot named since every sweep before, if it is within 25 hours, and leaves it enqueued |
| Deployments.DeploymentTable.Create | deploypro/repositories/deployments.py:35-88 | the retry loop inserts one queued row numbered one above the highest, exactly when some attempt read the highest number |
| Deployments.DeploymentTable.PickNext | deploypro/repositories/deployments.py:138-162 | picks an unlocked queued row that no other comes before: production first, then the oldest |
| Deployments.NextIsFirst | deploypro/repositories/deployments.py:138-162 | no unlocked queued build of a production branch is passed over for a preview, and none of its own kind is older than the one picked |
| Deployments.DeploymentTable.ClaimNext | deploypro/repositories/deployments.py:129-162 | leases exactly that row |
| Deployments.DeploymentTable.SupersedeQueued | deploypro/repositories/deployments.py:247-278 | cancels exactly the older queued head builds of the branch |
| Deployments.SupersededExactly | deploypro/repositories/deployments.py:247-278 | a row changes if and only if it is an older queued push or manual build of the same branch; redeploys and rollbacks never do |
| Deployments.DeploymentTable.ReclaimAbandoned | deploypro/repositories/deployments.py:165-190 | fails exactly the rows in flight whose lease is too old |
| Deployments.DeploymentTable.MarkBuilt | deploypro/repositories/deployments.py:211-221 | records the image of a leased row, and is refused by the lease check for one that lost its lease |
| Deployments.DeploymentTable.MarkReady | deploypro/repositories/deployments.py:224-233 | records the container and readiness of that row only, whatever its status was |
| Deployments.DeploymentTable.MarkFailed | deploypro/repositories/deployments.py:236-244 | records the failure of that row only |
| Deployments.DeploymentTable.MarkCancelled | deploypro/repositories/deployments.py:281-289 | records the cancellation of that row only |
| Deployments.QueueDeploy | deploypro/engine/service.py:53-74 | queues a build exactly when some attempt read the highest number, with the given commit, branch and trigger and the next number; cancels exactly the queued head builds of the branch it replaces, and leaves it the only one queued |
| DeployQueue.StepAges | deploypro/repositories/deployments.py:129-289 | no transition re-enters the queue, and a build keeps its number, branch and trigger |
| DeployQueue.QueuedHeadIsNewest | deploypro/repositories/deployments.py:247-278 | two queued head builds of a branch coexist only while the newer one's supersede step is outstanding; otherwise the queued one is the newest ever created |
| DeployQueue.StartedOnce | deploypro/repositories/deployments.py:138-162 | over every interleaving, crashes and reclaims included, no build is started twice |
| DeployQueue.BoundedBypass | deploypro/repositories/deployments.py:138-162 | a waiting production build is overtaken by no preview and by at most as many builds as older production builds were queued, whatever other rows are locked |
| DeployQueue.PreviewBypass | deploypro/repositories/deployments.py:138-162 | a waiting preview is overtaken by production builds and by the previews queued before it, each once, and by no newer preview |
| BuildHistory.RowsAreOk | deploypro/repositories/deployments.py:129-289 | over every run a row is leased exactly while it is being built or deployed, a failed one says why in at most 2,000 characters, and a queued one has no image |
| BuildHistory.MarkIs | deploypro/repositories/deployments.py:211-289 | a report records its own row's state, image, container or error, and changes no other row |
| BuildHistory.RenewalIs | deploypro/repositories/deployments.py:193-302 | a heartbeat renews its own row's lease, a change of container records it, and neither touches anything else |
| BuildHistory.LastReportStands | deploypro/repositories/deployments.py:224-289 | over every run a build reported ready, failed or cancelled stays so, with that error, until the next report about it |
| BuildHistory.QueueIsOpen | deploypro/repositories/deployments.py:35-162 | the number after the highest can always be taken, one already there never, and a queued build that is not locked leaves one to claim |
| BuildHistory.CreateIs | deploypro/repositories/deployments.py:35-88 | a new build joins the queue under a fresh id with what it was asked for, numbered above its project's others, and no other row changes |
| BuildHistory.SupersedeIs | deploypro/repositories/deployments.py:247-278 | superseding cancels exactly the older queued head builds of the branch, naming the newer commit, and ends the newer build's claim to do so |
| BuildHistory.TakenOffIff | deploypro/repositories/deployments.py:129-289 | a step takes a queued build off the queue if and only if it claims it, reports about it, or cancels for a newer build of its branch what that replaces |
| BuildHistory.WaitsUntilTakenOff | deploypro/repositories/deployments.py:129-289 | over every run a queued build stays queued until one of those steps: none is lost |
| BuildHistory.ClaimIs | deploypro/repositories/deployments.py:129-162 | a claim leases one queued, unlocked row to its worker, and changes no other |
| BuildHistory.ReclaimFailsIff | deploypro/repositories/deployments.py:165-190 | a reclaim fails exactly the rows in flight whose lease was last renewed too long ago |
| Routing.RouteMeans | deploypro/engine/routing.py:17-52 | a route is written exactly when a domain is verified; it serves on a verified host, the primary one if that is verified, and redirects every other verified host once and no other |
| Routing.ServesVerified | deploypro/engine/routing.py:26-47 | a publication answers for exactly the verified hosts of the list it was made from, even if one is listed twice |
| Promotion.SurroundingsAre | deploypro/engine/routing.py:55-70 | deploys, failures, exits, settings and refreshes change what they say and neither the pointer nor a promotion under way |
| Promotion.InvHolds | deploypro/engine/promote.py:42-65 | the promotion invariant over every run, with a stop possible after any step, and deploys, exits, domain changes and refreshes, whose reads and writes are steps apart, in between |
| Promotion.ProvenWhenUp | deploypro/engine/launch.py:254-281 | a deployment counts as serving only with a container that passed its check and is running, or was started for this promotion and recorded |
| Promotion.RouteNamesProven | deploypro/engine/promote.py:42-47 | the route file only ever names a deployment proven serving before it was written |
| RouteHistory.RoutedHostsIff | deploypro/engine/routing.py:26-70 | over every run a host is routed if and only if it was a verified domain when the promotion or refresh that wrote last read its list |
| RouteHistory.RouteHasList | deploypro/engine/routing.py:26-70 | over every run there is such a list if the last write was for a deployment, and no route if it was for none |
| RouteHistory.RouteIsCurrent | deploypro/engine/routing.py:26-70 | with no change of domains since that list was read the route is exactly what the domains ask for |
| RouteHistory.WrittenAsPublished | deploypro/engine/routing.py:17-52 | over every run, unless something parted them and nothing healed it since, whenever there is a route or production it is exactly what domains the project had ask for production, or for what is promoted between the two writes |
| Promotion.PointerMoves | deploypro/engine/promote.py:42-47 | the pointer moves only to a deployment found ready and proven, and already routed unless a refresh rewrote the route since |
| RouteHistory.ApartIff | deploypro/engine/promote.py:45-47 | over every run, the route is not what goes with the pointer if and only if it was last written for another deployment and a domain was verified then |
| RouteHistory.ApartHasCause | deploypro/engine/promote.py:45-47 | if and only if, besides, a promotion is between its writes, or one stopped there or did not publish, or a refresh wrote late, with no write since that heals it |
| RouteHistory.StepPartsIff | deploypro/engine/promote.py:45-47 | for every step of every run, exactly whether the two are together after it |
| RouteHistory.RefreshRepairs | deploypro/engine/routing.py:55-70 | after any run an uninterrupted refresh writes what the domains ask for production, and the two are together |
| RouteHistory.PromotionRepairsIff | deploypro/engine/promote.py:42-47 | after any run an uninterrupted promotion leaves the two together if and only if it read a website, or promotes what the route was last written for, or no domain was verified then |
| Promotion.DrainsSpare | deploypro/engine/promote.py:104-121 | over every run no drain ever hits the production deployment, nor the routed one unless a refresh wrote late or a promotion did not publish |
| Promotion.RoutedIsNotRetired | deploypro/engine/promote.py:104-121 | over every run production is never a reclaimed deployment, and the route names one only after those same two causes |
| PromotionHarm.UninterruptedIs | deploypro/engine/promote.py:42-121 | from wherever it is, a promotion that nothing interrupts reaches its reclaim by its own steps, to drain exactly the deployments and with the route, its list and the pointer that its place determines |
| PromotionHarm.DrainsRoutedIff | deploypro/engine/promote.py:42-121 | an uninterrupted promotion, its container running or started for it, drains the routed deployment exactly when it read a background service and the route file names a deployment not kept warm |
| PromotionHarm.RefreshDrainsRoutedIff | deploypro/engine/routing.py:26-70 | a refresh that writes anywhere during a promotion makes it drain the deployment then routed exactly when it read that one as production, with a verified domain, and the promotion will not write the route any more |
| PromotionHarm.LateRefreshIff | deploypro/engine/routing.py:26-70 | a refresh leaves the route naming a reclaimed deployment exactly when it read that one as production, with a verified domain, before it was reclaimed |
| Promotion.WarmButDyingIff | deploypro/engine/promote.py:112-121 | a promotion takes a container already asked to stop for running exactly when an earlier drain of that container was cut off before it was recorded |
| PromotionCases.BackgroundDrainsRouted | deploypro/engine/promote.py:45-121 | a run in which a website becomes a background service and its next promotion drains the deployment its route file still names |
| PromotionCases.RefreshDrainsRouted | deploypro/engine/routing.py:55-70 | a run in which a refresh between the two writes makes a promotion drain the deployment the route then names |
| PromotionCases.LateRefreshDrainsRouted | deploypro/engine/routing.py:55-70 | a run in which a refresh that read production before an uninterrupted promotion writes after the pointer moved, with the same result |
| PromotionCases.LateRefreshRoutesRetired | deploypro/engine/routing.py:55-70 | a run in which that refresh writes after the promotion finished, and the route names a drained and detached deployment |
| PromotionCases.LateListRoutesRemoved | deploypro/engine/routing.py:26-47 | a run in which a refresh that read the domains before one was removed routes it again |
| PromotionCases.RollbackServesDying | deploypro/engine/promote.py:112-121 | a run in which a drain is cut off before it is recorded, and a rollback finds that container running |
| Promotion.WarmBound | deploypro/repositories/deployments.py:322-346 | after a reclaim the protected and the newest `keep` others are resident, every one kept is newer than every one stopped, and those stopped are ready with their images |
| Promote.PromotionLeaves | deploypro/engine/promote.py:104-127 | a completed promotion leaves resident exactly the new production and the newest others that were, as many as are kept warm |
| Promote.OthersLeft | deploypro/engine/promote.py:104-127 | as many other ready deployments keep their container as had one, up to the number kept warm; none does if none is kept |
| Promote.Site.EnsureServing | deploypro/engine/launch.py:254-281 | a running container is used as it is, else one is started, checked and then recorded, or nothing changes |
| Promote.Site.MovePointer | deploypro/engine/promote.py:45-47 | the domains read, the route written and the pointer set last, each a step after which a stop is allowed for |
| Promote.Site.Reclaim | deploypro/engine/promote.py:90-127 | detaches exactly the reclaimable deployments, each drained first |
| Promote.Site.Promote | deploypro/engine/promote.py:25-70 | succeeds exactly when the deployment is ready and can serve, takes the machine's steps, and leaves route, pointer and rows as specified, with no other container resident for a background service; a refusal has its exact reason and leaves all as it was |
| Promote.Site.Rollback | deploypro/engine/promote.py:73-87 | refuses exactly the deployment already serving as such, and for any other succeeds exactly when it is there, ready and can serve, with the outcome of a promotion |
| Naming.DeadlineReadsBack | deploypro/domain/storage.py:105-117 | the deadline read from a draining name is the one written, for every name that is more than slashes, and none for the others |
| Naming.DrainingIff | deploypro/domain/storage.py:105-120 | a name is a draining one exactly when something, the marker and at least one digit follow its leading slashes |
| Naming.DeadlineIs | deploypro/domain/storage.py:105-120 | its deadline is the number those digits write |
| Naming.DrainingNameInjective | deploypro/domain/storage.py:108-110 | two draining names are equal only for the same name and deadline |
| Naming.WorkerNamesCollideIff | deploypro/domain/naming.py:80-88 | worker names are distinct within a project, and between projects coincide exactly when slug and process joined by a hyphen do |
| Naming.TwoProjectsOneName | deploypro/domain/naming.py:80-88 | such a pair exists |
| Naming.WorkerNameIsNotDraining | deploypro/domain/naming.py:80-88 | a worker's own name is never read as a draining one |
| Naming.NamesLookLikeThis | deploypro/domain/storage.py:108-110 | draining and worker names look as documented |
| Naming.TagsAreShort | deploypro/domain/naming.py:59-67 | an image tag ends in the first twelve characters of the commit |
| Docker.Daemon.Drain | deploypro/adapters/containers.py:384-432 | renames a running container once, clears its restart policy and signals it; removes one not running; fails only on a taken name |
| Docker.DrainIsCommands | deploypro/adapters/containers.py:406-432 | that is the inspection and the commands of a drain, one after the other, with a stop of the container before the signal allowed for |
| Draining.SurroundingsAre | deploypro/adapters/containers.py:852-874 | what the host does by itself touches one container, or replaces the one whose name a worker takes, and no drain under way |
| Draining.DrainsAreGentle | deploypro/adapters/containers.py:406-432 | over every run, with drains that overlap or stop after any command, none removes a running container, and each signals only one that Docker would not start again |
| Docker.Daemon.SweepDraining | deploypro/adapters/containers.py:435-453 | removes exactly the draining containers that finished or are out of time, and counts both |
| Docker.SweptIff | deploypro/adapters/containers.py:435-453 | a container is taken exactly if it is the platform's, carries a deadline, and has stopped, as a finished one, or is past it, as a killed one; no other is touched |
| Docker.Daemon.RunWorker | deploypro/adapters/containers.py:852-874 | replaces whatever holds the name by one new running container |
| Draining.GraceIsGiven | deploypro/adapters/containers.py:384-453 | over every run a running container renamed by a drain, while no other one has it still to rename, lives on under its name and the deadline of that drain's inspection, even if the drain stops there, until it exits or the first sweep at the deadline removes it |
| Draining.DrainingStep | deploypro/adapters/containers.py:384-453 | a draining container is changed by its own exit, a sweep at or after its deadline, and a rename by a drain that inspected it before, which moves its deadline, and by no other step |
| Draining.DeadlineIsKept | deploypro/adapters/containers.py:384-453 | over every run a draining container that no drain has still to rename keeps its name and deadline through later drains, no earlier sweep removes it, and the first sweep at the deadline does |
| Draining.OverlapMovesDeadline | deploypro/adapters/containers.py:397-424 | a run, for any name and times, in which two drains of one container overlap and the later one moves the deadline |
| Draining.CutIsEarlyIff | deploypro/adapters/containers.py:397-397 | the deadline falls within the grace, by less than a second, exactly when the drain was not at a whole second |
| Draining.KilledEarlyIff | deploypro/adapters/containers.py:435-453 | a sweep kills within the grace exactly at such moments |
| Workers.WantedCount | deploypro/engine/processes.py:58-63 | one name per enabled worker and replica, no two alike |
| Workers.WantedIff | deploypro/engine/processes.py:58-63 | the names wanted are exactly the replicas of processes that are workers and enabled |
| Workers.WantedNames | deploypro/engine/processes.py:58-63 | the two loops over processes and replicas fill exactly that set |
| Workers.Reconcile | deploypro/engine/processes.py:39-97 | completes exactly when no new name is taken and an image is there for what is wanted, with every current worker drained and every wanted one started; otherwise says how far it got |
| Workers.WorkersAreExact | deploypro/engine/processes.py:39-97 | afterwards the project's worker containers that are not draining are exactly the wanted names, all new, running, restarted by Docker, owned by the platform and on the given image |
| Workers.WorkersFinish | deploypro/engine/processes.py:69-91 | every worker that was running runs on, same image, under the draining name that carries the end of its grace, or stopped by itself |
| Workers.OthersAreLeftIff | deploypro/adapters/containers.py:852-874 | a container of another project, of a site, or already draining is left alone if and only if it holds no wanted name |
| Workers.ApplyWorker | deploypro/engine/processes.py:100-135 | pausing drains every replica, resuming starts exactly the replicas not running on the production image, and other workers are untouched |
| Workers.PausedOrUp | deploypro/engine/processes.py:100-135 | a paused worker holds none of its names, and a resumed one is running under all of them |
| Retention.ImagesToKeep | deploypro/domain/retention.py:23-68 | the loops and sorts keep exactly the tags of deployments queued, building, serving, running, among the newest ready ones, or the newest failure |
| Retention.InUseIsKept | deploypro/domain/retention.py:23-68 | the image of a deployment queued, building, serving, with a container, among the newest ready ones or the newest failure is always kept |
| Retention.KeptIsInUse | deploypro/domain/retention.py:23-68 | and no tag is kept but that of such a deployment |
| Retention.KeptIsBounded | deploypro/domain/retention.py:23-68 | at most in flight, running, `keep` and two more are kept, however long the history |
| Retention.NewestReadyNeeded | deploypro/domain/retention.py:52-53 | a ready deployment with fewer than `keep` ready ones above it is always kept |
| Retention.ImagesToRemove | deploypro/domain/retention.py:71-86 | of the tags on the host, exactly those not kept for the project in their name are returned, as often as they are there, in order |
| Retention.SweepImages | deploypro/engine/housekeeping.py:88-103 | over all projects, exactly the tags no project needs are removed, those of deleted projects included |
| Retention.SweepSparesIff | deploypro/domain/retention.py:23-86 | a deployment's tag survives if and only if some deployment of the same commit in its project is needed |
| Retention.SlugOfImageTag | deploypro/domain/naming.py:59-67 | the project is read back from the tag of any slug without a colon |
| JobOutput.Take | deploypro/adapters/containers.py:1020-1028 | after each chunk the buffer is a suffix that has lost nothing the report needs, of at most 128,000 bytes |
| JobOutput.Collect | deploypro/adapters/containers.py:1017-1053 | however the output is cut into chunks, the report is that of collecting everything and cutting it at the end |
| JobOutput.ReportMeans | deploypro/adapters/containers.py:1047-1053 | the payload is the last 64,000 bytes, or everything if it is shorter |
| JobOutput.HeadingIsRightIff | deploypro/adapters/containers.py:1047-1051 | the heading is right about lost output except for an output of exactly the limit |
| BuildLogs.LogTable.LastLogSeq | deploypro/repositories/deployments.py:410-418 | the highest stored number, or 0 |
| BuildLogs.LogTable.AppendLogs | deploypro/repositories/deployments.py:373-391 | row by row, stores exactly the pending lines that follow what is stored |
| BuildLogs.LogWriter.Write | deploypro/engine/logs.py:51-60 | appends one line, on its stream, cut to its first 4,000 characters; stored rows and buffer stay exactly the lines written, numbered on; the buffer is flushed exactly at its fortieth line or after 0.4 seconds |
| BuildLogs.LogWriter.Flush | deploypro/engine/logs.py:70-74 | everything written is stored, numbered from 1 without a gap, and the buffer is empty |
| BuildLogs.Resume | deploypro/engine/logs.py:46-49 | a new writer numbers on from what is stored |
| BuildLogs.PageIsNext | deploypro/repositories/deployments.py:394-407 | a page after a cursor is exactly the next stretch of the log |
| BuildLogs.ReaderGetsPrefix | deploypro/engine/logs.py:39-74 | over every run with rows stored between reads and writers that crash, the reader has the first lines of the log, each once and in order |
| BuildLogs.LogIs | deploypro/engine/logs.py:39-74 | the log grows by what is written and shrinks only in a crash, by exactly the lines not stored by then |
| BuildLogs.FlushThenReadIsAll | deploypro/engine/logs.py:51-74 | after any past, one uninterrupted flush stores the whole log and one large enough read returns it |
| BuildLogs.ReadAdvances | deploypro/repositories/deployments.py:394-407 | a read returns all that is stored after the cursor, up to its limit |
| Alerting.StaysConsistent | deploypro/engine/monitor.py:181-224 | over every history of checks and readings of all keys, each alert is on exactly as that key's own history asks, its messages alternate, and there is one critical for each stretch of two or more failed checks |
| Alerting.LimitsAre | deploypro/engine/monitor.py:150-205 | over every history the alert about a Redis is on exactly while it was seen at 90 percent and not below 85 since, and a disk's by the limit set for disks |
| Alerting.ChecksAre | deploypro/engine/monitor.py:207-224 | over every history the alert about a site, a worker or a Redis is on exactly while its own last two checks failed |
| Alerting.ChecksAlternate | deploypro/engine/alerts.py:30-51 | messages alternate starting with critical, and the last is critical exactly while the last two checks failed |
| Alerting.OneCriticalPerStretch | deploypro/engine/monitor.py:207-224 | there is one critical message per stretch of two or more failed checks |
| Alerting.FullIff | deploypro/engine/monitor.py:181-205 | a disk's alert is on exactly when some reading at the limit has had none below the margin since |
| Alerting.HysteresisHolds | deploypro/engine/monitor.py:181-205 | between two critical messages the usage was seen more than five points below the limit |
| Alerting.GaugesAlternate | deploypro/engine/alerts.py:30-51 | the messages about a disk alternate, starting with critical |
| Alerting.Alerts.Fire | deploypro/engine/alerts.py:30-40 | sends exactly when the condition was not on, and turns it on |
| Alerting.Alerts.Resolve | deploypro/engine/alerts.py:42-51 | sends exactly when the condition was on, and turns it off |
| Alerting.Monitor.Record | deploypro/engine/monitor.py:207-224 | one check, with its strikes, moves the board as specified and keeps every key consistent |
| Alerting.Monitor.Measure | deploypro/engine/monitor.py:181-205 | one reading does so, and an unreadable disk changes nothing |
| BuildSecret.SpecificWins | deploypro/engine/environment.py:64-73 | the value for this environment beats the general one and both beat the platform's, in whatever order rows are read |
| BuildSecret.Collect | deploypro/engine/environment.py:49-73 | every key resolves so, and the values are split by whether they hold a line break |
| BuildSecret.Split | deploypro/engine/environment.py:114-122 | the two parts are disjoint, together the whole, and divided exactly by line breaks |
| BuildSecret.QuotedReadsBack | deploypro/engine/environment.py:125-127 | a shell reads a quoted value back whole, up to its line's end, whatever quotes, backslashes and newlines it holds |
| BuildSecret.SecretReadsBackIff | deploypro/engine/environment.py:97-105 | a shell that reads the written file sets exactly the map, if and only if no value holds a NUL |
| BuildSecret.EnvFileReadsBack | deploypro/engine/environment.py:108-111 | Docker reads the container's file back to exactly the values without line breaks |
| BuildSecret.CarriageReturnIsLost | deploypro/engine/environment.py:114-122 | a value that ends in a carriage return would lose it in that file, and is kept out of it |
| BuildArgs.Parse | deploypro/domain/build_args.py:28-64 | the parsing loop gives the specified ordered mapping or the first refusal |
| BuildArgs.LineMeans | deploypro/domain/build_args.py:34-61 | a line gives the trimmed texts on both sides of its first equals sign, nothing if it is blank or a comment, or the first complaint that applies |
| BuildArgs.SecretIff | deploypro/domain/build_args.py:67-71 | a name is refused as a secret exactly when, in capitals, it has one of the pairs anywhere or one of the words between underscores |
| BuildArgs.BreakEndsLine | deploypro/domain/build_args.py:35-35 | each line break ends the line before it, a carriage return and newline being one, and what follows is split by itself |
| BuildArgs.LastValueWins | deploypro/domain/build_args.py:33-61 | the mapping holds exactly the names given, each with the value of its last line |
| BuildArgs.OrderIsKept | deploypro/domain/build_args.py:61-61 | a further line never moves a name already given |
| BuildArgs.TextParsesBack | deploypro/domain/build_args.py:28-76 | what was accepted parses again from its stored text to the same names and values in the same order |
| BuildArgs.StorableIff | deploypro/domain/build_args.py:28-76 | the mappings that can be accepted are exactly the lists of distinct, trimmed, one-line, unsecret arguments up to the limits |

## Left out

- Instants before 1 January of year 1 plus 25 hours and after the year 9999, where `datetime` raises instead of answering.
- Scheduler.SweepAll: takes one reading of the clock for the whole sweep, as the code does, and the production of each project and the times of the inserts as given; a project deleted while the sweep runs is not modelled.
- SlotProtocol.FiresOnceIff: all steps share one clock; the longest lag between reading it and inserting a row is a parameter.
- Deployments.DeploymentTable.PickNext: `FOR UPDATE SKIP LOCKED` is the set of rows others hold locked, given to it, as it is to the claim of a run.
- Deployments.DeploymentTable.Create: the number each attempt reads is given to it, as a concurrent insert may leave any of them stale.
- DeployQueue.BoundedBypass: assumes that production branches stay fixed, that builds created later carry a later time, and that no other claim finds the waiting build itself locked.
- Promotion.DrainsSpare: promotions of one project are taken one at a time; the code holds no lock against two at once.
- Promotion.InvHolds: the project as re-read after the pointer moved, its kind and how much it keeps, is taken to be current when the reclaim asks. Starting a container and checking it are one step there, and so are the commands of a drain, which Draining takes apart, and a deploy up to its being ready. A container that Docker starts again after it exited is not modelled.
- Promote.Site.Rollback: the production its caller read is taken to be current.
- Promotion.PointerMoves: says that the deployment was ready when it was checked; an exception after the move marks the row failed, which is the step Fail.
- Promotion.ProvenWhenUp: what a health check or the settling of a background service consists of; a container already running is not checked again, as in the code.
- Removal of a whole project, of orphaned containers and of containers by name before a launch.
- Docker.Daemon.Drain: nothing else happens to the containers while it runs, but a stop of this one before its signal; other drains, sweeps and stops between its commands are Draining's. A restarting container counts as running, and the stop signal itself is not modelled.
- Docker.Daemon.SweepDraining: the containers listed at its start are visited in any order.
- Workers.Reconcile: names are visited in any order where the code sorts them; a container that stops while it runs is one that stops at its own drain.
- Draining.DeadlineIsKept: the listing and the removals of a sweep are one step, and so are clearing a name and starting a worker under it. A worker is never started under a name that reads as draining; Workers.NoneAreDraining shows it of the wanted names.
- A newline at the end of a container name, which the pattern for draining names would accept.
- Retention.ImagesToRemove: whether Docker then refuses a removal is not modelled.
- Retention.SweepImages: each project's listing is given whole, where the code reads its newest 10,000 deployments; no row changes while it runs.
- Retention.SweepSparesIff: recorded tags are those derived from the project and commit, as the build records them.
- JobOutput.Collect: how the output is cut into chunks and decoded is not modelled; characters are single bytes.
- BuildLogs.LogWriter.Flush: a database error while storing, and two writers of one log.
- BuildLogs.ReaderGetsPrefix: old logs are not deleted while they are read.
- Alerting.Monitor.Record: checks that yield nothing (a worker never started) are simply not made; how a message is delivered is not modelled.
- BuildSecret.SecretReadsBackIff: the lines come in any order where the code sorts them; expansions and operators outside quotes are outside the reader, which rejects them.
- BuildArgs.Parse: line breaks and letters beyond ASCII.
- Encryption, sessions, webhooks, the HTTP and command-line interfaces, framework detection, Dockerfile generation, backups and DNS: wrappers and presentation with no invariant of their own.
