# Verified model of keypooler's serve path

keypooler hands out provider API keys from a pool. This project models the part of it that decides which key is
served and what that costs, and proves what it keeps over whole runs:

- **The pool and its gates** (`Window`, `Keys`, `Pools`, `GateRuns`, `ServeRuns`, `Replies`). Round-robin draws over a shrinking
  list of candidates, a fixed-window rate counter per key and feature, and a usage cap per key that is windowed or for
  life. Proved: a draw is sound and complete, it changes one key's usage and nothing else that lasts, the rotation is
  fair, and over a run of the service no window and no interval holds more serves than its bound.
- **The write-behind queue** (`UsageQueue`, `Writeback`, `Refinement`, `Crashes`, `SplitReloads`). Usage is coalesced,
  swapped out, flushed key by key and merged back on failure. Proved: database row, entry in flight and entry pending
  together are the pool's counter in every reachable state; serves are conserved across crashes; the event queue is the
  newest part of the event log, and loses nothing exactly when it never overflowed.
- **The spend ledger** (`Stores`, `Ledger`, `LedgerRuns`, `HeldSpend`, `LockOuts`). Reports count once per `request_id`, totals restart
  per period, budgets can change unit, and answers land in memory out of order. Proved: the row is the sum of what was
  counted; repeats and order do not matter; the held spend follows the row; a key at its budget is locked out until
  the reset.
- **The budget calendar** (`Calendar`, `Budgets`). `time.Date`, `Time.Date` and `AddDate` over the proleptic Gregorian
  calendar. Proved: monthly periods tile the timeline for every reset day, and 28 is the last day for which they could.
- **The reload** (`System`, `SimilarRuns`, `ReloadRuns`, `Managers`). Proved: after any interleaving that leaves pool and
  rows in agreement, a reload changes no later reply; and exactly when one does.
- **The consumer auth cache** (`AuthCaches`). Proved: cached answers are fresh as long as no lookup puts its entry after
  the clearing of a write it did not see, and of bounded age in every interleaving.

## How it is built

Code that updates fields in place is a class (`Keys.PoolKey`, `Managers.Manager`, `Writeback.Writer`,
`Stores.Postgres`, `AuthCaches.AuthCache`). Each method is proved against a function on values, and the theorems about
runs are lemmas about those functions. `System.Next` puts them together: the whole service as a machine whose steps are
the atomic sections of the program (a draw, the start of a flush, one store call of a flush, a spend transaction, the
landing of its answer, a reload, an admin's database write, a crash with the boot after it). The reload after an admin
write is a step of its own, which may never come. The methods of `Manager` are proved to be steps of that machine, and
what `Writer.Flush` does by itself to rows and queue a run of them.

Time is an integer number of nanoseconds, passed in. Amounts are reals. A call to the database takes effect or fails
without one, as its `up` argument says. Identifiers, units and secrets are strings; secrets are modelled opened.

## Where the code and its promises part

Each of these is proved, with the exact condition.

- `README.md:89` promises that any admin write clears the auth cache, so that a revocation holds on the next call. A
  lookup that read before the write and puts after its clearing restores the old answer for a time to live, exactly if
  the write changed that answer (`AuthCaches.OverlapAgreesExactlyIfUnchanged`,
  `AuthCaches.OverlapRestoresARevokedConsumer`).
- A report or an answer that arrives late for an earlier period replaces the present period's total, in the row
  (`Ledger.LateReportForgetsThePresent`) and in memory (`HeldSpend.StaleAnswerWipesThePeriod`).
- A report's unit is checked before its transaction; a change or removal of the budget in between puts the amount into a
  total of another unit or of none (`Ledger.UnitCheckedTooEarly`).
- A change of unit with an answer in flight across it: the row's total is dropped, and the landing brings the old unit's
  total back into memory, where it can lock the key out (`HeldSpend.UnitChangeUnderAnAnswer`).
- A change of reset day that moves the start of the present period forgets what was spent in it, though the row keeps
  the amount (`Ledger.ChangeKeepsWhatCounts`).
- Under a usage limit below 1, a window rolls over and the call is refused; the queue never hears of that roll-over
  (`UsageQueue.ChargeMirrorsTheGate`, `Keys.RefusalChangesOnlyItsRateCounter`).
- A reload reads its rows before it takes the pool's lock. One that read before a key was added and installs after the
  key has served takes the key out of the pool, and the next reload brings it back from a row that has not seen the
  serve (`SplitReloads.SplitReloadForgetsAServe`; the exact conditions are
  `SplitReloads.InstallKeepsExactlyIfReadAsSettled` and `SplitReloads.ReloadAfterInstallKeepsExactly`).
- A reload between a transaction and its landing is seen by callers, exactly if the budget has room by one of held
  spend and row and not by the other (`ReloadRuns.ReloadIsSeenAcrossTheBudget`,
  `ReloadRuns.ReloadIsSeenBeforeTheLanding`).
- The 64-bit counter of the rotation keeps its order at the wrap exactly when the number of candidates divides 2^64
  (`Pools.TurnAtTheWrap`).

## Model

| member | source | states |
|---|---|---|
| Calendar.DateRoundTrip | internal/keypool/budget.go:66 | the date read back from the midnight made of a year, month and day is that date, in every month of every year |
| Calendar.DateBracketsItsInstant | internal/keypool/budget.go:65-67 | every instant has a date the calendar has, and lies within the day that begins at that date's midnight |
| Calendar.DateIsGregorian | internal/keypool/budget.go:66 | midnight on a date is so many days of nanoseconds from 1970 by the Gregorian closed form, for every year and month |
| Calendar.MonthStepsKeepTheDay | internal/keypool/budget.go:68 | adding any number of months, forwards or back, to a day up to the 28th moves the month and keeps the day |
| Calendar.DaysEveryMonthHas | internal/keypool/budget.go:16-17 | the days that survive every month step are exactly those up to 28, the largest reset day accepted |
| Budgets.PeriodIsAMonth | internal/keypool/budget.go:61-79 | a period runs from the reset day of one month to the reset day of the next and holds the instant it was computed for |
| Budgets.PeriodsTileTheTimeline | internal/keypool/budget.go:61-79 | periodStart <= now < nextReset; two instants share a period exactly when one lies in the other's interval; a reset starts its own period; a period lasts 28 to 31 days |
| Budgets.PeriodsMoveForward | internal/keypool/budget.go:61-71 | a later instant is never in an earlier period |
| Budgets.BudgetsAccepted | internal/keypool/budget.go:31-59 | the budgets accepted are those of a positive amount, in dollars or credits, with no reset day or one that every month of every year has |
| Budgets.SpendCountsUntilTheReset | internal/keypool/budget.go:97-102 | held spend counts in full until the next reset and as 0 from it on; a lifetime budget's counts for good |
| Budgets.NothingRemainsExactlyWhenLockedOut | internal/keypool/budget.go:89-113 | what remains is never negative, is the amount less what was spent while the key is within its budget, and is 0 exactly when it is not |
| Window.HitKeepsLog | internal/keypool/types.go:86-95 | every call keeps the log's promises: each admitted call in its window, window starts a width apart, no more than the limit in one window |
| Window.HitIsAccounted | internal/keypool/types.go:86-95 | every call keeps the account: what the open window held at first and the calls since are within its count, and no window that admitted a call holds more than the limit |
| Window.SlidingBound | internal/keypool/types.go:86-95 | any interval of length L holds at most (ceil(L/W)+1)*R admitted calls of a counter with window W and limit R |
| Keys.ServedExactlyWithRoom | internal/keypool/types.go:70-126 | a key passes both gates exactly when it has the feature and each window in force at that moment holds fewer calls than its limit |
| Keys.RateCallByColumns | internal/keypool/types.go:63-96 | the rate gate admits a call exactly below the limit of the window in force, which lasts windowSeconds or else a minute, and counts it there or in a new window |
| Keys.UsageCallByColumns | internal/keypool/types.go:106-126 | the usage gate lets a call through exactly without a limit or below it, counted over usageWindowSeconds or for life, and counts it there or in a new window |
| Keys.ReportedUsageIsTheGates | internal/keypool/types.go:141-154 | the usage the listing reports is below its limit exactly when the rate gate would admit a call |
| Keys.GatesTouchOnlyTheirCounters | internal/keypool/types.go:70-126 | the rate gate changes the counter of its feature only, the usage gate the usage pair only |
| Keys.RefusalChangesOnlyItsRateCounter | internal/keypool/types.go:106-126 | a refused key has changed its rate counter for the feature and nothing else, exactly unless its usage window rolled over under a limit below 1 |
| Keys.PoolKey.Reload | internal/keypool/types.go:40-56 | replaces what was loaded and keeps every counter |
| Keys.PoolKey.RateGate | internal/keypool/types.go:70-96 | the key's new value and the verdict are those of the fixed-window rule for the feature; unknown features are refused and change nothing |
| Keys.PoolKey.UsageGate | internal/keypool/types.go:106-126 | the key's new value, the verdict and the reported window start are those of the cap, windowed or lifetime |
| Keys.PoolKey.Hold | internal/keypool/budget.go:104-109 | holds the newer spend; a smaller spend of the held period changes nothing |
| Keys.PoolKey.RateUsage | internal/keypool/types.go:141-154 | the listing has one entry per feature, with the use of the window in force |
| UsageQueue.MergeIsComposition | internal/writeback/writer.go:103-116 | the merged entry does to any row what the failed entry and then the newer one would do |
| UsageQueue.RequeueIsComposition | internal/writeback/writer.go:103-116 | after a requeue, the pending entry does to any row what the failed entry and then the old pending entry would have done |
| UsageQueue.ChargeMirrorsTheGate | internal/keypool/manager.go:121-127 | the update a serve queues does to the row what the gate did to the counter, exactly unless the gate rolled over and refused |
| UsageQueue.ChargesQueueInOrder | internal/keypool/manager.go:81-84 | a window's first serve queued after its second forgets the second: what gates and queueing in one step rule out |
| Pools.CandidatesAreExact | internal/keypool/manager.go:67-77 | the candidates are the places of exactly the available keys in scope with the feature, each once |
| Pools.CandidatesAscend | internal/keypool/manager.go:67-77 | the candidates are in the order of the pool |
| Pools.RotateFrame | internal/keypool/manager.go:78-90 | the draw's loop puts each candidate through the gates at most once; only the served one passes; if none is served, every candidate would have been refused from the state at entry |
| Pools.DrawTakesTurns | internal/keypool/manager.go:78-90 | the k-th turn of a draw tries, of the candidates left, the one at the counter's k-th value from its first, modulo 2^64 and how many are left; all but the one served are refused from the state at entry; the counter moves on by one a turn; a draw that serves none has tried all |
| Pools.DrawIsSoundAndComplete | internal/keypool/manager.go:63-95 | a draw serves exactly when some key could be served from the state at entry, and serves such a key; out of scope exactly when no key in scope has the feature; exhausted exactly otherwise |
| Pools.DrawChargesOnlyTheServed | internal/keypool/manager.go:63-95 | a draw charges the usage of the served key, and leaves every other key's usage, every other feature's counters and all configuration as they were |
| Pools.TurnAtTheWrap | internal/keypool/manager.go:79 | the counter's wrap keeps the rotation's order exactly when the number of candidates divides 2^64 |
| Pools.RotationIsFair | internal/keypool/manager.go:78-87 | over k*n+r draws from n candidates that never refuse, each is served k times, or once more if its turn is among the r |
| Replies.DrawTold | internal/keypool/manager.go:63-95 | a draw is told out of scope exactly if no pooled key is in scope with the feature, exhausted exactly if one is but none is fit by its columns, and otherwise gets the value, metadata and secrets of a fit key |
| Replies.NamedDrawTold | internal/keypool/manager.go:97-119 | a draw of a pooled key is told out of scope exactly if its tier is not in scope or lacks the feature, gets the key exactly if it is active, unexpired, not marked exhausted, within budget, and has room in both windows, and is told exhausted otherwise |
| Replies.UnpooledDrawTold | internal/keypool/manager.go:100-103 | a named draw is told not found exactly if no pooled key has the id |
| Replies.ServedKeyIsFit | internal/keypool/types.go:98-126 | no draw of either kind serves a key that is not fit by its columns |
| Stores.Postgres.AddUsageCall | internal/db/postgres_keys.go:198-201 | adds to the row's count, or fails and changes nothing; a missing row stays missing |
| Stores.Postgres.ResetUsageWindowCall | internal/db/postgres_keys.go:203-206 | sets the row's count and window start, or fails and changes nothing |
| Stores.Postgres.SetKeyExhaustedCall | internal/db/postgres_keys.go:208-211 | sets the row's exhausted-until, or fails and changes nothing |
| Stores.Postgres.UpdateKeyBudgetCall | internal/db/postgres_budget.go:49-63 | replaces the budget; spend and period survive exactly a change that keeps the unit |
| Stores.Postgres.RecordSpendCall | internal/db/postgres_budget.go:65-98 | one transaction: the event once per request_id, the row charged the first time only, the total of the period answered, an unknown key undone |
| Stores.Postgres.RecordUsageEventsCall | internal/db/postgres_consumers.go:113-130 | records the batch whole or not at all |
| Ledger.ReportAddsOnce | internal/db/postgres_budget.go:72-90 | a report adds its amount to its period exactly if its request_id is new |
| Ledger.BudgetChangeKeepsOrDrops | internal/db/postgres_budget.go:51-55 | a budget change leaves a row's spend alone, or drops it with the unit |
| Ledger.RowHoldsTheSum | internal/db/postgres_budget.go:49-98 | after any run of reports, checked against the present budget or not, and budget changes, in which the key's new reports are of non-decreasing periods, the row's spend in its period is the sum of the first reports of each request_id since the last unit change |
| Ledger.CountedInThePresentUnit | internal/keypool/manager.go:239-248 | an amount in that sum was reported in the unit of the row's present budget exactly if that was the row's unit at its transaction, as it was if the manager's check still held there; in any run |
| Ledger.LateReportForgetsThePresent | internal/db/postgres_budget.go:86-88 | the later of the row's period and a report's counts what the row held of it and what the report adds to it, exactly if the report is not late |
| Ledger.UnitCheckedTooEarly | internal/keypool/manager.go:239-249 | an amount checked before a change or removal of the budget and recorded after it lands in a total of its own unit exactly if the change kept the unit |
| Ledger.ChangeKeepsWhatCounts | internal/db/postgres_budget.go:51-55 | a change that keeps the unit keeps what the row's spend counts for exactly if both budgets are in the same period |
| Ledger.RepeatsChangeNothing | internal/db/postgres_budget.go:72-78 | a run ends in the same store as the run without the reports of already seen request_ids |
| Ledger.OrderDoesNotMatter | internal/db/postgres_budget.go:72-97 | two orders of the same reports with distinct request_ids, each key's within one period, end in the same store |
| LedgerRuns.RunIsALedgerRun | internal/db/postgres_budget.go:49-98 | any run of the service whose admin writes change budgets, or no money, leaves the books its reports and budget changes alone would leave |
| LedgerRuns.RowHoldsTheSumOfItsRun | internal/db/postgres_budget.go:49-98 | over such a run with non-decreasing periods for the key, the row's spend in its period is the sum of the reports that reached the database |
| LedgerRuns.RepeatsInARunChangeNothing | internal/db/postgres_budget.go:72-78 | repeated reports in such a run leave the books as if each request had come once |
| LedgerRuns.OrderInARunDoesNotMatter | internal/db/postgres_budget.go:72-97 | two such runs with the same reports of distinct request_ids, each key's within one period, end in the same books in whatever order the reports came |
| Writeback.Writer.Serve | internal/writeback/writer.go:46-55 | adds one to the key's pending entry |
| Writeback.Writer.ResetWindow | internal/writeback/writer.go:57-61 | the key's pending entry becomes "one call since this start" |
| Writeback.Writer.PersistCharge | internal/keypool/manager.go:121-127 | a roll-over queues a window start, any other charge one serve |
| Writeback.Writer.Event | internal/writeback/writer.go:63-71 | the pending events become the newest of them and the new one: an arrival of the event machine |
| Writeback.Writer.Swap | internal/writeback/writer.go:74-77 | usage and events are taken out and start again empty: the event machine's batch is in flight |
| Writeback.Writer.RequeueUsage | internal/writeback/writer.go:103-116 | the failed entry is composed under what was queued since |
| Writeback.Writer.FlushEntry | internal/writeback/writer.go:79-90 | one entry reaches its row, or goes back to the queue and the row is as before |
| Writeback.Writer.FlushEvents | internal/writeback/writer.go:92-100 | the batch is recorded, or put back before the events that came meanwhile: the end of the event machine's flush |
| Writeback.Writer.Arrive | internal/writeback/writer.go:46-71 | charges and events that come while a flush is under way leave the queue as they would leave it one by one |
| Writeback.Writer.Flush | internal/writeback/writer.go:73-101 | whatever others queue between its store calls and during the last, every entry taken is applied to its row or, if its call fails, lies under what was queued since; a failed batch of events is pending before the later ones |
| Writeback.FlushConserves | internal/writeback/writer.go:73-90 | whatever fails and whatever arrives meanwhile, row and queue stand for the same counter after a flush as with no flush at all, for every key |
| Writeback.FlushIsAnEventRun | internal/writeback/writer.go:73-101 | what a flush leaves of the events is a run of the event machine: the batch taken out, the events that come meanwhile, the end of the store call |
| Writeback.RequeueUnder | internal/writeback/writer.go:103-116 | a failed entry requeued after later charges lies under them, as if it had never left the queue |
| Writeback.PendingIsTheNewest | internal/writeback/writer.go:63-101 | in every interleaving of arrivals and flushes, pending and in-flight events are the newest of those that arrived since the last successful flush took its batch |
| Writeback.PendingIsTheEndOfTheLog | internal/writeback/writer.go:63-101 | pending events are the end of the log, and a batch in flight the end of what lies before, each cut to its newest maxEvents |
| Writeback.LogIsKeptUnlessOverflowed | internal/writeback/writer.go:63-101 | recorded, in-flight and pending events are the log with some left out, in order and none twice, and are the whole log exactly when the queue never overflowed |
| System.ReloadPlaces | internal/keypool/manager.go:149-167 | a reload pools exactly the rows whose tier has features, each once, a known key with its counters and a new one with its row's |
| System.CrashIsABoot | internal/keypool/manager.go:50-61 | a crash and the boot after it are a reload into an empty pool whose counter is 0, with nothing queued or in flight |
| Replies.ReloadedPool | internal/keypool/manager.go:149-167 | a reload pools exactly the rows whose tier has features, in the order of the rows, and leaves the counter; answers in flight for keys it drops are held by nobody |
| Replies.ReloadedKeyByColumns | internal/keypool/manager.go:149-189 | a reloaded key has its row, its tier's features and its secrets, and the counters it had in the pool, or its row's usage and no rate counters if it is new there |
| Refinement.AttemptOnKey | internal/keypool/manager.go:78-119 | either kind of draw leaves a key's configuration alone, charges the one it serves by its gates, and no other |
| Refinement.FlushKeySettles | internal/writeback/writer.go:79-90 | one store call of a flush, failed or not, leaves what every key's row will settle at unchanged |
| Refinement.FlushIsARun | internal/writeback/writer.go:73-90 | what a whole flush does by itself to rows and queue is a run of the service's steps: the swap, then one store call per entry |
| Refinement.ReloadKeepsExactlyIfEntersClean | internal/keypool/manager.go:149-167 | a reload keeps the refinement exactly if the keys it lets in had nothing queued |
| SplitReloads.InstallKeepsExactlyIfReadAsSettled | internal/keypool/manager.go:133-167 | a reload that installs rows read earlier keeps the refinement exactly if every key it lets in was read as what its row settles at now |
| SplitReloads.ReloadAfterInstallKeepsExactly | internal/keypool/manager.go:133-167 | the next reload keeps it exactly if every key that was not read settles at its row as it is |
| SplitReloads.InstallOfTheRowsIsAReload | internal/keypool/manager.go:129-169 | a reload whose rows nothing has changed before it installs them is the reload step of the service |
| SplitReloads.SplitReloadForgetsAServe | internal/keypool/manager.go:129-169 | a run of an added key, its reload, a serve, the install of an older reload's rows and the next reload: every state before the install is coherent, and at the end the pool's usage is not what row and queue stand for |
| Refinement.StepStaysCoherent | internal/writeback/writer.go:46-116 | every step of the service, an admin write and its reload apart, keeps row, in-flight and pending entry equal to the pool's counter, and lets no key enter the pool with usage queued |
| Refinement.QueueRefinesTheRows | internal/writeback/writer.go:46-116 | in every reachable state, between any store calls, under any failures and between an admin write and its reload, applying the in-flight and then the pending entry to a key's row gives the pool's count and window start |
| Crashes.StepConserves | internal/writeback/writer.go:46-116 | a step makes known what it serves and only a crash forgets; no serve happens at the cap |
| Crashes.ServesAreConserved | internal/keypool/types.go:121-125 | known serves at the end plus those lost in crashes are those known at the start plus those served; a lifetime cap is passed by no more than the serves lost |
| HeldSpend.HeldSpendFollowsTheRow | internal/keypool/manager.go:228-263 | in every interleaving of transactions and landings, through resets, reloads, crashes and budget changes (of unit or reset day only with no answer for the key in flight), held spend of the present period never passes the row's, equals it or has its total in flight, and equals it once no answer for the key is in flight |
| HeldSpend.StepKeeps | internal/keypool/manager.go:228-263 | every step keeps answers within their row's total and held spend behind it, unless it is one of those that upset it: an admin write to the key's money or a stale landing, until the next reload |
| HeldSpend.UnitChangeUnderAnAnswer | internal/keypool/manager.go:249-259 | after a budget change with an answer in flight across it, the reload and the landing, held spend is within the row's exactly if the change kept the unit; otherwise the old total decides whether the key is locked out |
| HeldSpend.ReportIsCheckedInTheRowsUnit | internal/keypool/manager.go:239-249 | a report the manager accepts is the ledger's report, and its check still holds at the transaction exactly if the pool's budget has the row's unit |
| HeldSpend.LevelReportsAreChecked | internal/keypool/manager.go:239-249 | after any run that ends with the key level, every report the manager accepts for it passes the ledger's check at its transaction |
| Replies.UnpooledReportTold | internal/keypool/manager.go:230-238 | a report for a key that is not pooled is told the key is unknown and changes nothing |
| Replies.ReportRefusedExactly | internal/keypool/manager.go:236-255 | a report for a pooled key is refused exactly if its unit is not the budget's, the database is down, or the key has a budget and no row; a refused report changes nothing |
| Replies.ReportToldTheTotal | internal/keypool/manager.go:249-262 | an answered report is told the row's total of the charged period as it leaves it, grown by the amount exactly if the request is new; whether it is a duplicate; and when the period ends |
| Replies.ChargedPeriod | internal/keypool/budget.go:61-79 | the charged period runs from the reset day of a month to that of the next around the report, or is the one lifetime period that never ends |
| Replies.ReportWithoutBudgetTold | internal/keypool/manager.go:239-262 | an answered report for a key without a budget is told no spend and no reset, and is recorded |
| HeldSpend.StaleAnswerWipesThePeriod | internal/keypool/budget.go:104-109 | what is held of the present period survives an answer exactly if the answer is of that period |
| LockOuts.HeldAtBudgetIsLockedOut | internal/keypool/budget.go:111-113 | a held spend that is level with its row and has reached the budget locks the key out |
| LockOuts.LockedOutIsNotServed | internal/keypool/manager.go:63-119 | neither kind of draw serves a locked-out key before the reset |
| LockOuts.LockedOutUntilTheReset | internal/keypool/budget.go:97-113 | through any run before the next reset that keeps the budget, no step serves the key and it stays locked out |
| LockOuts.NotServedOnceMarked | internal/keypool/manager.go:210-226 | after a mark that reaches the row, no step before its time serves the key, in any run whose admin writes and later marks do not bring the time forward |
| LockOuts.MarkedUntilItsTime | internal/keypool/types.go:98-104 | a key marked in its row and wherever it is pooled stays so through draws, flushes, reports, reloads and crashes, and is not served before its time |
| LockOuts.ServedAgainFromItsTime | internal/keypool/types.go:102 | from its time on a mark bars the key no more: a named draw turns on everything but the mark |
| SimilarRuns.HoldingKeepsAgreement | internal/keypool/budget.go:104-109 | two held spends that count alike from now on still do after holding the same answer |
| SimilarRuns.SimilarRunsReplyAlike | internal/keypool/manager.go:63-119 | two states that differ only in spend that counts alike answer every later draw and report alike |
| ReloadRuns.ReloadOfAgreeingIsSimilar | internal/keypool/manager.go:129-169 | a reload of a pool that agrees with its rows, with no answer in flight, changes nothing but spend that counts alike |
| ReloadRuns.RunStaysAgreeing | internal/keypool/manager.go:228-263 | every run that ends agreeing, whatever upset pool and rows before the last reload, leaves the same configuration and every held spend level |
| ReloadRuns.ReloadIsInvisible | internal/keypool/manager.go:129-169 | a reload inserted after any such run, with every interleaving of transactions and landings in it and none in flight at the reload, changes no later reply to a draw or a report |
| ReloadRuns.BootAgrees | internal/keypool/manager.go:50-61 | a boot from sound rows leaves pool and rows in agreement, so the runs above start from any such database |
| ReloadRuns.ReloadIsSeenAcrossTheBudget | internal/keypool/manager.go:164 | a reload changes the reply to a draw of a key exactly if nothing else bars the key and the budget has room by one of held spend and row but not by the other |
| ReloadRuns.ReloadIsSeenBeforeTheLanding | internal/keypool/manager.go:249-259 | between a transaction that takes the row to its budget and its landing the key is given; after a reload it is exhausted |
| GateRuns.RateIsLogged | internal/keypool/types.go:70-96 | over any order of gate calls, reloads included, admitted calls fall in windows a width apart with at most the limit in each |
| GateRuns.RateIsBounded | internal/keypool/types.go:63-96 | any interval of length L holds at most (ceil(L/W)+1)*R calls admitted for one key and feature, W being windowSeconds or else a minute, and any window at most R, what it held before the run included |
| GateRuns.AdmittedByHistory | internal/keypool/types.go:63-96 | after any run a call is admitted exactly if the window in force holds fewer calls than the limit, and the listing reports just those calls |
| GateRuns.WindowedCapHolds | internal/keypool/types.go:112-125 | no usage window, of usageWindowSeconds, lets more than its limit through, what it held before the run included, under any order of gate calls |
| GateRuns.LetThroughByHistory | internal/keypool/types.go:112-125 | after any run a call is let through exactly if the window in force holds fewer calls than the limit |
| GateRuns.LifetimeCapHolds | internal/keypool/types.go:121-125 | a lifetime count grows by exactly the calls let through, and a call is let through exactly while it is below the limit |
| GateRuns.TryIsARunOfGates | internal/keypool/manager.go:81-83 | what a draw does to a key it tries is a run of that key's two gates, so the bounds above hold of draws |
| ServeRuns.ServesAreBounded | internal/keypool/manager.go:63-119 | over any run of the service that keeps the key's limit, counted by the rate window of a feature (windowSeconds or else a minute) or by the usage window (usageWindowSeconds): any interval serves the key at most (ceil(L/W)+1)*R times, and any window at most R, what it held before the run included |
| Managers.Manager.constructor | internal/keypool/manager.go:50-56 | the pool starts empty with its counter at 0 |
| Managers.Manager.AvailableKeys | internal/keypool/manager.go:67-77 | the available keys are those at the candidates' places, and `offered` says whether any key in scope has the feature |
| Managers.Manager.RotateAmong | internal/keypool/manager.go:78-90 | the loop over pool keys leaves the pool and gives the outcome of the rotation on values |
| Managers.Manager.GetKeyForFeature | internal/keypool/manager.go:63-95 | pool, counter and usage queue move by the draw step of the service, and the reply is that step's |
| Managers.Manager.KeyByID | internal/keypool/manager.go:97-119 | pool and usage queue move by the named draw step, and the reply, with its three refusals, is that step's |
| Managers.Manager.ReloadPool | internal/keypool/manager.go:129-169 | pool moves by the reload step: known keys keep object and counters, new ones take their row's, keys of tiers without features are left out; a failed read changes nothing |
| Managers.Manager.MarkExhaustedUntil | internal/keypool/manager.go:210-226 | the key is skipped in the pool whether or not the row could be written |
| Managers.Manager.RecordSpend | internal/keypool/manager.go:228-263 | both halves with nothing in between: a report step and its landing, and the report's reply |
| Managers.Manager.BeginSpend | internal/keypool/manager.go:228-255 | up to the answer of the transaction, among any others in flight, store and answers move by the report step; the reply tells total, reset and duplicate, or unknown key, unit mismatch or failure |
| Managers.Manager.LandSpend | internal/keypool/manager.go:256-259 | the landing of an answer, among any others in flight, is the landing step of the service; on a key a reload has dropped it changes nothing in the pool |
| AuthCaches.AuthCache.Get | internal/api/authcache.go:24-32 | answers exactly from an entry that has not expired |
| AuthCaches.AuthCache.Put | internal/api/authcache.go:34-38 | the entry lives for the time to live from now, and no other entry changes |
| AuthCaches.AuthCache.ClearAfterWrite | internal/api/authcache.go:40-49 | everything but a read empties the cache |
| AuthCaches.AuthCache.ConsumerCaller | internal/api/middleware.go:73-95 | a live entry is answered without a read; otherwise the answer is the consumer of the first read with the scopes of the second, and is cached if there is one; a failed read caches nothing |
| AuthCaches.LookupByColumns | internal/db/postgres_consumers.go:31-40 | a lookup answers a caller exactly if its consumer is there and active under the token and its tiers are those listed for it, and nobody exactly if no active consumer has the token |
| AuthCaches.CachedAnswersAreFresh | internal/api/authcache.go:24-49 | where no lookup puts its entry after the clearing of a write it did not see, every cached answer is the database's answer at that moment, of a consumer there and active, or a write since its reads is still to clear it |
| AuthCaches.OverlapAgreesExactlyIfUnchanged | internal/api/authcache.go:34-49 | an entry put after a whole write that its lookup did not see agrees with the database exactly if the write left that consumer's answer as it was |
| AuthCaches.OverlapRestoresARevokedConsumer | README.md:89 | after such a write, whatever else it does, a consumer it revoked is answered for until the time to live has passed |
| AuthCaches.CachedAnswersAreRecent | internal/api/middleware.go:73-95 | in every interleaving, an answer given at t was read no earlier than t less the time to live less the time its lookup took |
| AuthCaches.StartsEmpty | internal/api/authcache.go:20-22 | both invariants hold of the empty cache the service starts with |

## Left out

- One clock reading per draw: the code reads the clock at each gate (`internal/keypool/types.go:86`, `:99`, `:113`); a draw of the model is one instant.
- A draw is one step: `key.mu` is released before the writer's lock is taken, so two draws can queue their charges in the other order; `UsageQueue.ChargesQueueInOrder` says what that costs. `GateRuns` takes the gates one by one.
- A reload is one step of `System`: the code reads its rows before it locks (`internal/keypool/manager.go:133-146`), so a split reload can also put back an older spend or exhausted-until. `SplitReloads` has the run in which it loses a serve.
- A report's check and its transaction are one step of `System`; what a budget change between them does is `Ledger.UnitCheckedTooEarly`.
- Managers.Manager.MarkExhaustedUntil: pool and row in one call, though the code unlocks the pool in between.
- Refinement.QueueRefinesTheRows: assumes one flush at a time (`Writer.Run` is the only caller), usage limits of at least 1 where a window is due, and admin writes as the API makes them: usage columns left alone, tiers never without features (`internal/api/tiers.go:46`), new keys under new ids (`internal/api/keys.go:127`).
- HeldSpend.HeldSpendFollowsTheRow: assumes that while an answer for the key is in flight no admin write changes its spend, or its budget's unit or reset day, and no report is charged under a budget of another period than the row's; `HeldSpend.UnitChangeUnderAnAnswer` is what happens otherwise. Between an admin write to the key's money and its reload it says nothing.
- ReloadRuns.ReloadIsInvisible: assumes the same of every key, and that an admin write, a failed exhausted-until write or a stale landing has been followed by a reload; what a reload shows otherwise is `ReloadRuns.ReloadIsSeenAcrossTheBudget`.
- Ledger.RowHoldsTheSum: assumes that the key's new reports are of non-decreasing periods; what a late report does is `Ledger.LateReportForgetsThePresent`.
- LedgerRuns.RunIsALedgerRun: for runs in which no key is added or deleted.
- LockOuts.LockedOutUntilTheReset: for runs that keep the key's budget and spend.
- ServeRuns.ServesAreBounded: within one life of the process; rate counters are memory only and a restart empties them.
- Float64 rounding and Postgres timestamp truncation: amounts are reals, instants whole nanoseconds, and differences of instants do not saturate.
- Commits that took effect but reported an error, and edits made directly in the database.
- Opening of secrets (`internal/crypto/sealer.go`): a secret that does not open is absent from the model's secrets.
- Provider clients and the balance loop (`internal/balance`), beyond marking a key exhausted.
- Tier, key and consumer creation and deletion, listings, configuration, routing, JSON and logging: only easy members.
- `Writer.Run`'s ticker and final flush: flushes come at any time in the model, so also then.
- Removal of a key's rows in `spend_events` and `usage_events`, and the listing of events.
- Metadata and names are carried as loaded, with metadata values as strings.
