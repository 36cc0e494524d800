# django-ox, modelled and proved

A Dafny model of the parts of django-ox that are hard to get right, and proofs of what
they promise. `dafny verify dfyconfig.toml` checks all of it.

| files | part of the system |
|---|---|
| `Calendar`, `CronFields`, `CronParser`, `CronTexts`, `CronReach`, `CronSearch` | cron expressions over the real Gregorian calendar: the field syntax, what the five texts say, the constructor's refusals, how far apart ticks can be, and the two search loops |
| `IntervalTrigger` | fixed intervals counted from 1970 |
| `Lease`, `LeaseTheorems` | task rows and every statement that moves one, as a state machine whose runs interleave any number of callers, workers and reapers |
| `BulkMoves`, `TableHistory`, `TaskTable`, `PinnedMoves` | the `_many` calls: deduplicated, sorted, chunked, pinned to epochs, rolled back and run again, with other sessions writing throughout |
| `LockOrder`, `BulkLocking` | the row locks those calls take, and why they never deadlock |
| `StoredRead` | reading stored schedules in batches that are halved around a row that does not read |
| `SupervisorRules`, `SupervisorTurns`, `SupervisorLoop` | the process supervisor, its restart cap, its backoff, what a turn of its loops does, and the loops |
| `CommitMeaning`, `AttemptCallbacks` | the commit callbacks of one `run_tasks()` attempt: what they mean, and the shared list that implements it |
| `Ordering`, `Outcomes` | sorted and distinct sequences; option and result types |

Code made of expressions is modelled by functions. Code that changes things step by step is
modelled by methods with the same loops: the searches, the field parser, the supervisor's
class, the stored table, the callback list. Each such method is proved against a function or
predicate of its own, and the promises are proved about those.

What comes from outside the code is a parameter or a nondeterministic choice. Clock readings only
grow. Child exits, signals and a second thread's stop may come between any two steps. A
statement fails exactly when it meets a value the driver cannot deliver. A transaction
attempt commits, contends or fails at any chunk. Other sessions write the table between
the chunks of a bulk call as a script says, and the script is any writes at all, each
decided from the row it finds. A write that meets a lock waits for it and then finds what
the lock's holder left. What a worker does to a row is a step of the protocol, with the worker's own
guards: a claim, a finish, a refund, a requeue, a loss.

The longest gap between ticks, which the source's comment puts at just under eight years, is
2921 days exactly, and the search bound of 3294 days is never reached.

## Where the code and its words differ

- The supervisor's docstring says it exits with the children's worst exit code
  (`src/django_ox/supervisor.py:16`). The code takes the first failing slot's
  (`src/django_ox/supervisor.py:527-532`). `FirstIsWorstExactlyForOneSlot`: the two agree for every outcome exactly when
  there is one slot.
- The rule that a row's attempts stay within its budget holds of every run without
  `revive_many`, and fails with it: a row discarded from FAILED or LOST with its attempts
  spent goes over its budget when it is revived, released and claimed. A run keeps the rule
  exactly when each of its revivals finds an attempt left.
- The restart delays are the capped doubling of the first one for every restart exactly when
  the first is within the cap; the code never caps the first.

## Model

| member | source | states |
|---|---|---|
| Calendar.DaysBeforeYearClosed | src/django_ox/cron.py:56-58 | counting years one at a time, leap or not, gives the closed form with the century rules |
| Calendar.OrderAgrees | src/django_ox/cron.py:217-218 | the minute count neither merges nor reorders instants: it is smaller exactly when the fields come earlier |
| Calendar.AddDay | src/django_ox/cron.py:225 | a day on is a valid date exactly 1440 minutes later, over month and year ends |
| Calendar.SubMinute | src/django_ox/cron.py:253-254 | a minute back is a valid instant exactly one minute earlier, from every instant but the first |
| Calendar.WeekdayAnchor | src/django_ox/cron.py:186-187 | the weekday count is the real one: 13 August 2026 is a Thursday |
| CronFields.EitherDayFieldTicks | src/django_ox/cron.py:184-190 | with both day fields restricted a minute ticks exactly when it does with the weekday left open or with the date left open; otherwise exactly when it does with each |
| CronFields.TicksByFields | src/django_ox/cron.py:184-199 | a tick is a listed minute, hour and month and, by which day fields are restricted, a listed date, a listed weekday, either, or any day |
| CronParser.Split | src/django_ox/cron.py:102 | the parts joined are the text again, and none holds the separator |
| CronParser.SplitIsTheParts | src/django_ox/cron.py:102 | and parts without the separator, joined, split into themselves |
| CronParser.StepsAreMultiples | src/django_ox/cron.py:129 | a stepped range holds exactly the values a whole number of steps from its start |
| CronParser.ReadsGroupedDigits | src/django_ox/cron.py:84 | digits are read exactly when underscores stand only between two of them, and as if there were none |
| CronParser.ReadsSignedDigits | src/django_ox/cron.py:84 | an integer is such digits, after one sign or none |
| CronParser.PartReadsBack | src/django_ox/cron.py:78-129 | a star, a value, a name in any case or a range, with or without a step, reads back as the values it is written for, or is refused: for a step of 0 or over the size of the field, a value outside it, or a descending range |
| CronParser.EveryFieldReadsBack | src/django_ox/cron.py:149-158 | so it does in each of the five fields |
| CronParser.ParseField | src/django_ox/cron.py:94-130 | a field is accepted exactly when each of its parts reads; its values are then those some part covers, sorted, and it restricts unless it is a lone star; otherwise the error is its first unreadable part's |
| CronParser.FoldSunday | src/django_ox/cron.py:159-161 | 0 and 7 both become 0 and nothing else changes |
| CronParser.ParseFields | src/django_ox/cron.py:149-158 | the five fields are read in order, and the error names the first that does not read |
| CronParser.DenotesOnce | src/django_ox/cron.py:141-161 | five fields denote at most one expression, and one only if each of them reads |
| CronParser.Parse | src/django_ox/cron.py:141-176 | the expression five fields denote, which `CronTexts` says in numbers, is what is returned, and is refused exactly when it can never match; otherwise the error is the wrong count or the first unreadable field |
| CronTexts.DenotesExactlyWhenReadable | src/django_ox/cron.py:149-161 | five fields denote an expression exactly when each of them reads |
| CronTexts.StarsAreEverything | src/django_ox/cron.py:96-97 | a star means all of the minutes 0 to 59, the hours 0 to 23, the days 1 to 31, the months 1 to 12 or the weekdays 0 to 6, and only a star leaves a day field unrestricted |
| CronTexts.NumbersOfAField | src/django_ox/cron.py:149-158 | a number reads exactly when it is 0 to 59, 0 to 23, 1 to 31, 1 to 12 or 0 to 7, by its field |
| CronTexts.NumbersMeanThemselves | src/django_ox/cron.py:149-161 | and is then the only value of its field, a weekday 7 being 0 |
| CronTexts.NamesOfAField | src/django_ox/cron.py:20-42 | a word reads only as one of the twelve months in the month field or the seven days in the weekday field, each spelled out |
| CronTexts.NamesMeanTheirNumbers | src/django_ox/cron.py:20-42 | and means that month or weekday, in either case of each letter |
| CronTexts.AListIsEither | src/django_ox/cron.py:101-130 | a comma-separated list reads exactly when both its sides do, and has the values of either |
| CronTexts.EitherDayField | src/django_ox/cron.py:9-12 | five texts tick where they do with either day field made a star, when neither is one; otherwise where they do with each |
| CronTexts.FiveStarsTickAlways | src/django_ox/cron.py:192-199 | five stars tick at every minute there is |
| CronTexts.ANumberTicksWhereItShows | src/django_ox/cron.py:184-199 | one number among stars ticks at exactly the minutes whose minute, hour, day, month or weekday it is |
| CronReach.NextLeapDay | src/django_ox/cron.py:54-57 | from any date the next 29 February is at most 2921 days off, centuries included |
| CronReach.WindowHasTick | src/django_ox/cron.py:54-58 | every accepted expression has a tick in every window of 2921 days, opened at any minute of any year |
| CronReach.LongestGapIsAttained | src/django_ox/cron.py:54-57 | 2921 days is the least such bound: over a skipped century leap year the leap-day expression ticks then and at no minute before |
| CronReach.RefusalIsExact | src/django_ox/cron.py:162-176 | an expression is refused as never matching if and only if it matches no date at all |
| CronSearch.FirstTickExists | src/django_ox/cron.py:213-218 | from any minute on there is an earliest tick, under 2921 days away |
| CronSearch.CorrectUp | src/django_ox/cron.py:219-236 | each correction of the forward search moves on and passes no tick, at a month, day, hour or minute jump |
| CronSearch.CorrectDown | src/django_ox/cron.py:250-267 | the mirror image for the backward search |
| CronSearch.Following | src/django_ox/cron.py:210-241 | the loop ends with the earliest tick, by the rule of `EitherDayFieldTicks`, strictly after the reading and never reaches its error; it fails exactly for an aware reading and a bound past year 9999 |
| CronSearch.Previous | src/django_ox/cron.py:243-272 | likewise the latest tick at or before the reading, which is the reading's own minute exactly when that matches |
| CronSearch.SecondsAreIgnored | src/django_ox/cron.py:201-208 | dropping the seconds changes neither question |
| CronSearch.ThereAndBack | src/django_ox/cron.py:210-272 | previous of following is the same tick, and no other; following from a reading and from its previous tick agree |
| CronSearch.WalkAscends | src/django_ox/cron.py:210-241 | iterating following repeats no tick |
| CronSearch.WalkEnumeratesTicks | src/django_ox/cron.py:192-199 | iterating following visits exactly the matching minutes, missing none |
| IntervalTrigger.EpochIsTheCalendars | src/django_ox/schedules.py:62-79 | the epoch and the maximum interval are the calendar's own day counts |
| IntervalTrigger.AcceptsExactly | src/django_ox/schedules.py:430-451 | an interval of 1 second to 719,162 days with a phase of at least zero and less than it is let through, and nothing else |
| IntervalTrigger.OverflowsExactlyWhen | src/django_ox/schedules.py:68-79 | from 1970 on the arithmetic fails if and only if the clock has not reached the first phase and the interval is over the maximum |
| IntervalTrigger.PreviousIsTheDueTick | src/django_ox/schedules.py:137-146 | a validated interval never fails, and answers the one scheduled instant t with t <= now < t + every, fold kept |
| IntervalTrigger.PreviousIsMonotone | src/django_ox/schedules.py:137-146 | a later clock never answers an earlier tick |
| IntervalTrigger.PreviousIsIdempotent | src/django_ox/schedules.py:137-146 | a tick's own latest tick is itself, also before the epoch |
| IntervalTrigger.MaximumIsTight | src/django_ox/schedules.py:68-79 | any longer interval with a phase fails at the epoch itself |
| LeaseTheorems.RetryIs | src/django_ox/actions.py:75-87 | a retry takes exactly the FAILED and LOST rows with under 32767 attempts, to READY at the next epoch with their attempts kept and one more as the budget, run_after and finish time cleared and unlocked |
| LeaseTheorems.RetryWriteIs | src/django_ox/actions.py:147-161 | its write after a read does so at the epoch read, from what was read |
| LeaseTheorems.DiscardIs | src/django_ox/actions.py:226-239 | a discard takes exactly READY, WAITING, FAILED and LOST rows, to DISCARDED at their epoch, finished now, unlocked, the counters and run_after kept; its write after a read, at the epoch read |
| LeaseTheorems.CancelIs | src/django_ox/_waiting.py:209-228 | a cancel takes exactly READY and WAITING rows at the pinned epoch, and closes them as discard does |
| LeaseTheorems.ReleaseIs | src/django_ox/_waiting.py:128-153 | a release takes exactly WAITING rows at the pinned epoch, to READY for the later of now and their own time, all else kept |
| LeaseTheorems.ReviveIs | src/django_ox/_waiting.py:281-291 | a revival takes exactly DISCARDED rows at the pinned epoch, to WAITING at the next, finish time cleared, all else kept |
| LeaseTheorems.ExpireLeaseIs | src/django_ox/actions.py:186-198 | expire_lease takes exactly RUNNING rows that have a lock time, and sets both lease times a day back |
| LeaseTheorems.ClaimIs | src/django_ox/worker.py:2504-2520 | a claim takes exactly READY rows that are due, to RUNNING with epoch and attempts one up |
| LeaseTheorems.FinishIs | src/django_ox/worker.py:3499-3540 | a finish writes exactly on RUNNING and LOST rows at the claim's epoch, and only a handover raises it; a refund takes the attempt back |
| LeaseTheorems.ReapIs | src/django_ox/worker.py:5260-5355 | a RUNNING row is requeued at the next epoch with attempts left, and is LOST where it is without |
| LeaseTheorems.OnlyItsStatementMovesARow | src/django_ox/actions.py:5-11 | a step changes no row but by its own statement, and deletes one only by pruning a settled one |
| LeaseTheorems.UpdateRaisesEpochOrKeepsCounters | src/django_ox/actions.py:113-131 | every statement that matches raises the epoch by one or leaves both counters alone |
| LeaseTheorems.InvOverRuns | src/django_ox/actions.py:104-239 | in every run nothing handed out is ahead of its row, claims have epochs of their own, and a RUNNING row's epoch is some claim's |
| LeaseTheorems.EpochNeverDecreases | src/django_ox/models.py:91-98 | whatever runs, a row is gone for good or at an epoch no lower |
| LeaseTheorems.OneClaimPerEpoch | src/django_ox/worker.py:2505-2520 | in every reachable state no two claims of a row share an epoch |
| LeaseTheorems.StaleHolderIsFencedOut | src/django_ox/worker.py:3530-3538 | a finish or refund by any holder but the latest matches nothing, now and after any run, whether or not the finishes hand the task over |
| LeaseTheorems.PastIsForEver | src/django_ox/actions.py:139-162 | once a row is past an epoch, nothing pinned to that epoch ever matches it again |
| LeaseTheorems.ActionsNeverMoveRunning | src/django_ox/actions.py:5-11 | any run of these actions leaves a RUNNING row as it was but for the two lease times expire_lease writes |
| LeaseTheorems.AtMostOneRetryPerEpoch | src/django_ox/actions.py:113-120 | of retries that read one epoch, once one has moved the row no other ever does |
| LeaseTheorems.RetryRefinesOneStatement | src/django_ox/actions.py:139-162 | whenever retry's compare-and-set matches, whatever ran since its read, it does what the one-statement form does then |
| LeaseTheorems.RetrySucceedsUndisturbed | src/django_ox/actions.py:139-162 | and it does match when the row is as it was read |
| LeaseTheorems.AtMostOneReleasePerEpoch | src/django_ox/_waiting.py:128-153 | for one row and epoch at most one release ever succeeds |
| LeaseTheorems.StaleDecisionsMatchNothing | src/django_ox/_waiting.py:19-23 | once a claim or a revival has moved a row past an epoch, no release, cancel or revive decided there matches, in any run |
| LeaseTheorems.RowsStayTidy | src/django_ox/actions.py:147-161 | in every run a row has a finish time exactly when it is settled, and a holder and a lease exactly while it is RUNNING |
| LeaseTheorems.SuccessIsFinal | src/django_ox/actions.py:80-86 | nothing ever changes a SUCCESSFUL row |
| LeaseTheorems.RetryGrantsOneAttempt | src/django_ox/actions.py:126-136 | a retry keeps the attempts, and the next claim is the last its new budget allows |
| LeaseTheorems.ReleaseNeverBringsForward | src/django_ox/_waiting.py:297-306 | a released row runs no earlier than now and than it asked, and at one of the two |
| LeaseTheorems.StepKeepsBudgetIff | src/django_ox/_waiting.py:286-291 | a step from a state in budget stays in budget if and only if it is not the revival of a row without an attempt left |
| LeaseTheorems.BudgetHoldsExactlyWhenRevivesFit | src/django_ox/actions.py:126-136 | a run keeps attempts within the budget, and READY and WAITING rows below it, if and only if each of its revivals finds an attempt left |
| LeaseTheorems.WithoutRevivesTheBudgetHolds | src/django_ox/actions.py:83-87 | so every run without revivals keeps it, for any budget from 1 to 32767 |
| LeaseTheorems.RevivingASpentRowBreaksTheBudget | src/django_ox/_waiting.py:286-291 | any spent row that is due and is discarded, revived, released and claimed is one over its budget |
| LeaseTheorems.ASpentRowIsReachable | src/django_ox/actions.py:80-81 | and such rows are reachable |
| LockOrder.StepKeepsGood | src/django_ox/_waiting.py:315-340 | taking a free lock or ending a transaction never leaves a row locked twice |
| LockOrder.SomeoneCanStep | src/django_ox/actions.py:13-29 | following the locks from any blocked call leads to one that can step |
| LockOrder.NeverDeadlocks | src/django_ox/actions.py:321-340 | calls that start with no lock and lock in key order reach only states that are finished or can step |
| LockOrder.EveryScheduleFinishes | src/django_ox/actions.py:321-340 | a schedule that cannot be extended has finished every call, in a number of steps the calls alone fix |
| LockOrder.UnsortedCallsCanDeadlock | src/django_ox/actions.py:13-29 | without the order two calls over two rows do deadlock |
| BulkMoves.ChunksAscend | src/django_ox/_waiting.py:309-312 | the chunks of a sorted call are each in key order |
| BulkMoves.FlatChunks | src/django_ox/_waiting.py:309-312 | slicing into chunks loses and reorders nothing |
| BulkMoves.ChunksAreFull | src/django_ox/_waiting.py:309-312 | every chunk has the chunk size but the last, which is not empty |
| BulkLocking.LocksEachIdOnce | src/django_ox/_waiting.py:315-340 | a bulk call locks each of its distinct ids once, in key order, in one transaction or in one for each chunk |
| BulkLocking.BulkCallsNeverDeadlock | src/django_ox/_waiting.py:30-37 | any number of bulk calls over any ids, in any interleaving, never deadlock and all finish |
| BulkMoves.BulkIsOneByOne | src/django_ox/actions.py:300-340 | a bulk move is the single-row move made for each id, in any order and any number of times |
| BulkMoves.MovesCompose | src/django_ox/actions.py:326-337 | moving disjoint chunks one after another is moving them at once, count included |
| BulkMoves.DistinctIds | src/django_ox/actions.py:272-297 | the distinct usable ids, and how many distinct items were malformed |
| TaskTable.MovesAreSteps | src/django_ox/actions.py:343-417 | the bulk moves are the protocol's own one-statement steps |
| TaskTable.LastAttempt | src/django_ox/_contention.py:54-85 | the attempt that decides is the first that does not contend, or the last one allowed |
| TaskTable.ThreeAttempts | src/django_ox/_contention.py:25-62 | a call with a transaction of its own commits exactly when one of its three attempts does after ones that contended; one in a caller's has one attempt |
| TaskTable.ReadsIs | src/django_ox/actions.py:75-87 | the first read of retry finds FAILED and LOST rows with under 32767 attempts, that of discard READY, WAITING, FAILED and LOST rows |
| TaskTable.RetriedRows | src/django_ox/actions.py:343-387 | of the locked rows retry_many moves exactly those, and this is every column they are left with |
| TaskTable.DiscardedRows | src/django_ox/actions.py:390-417 | the same for discard_many |
| TaskTable.Tasks.Retry | src/django_ox/actions.py:104-162 | True exactly when the row could be retried at the read and, after a turn of other sessions, at the write with its epoch unmoved, and then the one-statement move was made on what that turn left; otherwise nothing was |
| TaskTable.Tasks.Discard | src/django_ox/actions.py:201-239 | the same for discard |
| TableHistory.CommitIsSerialRollbackIsNothing | src/django_ox/actions.py:324-338 | with locks taken chunk by chunk and other sessions writing and waiting throughout, a commit makes the table that the chunks and the others' turns make one after another, nobody's write lost; a rollback makes what the others' turns alone make; and till then every locked row is as the move left it |
| TableHistory.CountIsOfTheLocked | src/django_ox/actions.py:337 | what the updates count is the rows the serial form moves, and the locked rows the move matched |
| TableHistory.SilentIsOneMove | src/django_ox/actions.py:324-338 | when nobody else writes, the chunks make one bulk move of all their keys |
| TaskTable.Tasks.Attempt | src/django_ox/actions.py:324-338 | a commit comes after all the chunks in key order, each locking and moving what it finds, and counts the rows moved; an error rolls back the chunks that ran |
| TaskTable.RanIsCommitted | src/django_ox/actions.py:324-338 | such a commit makes the serial table, and counts the rows moved |
| TaskTable.FailedIsUntouched | src/django_ox/actions.py:324-338 | such an error leaves exactly what the others' turns alone make of the table |
| TaskTable.Tasks.RunMove | src/django_ox/_contention.py:70-85 | after contention the whole move runs again; what ran is the attempt that committed, after the others' turns, and when none does the table is what those turns alone make of it |
| TaskTable.Tasks.MoveOrNot | src/django_ox/actions.py:300-340 | a bulk move in one transaction, its own or a caller's: all the ids' rows are moved and counted, or none is |
| TaskTable.Tasks.MoveMany | src/django_ox/actions.py:370-387 | all the distinct ids' rows move as they are found or none does, and changed + skipped is the distinct ids and malformed items, whatever the order, the duplicates and the chunk size |
| TaskTable.Tasks.RetryMany | src/django_ox/actions.py:343-387 | the same for retry; when nobody else writes, the table retry() of each id in any order would leave |
| TaskTable.Tasks.DiscardMany | src/django_ox/actions.py:390-417 | likewise for discard() |
| PinnedMoves.FilterIsExact | src/django_ox/_waiting.py:363-385 | the one-epoch and the many-epoch filter both select exactly the rows whose key and epoch were given together |
| PinnedMoves.FilterIsTheMove | src/django_ox/_waiting.py:363-385 | on a chunk the filtered statement, WAITING for a release, READY or WAITING for a cancel, DISCARDED for a revival, matches exactly the rows the pinned move moves |
| PinnedMoves.FirstEpochIsTheFirst | src/django_ox/_waiting.py:351-359 | a key given more than once is decided by its first epoch |
| PinnedMoves.FirstMalformedIsTheFirst | src/django_ox/_waiting.py:258-263 | the id a refused revive_many names is the first malformed one given |
| PinnedMoves.Pinned | src/django_ox/_waiting.py:343-360 | the pinned keys in key order, each once, and the malformed ids in the order given |
| PinnedMoves.ReleaseMany | src/django_ox/_waiting.py:156-190 | what is moved and counted is the rows of committed chunks, in the serial order of the chunks and the others' turns; after an error the chunks before it stay released, or are lost with a caller's transaction |
| PinnedMoves.CancelledRows | src/django_ox/_waiting.py:212-226 | of the locked rows a cancel moves exactly those, to DISCARDED, finished now and unlocked, with all else kept |
| PinnedMoves.CancelMany | src/django_ox/_waiting.py:193-228 | all the READY and WAITING rows at their pinned epochs are closed, as they were when locked, and counted, every other locked row kept; or none is and the table is what the others' turns alone make of it |
| PinnedMoves.RevivalsAreTrue | src/django_ox/_waiting.py:231-263 | what the locking read says of a row is what then happened to it |
| PinnedMoves.ReviveMany | src/django_ox/_waiting.py:231-294 | one entry for each key, in key order, saying REVIVED exactly when its row went in that transaction from DISCARDED at its pinned epoch to WAITING at the next; an error revives nothing, and a malformed id stops the call first |
| StoredRead.AloneByColumn | src/django_ox/_stored_read.py:835-852 | a row read alone has the values of exactly the columns that decode and the reasons of exactly the others, and is unreadable when there are such |
| StoredRead.Hydrate | src/django_ox/_stored_read.py:835-852 | a fetched row answers as each of its columns reads alone |
| StoredRead.Diagnose | src/django_ox/_stored_read.py:855-885 | a row read a column at a time answers likewise, in one statement a column; a missing one is None |
| StoredRead.CeilLog2IsTheLogarithm | src/django_ox/_stored_read.py:825-829 | the number of halvings in the cost bound is the least k with n <= 2^k |
| StoredRead.HalvesFitTheBudget | src/django_ox/_stored_read.py:825-829 | the statement and the budgets of both halves fit the batch's budget |
| StoredRead.ReadRows | src/django_ox/_stored_read.py:807-832 | halving answers each key as its row alone does, for at most 1 + f * (2 * ceil(log2 n) + c) statements, and exactly one when no row fails |
| StoredRead.ReadBatches | src/django_ox/_stored_read.py:766-772 | batches answer as single rows do, and their costs add up |
| Ordering.FirstSeenInOrder | src/django_ox/_stored_read.py:760-761 | removing duplicates keeps the order in which the keys were first given |
| StoredRead.BatchesHoldTheKeys | src/django_ox/_stored_read.py:769-772 | the number of batches is the least that holds the keys |
| StoredRead.ExpectedInOrder | src/django_ox/_stored_read.py:773 | the answers built key by key follow the order of the keys, and are one for each key that names a row |
| StoredRead.ReadSchedules | src/django_ox/_stored_read.py:711-773 | any two answers are in the order their keys were first asked; a key asked is answered, once and under the key as asked, exactly when its row exists, and as that row reads alone, whatever the batch size, the duplicates and the lock |
| SupervisorRules.RecentTwice | src/django_ox/supervisor.py:370-371 | pruning at an earlier death loses nothing a later window holds |
| SupervisorRules.OneMoreDeath | src/django_ox/supervisor.py:368-371 | the queue extended and pruned is the window of the slot's whole history |
| SupervisorRules.RecentIsTheTail | src/django_ox/supervisor.py:370-371 | the window of an ordered history is its tail: exactly the deaths no more than the window ago |
| SupervisorRules.NextDelayDoubles | src/django_ox/supervisor.py:324-331 | doubling the last delay under the ceiling gives the next of the closed form, for every base and ceiling |
| SupervisorRules.DelayIsCappedDoublingIff | src/django_ox/supervisor.py:324-331 | the k-th delay is min(base * 2^k, ceiling) for every k if and only if the base is within the ceiling |
| SupervisorRules.FirstIsWorstExactlyForOneSlot | src/django_ox/supervisor.py:527-537 | the first failing slot's code is the worst one whatever happened if and only if there is at most one slot |
| SupervisorLoop.Create | src/django_ox/supervisor.py:167-219 | fewer than one process is refused; otherwise a new supervisor has started nothing and is not stopping |
| SupervisorRules.OneMoreQueue | src/django_ox/supervisor.py:368-371 | one slot's death keeps every slot's queue the window of its history |
| SupervisorLoop.Supervisor.RequestStop | src/django_ox/supervisor.py:474-477 | stopping, nothing due, and the starts so far marked as the last; no child is signalled |
| SupervisorLoop.Supervisor.SignalChildren | src/django_ox/supervisor.py:288-292 | every child that has not exited gets the signal, and nothing else is sent |
| SupervisorLoop.Supervisor.Start | src/django_ox/supervisor.py:262-286 | nothing is started when stopping; otherwise the slot runs, and a stop that lands just after it signals the new child |
| SupervisorLoop.Supervisor.StartDue | src/django_ox/supervisor.py:408-415 | exactly slots that are due are started, as new processes, and none that was due then is left, while every slot stays in one of running and due |
| SupervisorLoop.Supervisor.CollectExit | src/django_ox/supervisor.py:335-343 | a child that exited is taken off and its exit recorded: a failure exactly as its code says, except that a SIGTERM death in a stop is none |
| SupervisorLoop.Supervisor.NextDelay | src/django_ox/supervisor.py:324-331 | the delay is the capped doubling for the restarts since the child last lived long enough |
| SupervisorLoop.Supervisor.Prune | src/django_ox/supervisor.py:370-371 | dropping expired deaths from the front keeps exactly the window |
| SupervisorLoop.Supervisor.RecordDeath | src/django_ox/supervisor.py:368-372 | the queue is the window of the slot's whole history, and over exactly when that exceeds the cap |
| SupervisorLoop.Supervisor.StopOverCap | src/django_ox/supervisor.py:386-389 | over the cap everything stops and every running child is signalled |
| SupervisorLoop.Supervisor.CountDeath | src/django_ox/supervisor.py:368-406 | a death trips the cap exactly when it is one too many, and otherwise the slot is due again after its backoff |
| SupervisorLoop.Supervisor.ReapOne | src/django_ox/supervisor.py:335-406 | a child that exited leaves its slot due again, after the base delay for a recycle and its backoff for a death just counted, and every other slot as it was; or it leaves everything stopped |
| SupervisorLoop.Supervisor.ReapExited | src/django_ox/supervisor.py:333-406 | every child that had exited when the pass began is collected, its exit recorded and, unless stopping, accounted for; no due restart is lost, and while stopping nothing is counted |
| SupervisorLoop.Supervisor.KillOverdue | src/django_ox/supervisor.py:417-430 | once the grace is over every running child gets SIGKILL, once, and before that nothing is sent |
| SupervisorLoop.Supervisor.HandleOne | src/django_ox/supervisor.py:451-472 | a first signal stops, a second starts the grace, a third ends it; each is forwarded to every running child |
| SupervisorLoop.Supervisor.ProcessSignals | src/django_ox/supervisor.py:443-472 | every recorded signal is acted on: it stops, times SIGKILL and reaches every running child; without one nothing changes |
| SupervisorLoop.Supervisor.ExitCode | src/django_ox/supervisor.py:527-538 | 0 exactly when the cap is untripped and every last exit is 0 or a recycle; 1 when it tripped; else the first failing slot's code as a shell reports it |
| SupervisorLoop.Supervisor.StartAll | src/django_ox/supervisor.py:493-501 | every slot is started unless a stop comes between, also from another thread, and a stop before it starts nothing |
| SupervisorLoop.Supervisor.Pass | src/django_ox/supervisor.py:502-508 | every child that had exited when the pass began is off its process, with its exit recorded or its slot started again in this pass, and unless stopping its death or recycle accounted for and the slot running or due; a recorded signal stops and is sent on; a restart that was due runs; a grace that was over has ended in SIGKILL for every running child, and none is sent before |
| SupervisorTurns.PassIsDone | src/django_ox/supervisor.py:503-507 | what the four calls of a pass do one after another is that: each child is the same process still or collected, and collected if it had exited |
| SupervisorTurns.PassSent | src/django_ox/supervisor.py:503-507 | and what they send |
| SupervisorLoop.Supervisor.Supervise | src/django_ox/supervisor.py:502-508 | the loop is over exactly when no child runs and none is due or it is stopping; after a pass no process that had exited before is still among the children |
| SupervisorLoop.Supervisor.DrainTurn | src/django_ox/supervisor.py:516-523 | a step of the drain collects every child that had exited, starts and counts nothing, sends signals on and ends a grace that was over |
| SupervisorLoop.Supervisor.Drain | src/django_ox/supervisor.py:509-524 | nothing is started once stopping; the drain is over only with no child left; every child still running has been signalled, those that had exited are collected, and a grace that was over has sent SIGKILL |
| SupervisorLoop.Supervisor.Run | src/django_ox/supervisor.py:485-545 | run() returns only with no child left and every started slot's exit known, and returns 0 exactly when the cap is untripped and every last exit is 0 or a recycle |
| CommitMeaning.RoundStopsAtTheFirst | src/django_ox/_run_tasks.py:203-210 | a generation is called in order up to and including the first call that stops it |
| CommitMeaning.OneCallStops | src/django_ox/_run_tasks.py:204-209 | an interrupt always stops, a robust failure never, and any other when it raised or left a live connection marked for rollback |
| CommitMeaning.CommitStopsAtTheLast | src/django_ox/_run_tasks.py:197-210 | a commit begins with what was pending, goes on while its calls pass, and what stops it is its last call |
| CommitMeaning.RegisteredInOrder | src/django_ox/_run_tasks.py:98-106 | registrations keep the order of the code, less the blocks undone on their database |
| CommitMeaning.PendingInOrder | src/django_ox/_run_tasks.py:200 | the databases are called one after another in their order, the broken ones left out |
| CommitMeaning.NextIsLower | src/django_ox/_run_tasks.py:197-202 | each generation nests less deeply than the one before, so finitely nested callbacks end |
| CommitMeaning.NextIsOffspring | src/django_ox/_run_tasks.py:184-187 | what a generation leaves on the live databases is exactly its calls' own surviving registrations |
| CommitMeaning.EachCallbackOnce | src/django_ox/_run_tasks.py:183-210 | a commit calls nothing twice and nothing undone; unstopped and with nothing broken it calls all that the pending callbacks lead to |
| CommitMeaning.AttemptCallsEachOnce | src/django_ox/_run_tasks.py:610-633 | the same for a whole attempt: what the body left where it was not rolled back, what the outcome left, and what these led to |
| CommitMeaning.WhenTheBodyCommits | src/django_ox/_run_tasks.py:325-345 | the body's callbacks are called first, by a commit of their own, unless a connection was lost or is broken; then they wait and are called with the outcome's |
| CommitMeaning.AttemptStops | src/django_ox/_run_tasks.py:610-633 | a callback error that reaches the caller is the last call made, one that is recorded was called and is not robust, and with neither every call passed |
| CommitMeaning.BrokenWorkerCallsNothing | src/django_ox/_run_tasks.py:325-345 | a body that breaks the worker's own held connection has nothing called: its commit is left out, and the outcome's write raises past the second |
| AttemptCallbacks.UndoneIsDropped | src/django_ox/_run_tasks.py:102-106 | filtering the list by a savepoint's id removes exactly what was registered inside it |
| AttemptCallbacks.Attempt.constructor | src/django_ox/_run_tasks.py:115-133 | the callbacks pending on the held connections are recorded as the caller's |
| AttemptCallbacks.Attempt.Execute | src/django_ox/_run_tasks.py:98-106 | code only appends to the lists, and on a live connection appends what survives its blocks |
| AttemptCallbacks.Attempt.Within | src/django_ox/_run_tasks.py:310-323 | the same inside a savepoint on each live connection, less what is rolled back there |
| AttemptCallbacks.Attempt.Check | src/django_ox/_run_tasks.py:143-164 | it passes exactly when the caller's callbacks still come first on every live connection, and having failed never passes again |
| AttemptCallbacks.Attempt.Take | src/django_ox/_run_tasks.py:166-172 | the entries after the caller's are cut off and returned |
| AttemptCallbacks.Attempt.TakeAll | src/django_ox/_run_tasks.py:200 | so are those of every live connection, a database at a time, and the caller's stay |
| AttemptCallbacks.Attempt.Discard | src/django_ox/_run_tasks.py:174-181 | nothing of the attempt is left on a live connection, unless the caller's callbacks were moved, and then nothing is removed |
| AttemptCallbacks.Attempt.Call | src/django_ox/_run_tasks.py:212-255 | a callback fails when it raises or leaves a live transaction marked; what it registered survives except where its savepoint was rolled back |
| AttemptCallbacks.Attempt.CallAll | src/django_ox/_run_tasks.py:203-210 | one generation is called as the reference round calls it, and leaves what that leaves |
| AttemptCallbacks.Attempt.Commit | src/django_ox/_run_tasks.py:183-210 | the loop makes exactly the calls of the reference commit, keeps the caller's entries, and clears the attempt's; once the caller's were moved it calls and removes nothing |
| AttemptCallbacks.Attempt.RunBody | src/django_ox/_run_tasks.py:325-354 | the body's commit calls what the body left, and is left out when it was interrupted, lost a connection or broke one |
| AttemptCallbacks.Attempt.RunOne | src/django_ox/_run_tasks.py:610-633 | an attempt makes the calls of its body's commit and, when the outcome's write lands, of its outcome's, and says which callback it failed with and which one's error or interrupt reaches the caller; whatever happened every live connection's list is the caller's own again, unchanged |

## Left out

Tick calculator:

- the constructor's `strip()`, macros and whitespace `split()`: the model starts at the five fields; field text is ASCII.
- `__str__`, `__repr__` and the wording of errors; the parser's errors are kinds.
- time zones and daylight saving, apart from the fold an interval tick carries.
- the other refusals of a `SCHEDULES` entry; `Validate` has those on `every` and `phase`.

Rows, bulk moves and locks:

- the ORM, SQL text and drivers. A statement reads and writes its rows at one instant.
- the worker's own loops: a claim, finish, refund, requeue or loss is one step with the guards of its UPDATE. Which rows a reaper finds stale is left open, so it may requeue any RUNNING row.
- lease renewal, started_at, worker_ids, errors and results: no statement modelled here decides on them.
- the database's key order is one total order on keys that the sort shares; MariaDB's rule for UUIDs is not modelled.
- reading the ids of a queryset; the ids are given.
- TaskTable.Tasks.Attempt: a chunk's locking read and its UPDATE are one instant, so a row inserted between the two is not modelled; one inserted before or after the chunk is. A session of which one write waits for a lock is not held back in its others.
- TaskTable.Tasks.RunMove: in a caller's transaction an error takes back this call's moves; what else that transaction had written or locked is not modelled.
- TaskTable.Tasks.Retry: other sessions are taken to change a row's attempts only with its epoch, which `LeaseTheorems.UpdateRaisesEpochOrKeepsCounters` proves of every modelled statement.
- databases without row locks, where a chunk's UPDATE runs alone.
- LockOrder.NeverDeadlocks: covers calls that hold no lock when they start; a caller's transaction that already holds rows can deadlock, as the original's own words say.
- waiting times, the pause between attempts, and recognising contention from driver error codes.
- `enqueue()` builds a row from a task; here it is a step with a fresh key and a valid budget.

Batch reads:

- `lock_schedule`, `lock_schedules`, `latest_ticks`, `newest_ticks`, `read_ticks` and `earliest_tick`: the tick readers halve in the same way without a column-by-column read.
- the decoding of values, guarded counts and what drivers return: a cell decodes, does not decode, or cannot be delivered.
- StoredRead.ReadSchedules: the table does not change during one read, and the lock decides only the order of the keys.

Supervisor:

- SupervisorLoop.Supervisor.Run: polling passes are bounded by a parameter, and the answer is None when they do not suffice; that children eventually exit is not claimed.
- an exception in the loop other than the stop it leads to; starting a process does not raise.
- heartbeat files, logging, the child's command line and environment; every recorded signal is one kind, as the code treats them alike.
- real numbers stand for floating-point seconds.

Commit callbacks:

- callbacks that register callbacks for ever, for which `commit` does not end: a callback's registrations are part of its value and nest finitely.
- AttemptCallbacks.Attempt.Execute: code registers, opens blocks and breaks connections; code that edits the list itself is covered by what `Check`, `Commit` and `Discard` do on a list where the caller's entries are not first, not run inside a callback.
- databases the caller does not hold in a transaction, where a callback runs at once.
- a savepoint release or rollback that itself fails inside a callback; for the body, a failed release is a rolled back savepoint and `lost`.
- why an outcome's write raises, apart from the worker's own broken connection, is a parameter.
- an error setting up the body's savepoints, logging, and the claim, execution and result around the body and the outcome's write.
- what the callbacks write; only which are called, in which order, and which stay registered.
