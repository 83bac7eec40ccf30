# A model of the flight-software kernel

The firmware runs FreeRTOS, single core, on 64-bit RISC-V, with a few pieces of its own for fault
detection, isolation and recovery. This project models the parts of both that carry state across
calls and proves what they are relied on for. `dafny verify dfyconfig.toml` checks all of it.

- **Time and lists.** `IntrusiveList` is the pointer list; `Rings`, `SortedInsertion`, `Directories`
  and `SortedDirectories` are its value as a sequence with a walking index, and families of such
  lists that share their items. `Ticks` relates the wrapping 64-bit tick count to unbounded real time.
- **Scheduler.** `DelayedLists`, `EventLists`, `KernelState`, `WakingOrder`, `TickCounting` and
  `TaskMoves` hold the invariant of the task lists, what each change keeps and in which order tasks
  become ready; `Scheduler.Kernel` is the code;
  `SchedulerSteps` and `SchedulerRuns` state what its methods promise as labelled steps, and what
  follows over whole runs.
- **Software timers.** `TimerArithmetic`, `TimerState`, `SoftwareTimers`, `TimerRuns`.
- **Block times.** `BlockTime`: time-outs and periodic delays.
- **Queues.** `ByteQueue` (storage) refines `BoundedDeque`; `QueueLock` adds the waiting tasks and the
  deferral of wakeups.
- **Stream and message buffers.** `StreamBuffer` refines `MessageQueue`.
- **Event groups.** `EventGroup`.
- **Mutexes.** `MutexState`, `PriorityInheritance`, and `InheritanceLimits`, runs that show its limits.
- **Image integrity.** `Bits`, `Crc32`, `ImageIntegrity`: the boot check and the build-time patcher.
  `CrcRemainder` says what the CRC is, `CrcByBytes` works out its known values.
- **Scrubbing and recording.** `SystemState`, `MemoryScrub`, `FlightRecorder`, `StateMachine`.

A critical section, or a stretch with the scheduler suspended, is one method call; where the code has
neither and another task can come between, the steps are methods of their own. Real time, real
wake and expiry times, and histories are part of the model only. A word of event bits and a scrubbed
byte are sets of bit numbers. The tick type, `size_t` and event bits are 64 bits wide, as in
`FreeRTOS/Source/portable/GCC/RISC-V/portmacro.h`.

Where the code does less than its documentation says, the code is modelled, and the exact limit is a
lemma:

- A waiting task that inherits a priority is not moved on its event list. The list stays in order,
  and a wakeup stays that of a highest waiter, exactly if the new priority fits between its
  neighbours (`EventLists.InOrderIffFits`, `EventLists.HeadIsHighestIff`, `SchedulerRuns.ReprioritiseKeepsOrder`);
  `EventLists.InheritanceUnsettles` and the run `InheritanceLimits.LowerWaiterWoken` show it fail.
- A task for which a holder waits does not inherit what the holder inherits
  (`PriorityInheritance.Kernel.BlockOn`, `InheritanceLimits.RaisedWhileWaiting`).
- A task that takes a mutex while a waiter of higher priority is still on its list does not inherit
  that waiter's priority (`MutexState.OwnOk`, `InheritanceLimits.TakenBelowAWaiter`).
- A task that has inherited, asks for its own mutex and times out can fail the kernel's assertion
  that it cannot have inherited its own priority (`InheritanceLimits.AskedForByItsHolder`).
- `EventBits_t` has 64 bits but the control masks have 32: waits for bits above 31 pass the assertions
  and are then tested wrongly (`EventGroup.TestIsRightIffNarrow`).
- `xTaskCheckForTimeOut` can miss a time-out when two or more wraps passed between calls
  (`BlockTime.ExactUnlessHidden`, `BlockTime.HiddenByThreeWraps`).
- Resetting a queue wakes one task that waits to send, though there is room for more
  (`QueueLock.LockedQueue.Reset`).
- Overwriting a full queue that has no storage counts past its length (`ByteQueue.SendRefinesDeque`).
- A fault is flipped some time before it is posted: a scrubber that wakes in between has an empty queue
  and an area that is not the golden copy (`MemoryScrub.Scrubber.Drain`, `MemoryScrub.DrainedBeforeThePost`),
  and what an injector writes back late can undo a correction (`MemoryScrub.StaleFlip`).
- The flight recorder has no critical section: of two stores that overlap one is lost and a stale entry
  shows as the newest (`FlightRecorder.Recorder.Overlap`, `FlightRecorder.Recorder.Interleave`), which
  can break the path of state changes (`StateMachine.Machine.ChangeOverlapped`).
- A scrubbed byte that protected regions let be written but not read loses its other bits
  (`MemoryScrub.OtherBitsKept`); no region of this firmware is like that. The recorder keeps 8 bits of
  a 9-bit byte index (`FlightRecorder.SeuEntryNamesByteUpToHalf`).
- Half of the bits of the scrub area are never hit by an injected fault (`MemoryScrub.FaultsReached`).

The assertion in `taskSWITCH_DELAYED_LISTS` that the current list is empty holds in every run without a
block for zero ticks in the last tick of an epoch (`SchedulerRuns.SwitchFindsListEmpty`). Such a block
would break it, and only that (`DelayedLists.DelayMakesNoneDue`), but no caller asks for one:
`Scheduler.Kernel.TaskDelay` guards against zero, `BlockTime.DelayUntil` and
`BlockTime.TimeOut.CheckForTimeOut` leave more than zero to wait, and
`SoftwareTimers.Daemon.ProcessTimerOrBlockTask` asks for zero only in the first tick of an epoch.

## Model

| member | source | states |
|---|---|---|
| `Ticks.AddIsReal` | FreeRTOS/Source/tasks.c:8634-8641 | the wrapped 64-bit sum of the tick count and a block time is the residue of the real wake time, and comes out below the tick count exactly when the epoch changes |
| `Ticks.SubIsReal` | FreeRTOS/Source/tasks.c:5609-5610 | the wrapped difference of two tick counts less than a wrap apart is the real time between them, and a wrap shows as the later count being the smaller |
| `IntrusiveList.List.constructor` | FreeRTOS/Source/list.c:49-86 | an initialised list is an empty well-formed ring whose end marker holds portMAX_DELAY and whose index stands on it |
| `IntrusiveList.List.InsertEnd` | FreeRTOS/Source/list.c:105-134 | the pointer surgery puts the item just before the index: the ring of items becomes that of the abstract insertion, next and previous stay inverse, container and count are right, nothing else moves |
| `IntrusiveList.List.Insert` | FreeRTOS/Source/list.c:139-210 | the search loop terminates for every value, portMAX_DELAY included, and the item goes to the one place where stable sorted insertion puts it |
| `IntrusiveList.List.Remove` | FreeRTOS/Source/list.c:217-247 | the item leaves the ring, its container is cleared, an index on it steps back, the returned count is that of the rest |
| `IntrusiveList.List.Advance` | FreeRTOS/Source/tasks.c:206-207 | walking the index skips the end marker and yields the owner the abstract ring says |
| `IntrusiveList.RemoveBeside` | FreeRTOS/Source/list.c:217-247 | removing from one list leaves another list on the same heap well formed and unchanged |
| `IntrusiveList.InsertBeside` | FreeRTOS/Source/list.c:139-210 | sorted insertion into one list leaves another list well formed and unchanged |
| `IntrusiveList.InsertEndBeside` | FreeRTOS/Source/list.c:105-134 | insertion at the end of one list leaves another list well formed and unchanged |
| `IntrusiveList.Move` | FreeRTOS/Source/tasks.c:8607-8663 | an item that is taken off one list and sorted into another is on exactly the second, at the place of its value, and both stay well formed |
| `IntrusiveList.MoveToEnd` | FreeRTOS/Source/tasks.c:4817-4834 | an item that is taken off one list and put at the end of another is on exactly the second, just before its index, and both stay well formed |
| `SortedInsertion.InsertPosUnique` | FreeRTOS/Source/list.c:139-210 | the insertion place is the only one with nothing greater before it and something greater after it |
| `SortedInsertion.InsertSorts` | FreeRTOS/Source/list.c:139-210 | insertion keeps the list sorted and adds exactly the new value |
| `SortedInsertion.InsertIsStable` | FreeRTOS/Source/list.c:139-210 | an equal value that was there first stays in front |
| `SortedDirectories.InsertedInto` | FreeRTOS/Source/list.c:139-210 | without naming the place: in the list after an insertion every item before the newcomer has no greater value, the next one a greater, in a list in order all that follow a greater, and the others keep their order |
| `Rings.NextRotates` | FreeRTOS/Source/tasks.c:206-207 | a walk serves the first of the order, which becomes the last |
| `Rings.InsertEndOrder` | FreeRTOS/Source/list.c:105-134 | an item inserted at the end is served after every item but the one served last |
| `Rings.JoinedOrder` | FreeRTOS/Source/list.c:105-134 | items inserted at the end one after the other are served in that order, after every item but the one served last, and the order of the others stays |
| `Rings.RemoveOrder` | FreeRTOS/Source/list.c:217-247 | removal takes the item out of the serving order and moves nothing else, wherever the index stands |
| `Rings.EachServedOnce` | FreeRTOS/Source/tasks.c:204-207 | as many consecutive walks as there are items serve every item exactly once |
| `Directories.LengthsCountItems` | FreeRTOS/Source/list.c:217-247 | over lists that share their items, each item is counted on exactly one list: the lengths add up to the number of items listed |
| `Directories.RemoveIsWithout` | FreeRTOS/Source/list.c:217-247 | an item that leaves its list leaves the others of every list of the family in their order |
| `DelayedLists.AgreesAfterDelay` | FreeRTOS/Source/tasks.c:8634-8663 | the C comparison picks the list of the real wake time's epoch, and sorted insertion there keeps the current list to this epoch and the overflow list to the next |
| `DelayedLists.SwitchIsSafe` | FreeRTOS/Source/tasks.c:265-277 | when the counter is about to wrap and nothing is due, the current list is empty, so the assertion holds, and the lists switched agree with the new epoch |
| `DelayedLists.DelayMakesNoneDue` | FreeRTOS/Source/tasks.c:8634-8663 | blocking leaves nothing due if and only if it is not a block for zero ticks in the last tick of an epoch; only such a call would leave the list non-empty at the wrap |
| `DelayedLists.HeadIsLeast` | FreeRTOS/Source/tasks.c:6526-6544 | the head of the current list carries the least wake time of the list, with no entry due before it |
| `EventLists.OrderedAfterInsert` | FreeRTOS/Source/tasks.c:5321-5328 | an event list in descending priority stays so when a task is inserted by its item value, and no other list is touched |
| `EventLists.PlacedByPriority` | FreeRTOS/Source/tasks.c:5321-5328 | a task put on an event list stands behind the tasks of at least its priority and in front of a lower one, of all lower ones if the list was in order; the others keep their order |
| `EventLists.HeadIsHighest` | FreeRTOS/Source/tasks.c:5413-5429 | the head of an event list that is in order is a waiter of the highest priority |
| `EventLists.InOrderIffFits` | FreeRTOS/Source/tasks.c:6669-6671 | when the item value of a waiter is rewritten where it stands, the list stays in order if and only if the new priority is between those of its neighbours |
| `EventLists.HeadIsHighestIff` | FreeRTOS/Source/tasks.c:5413-5429 | after such a change the head is still a waiter of the highest priority if and only if the changed waiter is the head and not below its follower, or another one and not above the head |
| `EventLists.OrderedAfterChange` | FreeRTOS/Source/tasks.c:6669-6671 | over all event lists, a change of priority keeps in order what was in order if the waiter fits, and only then if all were |
| `EventLists.InheritanceUnsettles` | FreeRTOS/Source/tasks.c:6669-6671 | a list of priorities 2 and 1 whose second waiter inherits 3 is out of order and its head is not the highest |
| `KernelState.RelocateKeeps` | FreeRTOS/Source/tasks.c:4817-4834 | taking a blocked or ready task off its lists to a ready, suspended or termination list keeps the whole invariant: epochs, order, cached unblock time, ready priorities, event lists |
| `KernelState.DropKeeps` | FreeRTOS/Source/tasks.c:2236-2265 | taking a task off every list for good keeps the whole invariant |
| `KernelState.CreateKeeps` | FreeRTOS/Source/tasks.c:2052-2110 | adding a task keeps the whole invariant, the bound on ready priorities included |
| `KernelState.ReprioritiseKeeps` | FreeRTOS/Source/tasks.c:6664-6708 | a change of priority keeps the whole invariant, the bound on ready priorities included |
| `KernelState.DelayKeeps` | FreeRTOS/Source/tasks.c:8590-8666 | blocking for a finite time keeps the whole invariant, and leaves nothing due and the cached unblock time right if and only if it is not the one case of DelayMakesNoneDue |
| `KernelState.TickKeeps` | FreeRTOS/Source/tasks.c:4756-4769 | counting a tick, with the switch of the lists at a wrap, keeps the invariant, and the current list is empty at the switch |
| `TickCounting.LengthsSumToTasks` | FreeRTOS/Source/tasks.c:2056-2059 | every task's state item is on exactly one ready, delayed, overflow, suspended or termination list, and the lengths sum to uxCurrentNumberOfTasks |
| `WakingOrder.UnblockJoins` | FreeRTOS/Source/tasks.c:4817-4834 | a task that becomes ready goes to the end of the ready list of its priority; every other ready list is unchanged, its index included, and every other list keeps its order without the task |
| `WakingOrder.UnblockHeadJoins` | FreeRTOS/Source/tasks.c:4778-4834 | the task at the head of the current delayed list is the first of the delayed tasks of both lists; taking it leaves the rest in order |
| `WakingOrder.ReadiedMore` | FreeRTOS/Source/tasks.c:4776-4866 | tasks readied in two stretches are as readied in one, one after the other: their places on the ready lists follow from the order in which they were taken alone |
| `TickCounting.SleepersInOrder` | FreeRTOS/Source/tasks.c:4778-4802 | the tasks on the current and then the overflow delayed list stand in the order of their real wake times |
| `TickCounting.ResetIsLeast` | FreeRTOS/Source/tasks.c:6526-6544 | xNextTaskUnblockTime is exactly the least value on the current list, or portMAX_DELAY if it is empty |
| `TickCounting.ResetKeeps` | FreeRTOS/Source/tasks.c:6526-6544 | recomputing xNextTaskUnblockTime from the head keeps it no later than any entry of the current list |
| `TickCounting.TickEnds` | FreeRTOS/Source/tasks.c:4778-4802 | when the head is in the future the loop may stop: exactly the tasks whose real wake time has come have been woken, and the cached unblock time is right |
| `TickCounting.NothingToWake` | FreeRTOS/Source/tasks.c:4776 | below the cached unblock time no task is due, across a wrap as well, so skipping the loop loses nothing |
| `Scheduler.Kernel.constructor` | FreeRTOS/Source/tasks.c:6078-6106 | the scheduler starts in a state that satisfies the invariant, with all event lists in order, no task but the idle task, and nothing suspended or waiting |
| `Scheduler.Kernel.WakeDue` | FreeRTOS/Source/tasks.c:4776-4866 | the loop terminates, wakes exactly the tasks whose real wake time has come, in the order in which they slept, leaves every other where it was, and asks for a switch exactly if a woken task has a higher priority than the current one |
| `Scheduler.Kernel.IncrementTick` | FreeRTOS/Source/tasks.c:4736-4974 | while the scheduler runs, one tick of real time passes, exactly the due tasks become ready and a switch is asked for exactly when a woken task preempts, the current priority is shared or a yield is pending; the woken tasks join their ready lists just before the index in the order in which they slept, and ready lists are otherwise unchanged, their index included, delayed and event lists keep their order; a task stays on its event list exactly as long as it is blocked; while the scheduler is suspended only xPendedTicks changes |
| `Scheduler.Kernel.Block` | FreeRTOS/Source/tasks.c:8590-8666 | the current task alone leaves the ready lists, until so many ticks of real time from now, behind the tasks that wake no later, or for ever if asked with portMAX_DELAY; the switch assertion is kept if and only if it does not ask for zero ticks in the last tick of an epoch |
| `Scheduler.Kernel.PlaceOnEventList` | FreeRTOS/Source/tasks.c:5307-5333 | the current task waits on the event list, behind the waiters of at least its priority, and blocks; no other task moves and no list gets out of order |
| `Scheduler.Kernel.RemoveFromEventList` | FreeRTOS/Source/tasks.c:5405-5462 | the first waiter is woken, one of the highest priority if the list is in order: at the end of its ready list at once, or only at the end of xPendingReadyList while the scheduler is suspended; every other list keeps its order; a switch is asked for exactly if it preempts |
| `Scheduler.Kernel.SuspendAll` | FreeRTOS/Source/tasks.c:3848-3890 | nesting of suspensions is counted and nothing else changes |
| `Scheduler.Kernel.DrainPending` | FreeRTOS/Source/tasks.c:4053-4098 | the loop empties xPendingReadyList: exactly the pending tasks become ready, in the order of that list, and a yield is pending afterwards exactly if it was before or one of them preempts |
| `Scheduler.Kernel.RunPendedTicks` | FreeRTOS/Source/tasks.c:4100-4131 | the ticks pended are all counted, one after the other, and none is left; a yield is pending afterwards exactly if it was before, a woken task preempts or the current priority is shared at a tick |
| `Scheduler.Kernel.ResumeAll` | FreeRTOS/Source/tasks.c:4022-4167 | the outermost call readies exactly the pending tasks and those whose wake time passes with the pended ticks, the pending ones first and each kind in the order of its list, changes the ready lists in no other way, takes them off their event lists and no other, leaves xPendingReadyList and xPendedTicks empty, and yields exactly if that was asked for before, a readied task preempts or the current priority is shared at a pended tick; an inner call only counts down |
| `Scheduler.Kernel.CatchUpTicks` | FreeRTOS/Source/tasks.c:4612-4637 | exactly that many ticks are counted, with every task due in between ready, in the order in which they slept; it yields exactly if that was asked for before, a woken task preempts or the current priority is shared at a tick |
| `Scheduler.Kernel.SwitchContext` | FreeRTOS/Source/tasks.c:5120-5200 | the loop terminates above priority 0 and the task chosen is ready, of the highest ready priority, which uxTopReadyPriority then is, and the next of its list in turn; no other list changes; while suspended only a yield is noted |
| `Scheduler.Kernel.TaskDelay` | FreeRTOS/Source/tasks.c:2469-2511 | a task that asks for d > 0 ticks alone leaves the ready lists, until d ticks of real time from then, and whatever ticks arrive before the scheduler resumes are then counted; one that asks for none changes nothing; the whole invariant is kept for every d |
| `Scheduler.Kernel.Reprioritise` | FreeRTOS/Source/tasks.c:6664-6708 | a ready task goes to the end of the ready list of its new priority; a waiting one is not moved on its event list; nothing else changes |
| `Scheduler.Kernel.AddNewTask` | FreeRTOS/Source/tasks.c:2052-2110 | the new task is ready at the end of the list of its priority, counted, and no other task moves |
| `Scheduler.Kernel.Delete` | FreeRTOS/Source/tasks.c:2223-2345 | a task deleting itself goes to the termination list and is counted there; any other leaves every list and the count of tasks, and the cached unblock time is recomputed; no other task moves on any list; the counts stay right if and only if the task was not already waiting for clean-up |
| `Scheduler.Kernel.CheckTasksWaitingTermination` | FreeRTOS/Source/tasks.c:6110-6138 | the idle task's loop terminates, removes exactly the tasks on the termination list, brings both counts down by their number and changes no other list of tasks and no event list |
| `SchedulerRuns.NothingIsLeftDue` | FreeRTOS/Source/tasks.c:8634-8663 | over any run without a block for zero ticks in the last tick of an epoch, nothing on the current delayed list is overdue in any state and xNextTaskUnblockTime is no later than any entry |
| `SchedulerRuns.SwitchFindsListEmpty` | FreeRTOS/Source/tasks.c:265-277 | in any run without a block for zero ticks in the last tick of an epoch, the assertion holds in every state in which the counter is about to wrap, whatever was blocked, woken, resumed or deleted before |
| `SchedulerRuns.StepIsClockOnly` | FreeRTOS/Source/tasks.c:4736-4974 | every step of the scheduler that is not about a delayed task leaves it alone until counted ticks bring its wake time, and then makes it ready |
| `SchedulerRuns.WokenOnTheDueTick` | FreeRTOS/Source/tasks.c:4753-4866 | in every run in which only the clock is about a delayed task it is blocked in every state before its real wake time and ready in the state that counts that tick, across any number of wraps |
| `SchedulerRuns.BlocksForExactly` | FreeRTOS/Source/tasks.c:8590-8660 | a task that blocks for 0 < d < 2^64 ticks with no event is ready on exactly the d-th counted tick |
| `SchedulerRuns.StepAccounts` | FreeRTOS/Source/tasks.c:4967-4969 | every step accounts for the ticks it delivers, except exactly the tick that makes xPendedTicks wrap |
| `SchedulerRuns.NoTickIsLost` | FreeRTOS/Source/tasks.c:4100-4131 | over any run without such a wrap the ticks counted plus xPendedTicks are the ticks delivered plus the ticks caught up |
| `SchedulerRuns.StepKeepsOrder` | FreeRTOS/Source/tasks.c:5321-5328 | no step but a change of priority puts an event list out of order |
| `SchedulerRuns.ReprioritiseKeepsOrder` | FreeRTOS/Source/tasks.c:6669-6671 | a change of priority leaves the event lists in order if and only if the waiter fits where it stands |
| `SchedulerRuns.EventListsStayOrdered` | FreeRTOS/Source/tasks.c:5413-5429 | over any run that starts in order and in which every waiter whose priority changes fits, all event lists are in order in every state |
| `SchedulerRuns.CountersShowTheTime` | FreeRTOS/Source/tasks.c:5586-5594 | the kernel's two counters at real time t are those by which time-outs are measured: t is xNumOfOverflows times 2^64 plus xTickCount |
| `SchedulerRuns.StepGrows` | FreeRTOS/Source/tasks.c:4736-4974 | every step but a context switch that takes no task off a ready list leaves it as it is, its index included, but for tasks that join it just before the index |
| `SchedulerRuns.ServedInOrder` | FreeRTOS/Source/tasks.c:184-210 | over every run in which no task leaves the ready list of n tasks at the top priority, whatever ticks are counted and whatever tasks join it, the first n - 1 context switches run the first n - 1 of them in walking order |
| `SchedulerRuns.EachTaskRunsOnce` | FreeRTOS/Source/tasks.c:184-210 | over every run in which no task leaves the ready list at the top priority and none joins it, whatever ticks, wakeups and suspensions come between them, n context switches run each of its n tasks exactly once |
| `TimerArithmetic.InsertDecision` | FreeRTOS/Source/timers.c:890-931 | for a command less than a wrap old the tests on residues say process now exactly if command time plus period has come in real time, and otherwise name the list of the right epoch |
| `TimerArithmetic.MissedIsQuotient` | FreeRTOS/Source/timers.c:695-711 | the number of further expiries that have come is the number of whole periods since the expiry |
| `TimerArithmetic.NextDueIsNext` | FreeRTOS/Source/timers.c:695-711 | the timer is re-armed at the first expiry after now, at most a period away |
| `TimerArithmetic.NextDueAfterEpoch` | FreeRTOS/Source/timers.c:1089-1106 | from the end of an epoch the next expiry falls in the epoch after it, so nothing is put back on the list being drained |
| `TimerState.AttachOk` | FreeRTOS/Source/timers.c:905-928 | a timer put on the list of its expiry's epoch in order keeps both lists sorted and to their epochs |
| `TimerState.SwapOk` | FreeRTOS/Source/timers.c:1108-1110 | with the current list drained the lists change roles for the next epoch |
| `TimerState.ProcessedOnSchedule` | FreeRTOS/Source/timers.c:714-741 | processing the head gives it one callback for each expiry that has come, none early, and no other timer any |
| `TimerState.BlocksUntilNextExpiry` | FreeRTOS/Source/timers.c:806-822 | the time for which the daemon blocks ends no later than the next expiry of any timer, exactly at the head's, and is unlimited exactly when no timer is listed |
| `TimerState.ScheduleTrans` | FreeRTOS/Source/timers.c:744-775 | being on schedule composes: callbacks and expiries of every timer add up over consecutive stretches |
| `SoftwareTimers.Daemon.Create` | FreeRTOS/Source/timers.c:417-450 | a new timer gets its period and mode, is dormant, and no other timer is touched |
| `SoftwareTimers.Daemon.InsertTimerInActiveList` | FreeRTOS/Source/timers.c:890-931 | returns process now exactly if the real expiry time has come; otherwise the timer is on the list of the right epoch, behind those that expire no later, and the others keep their order |
| `SoftwareTimers.Daemon.ReloadTimer` | FreeRTOS/Source/timers.c:695-711 | the loop terminates after exactly one callback for each further expiry that has come, and the timer is back on a list at the first that has not, in order, no other timer moved |
| `SoftwareTimers.Daemon.ProcessExpiredTimer` | FreeRTOS/Source/timers.c:714-741 | an auto-reload timer gets its callback once more than the expiries it missed and is re-armed at the next; a one-shot timer gets one and is no longer active; no other timer moves and no call so far is forgotten |
| `SoftwareTimers.Daemon.SwitchTimerLists` | FreeRTOS/Source/timers.c:1089-1111 | the loop terminates because nothing returns to the list being drained, every timer left of the old epoch is processed on schedule, and the lists serve the next epoch |
| `SoftwareTimers.Daemon.SampleTimeNow` | FreeRTOS/Source/timers.c:867-887 | sampled at least once per wrap, the time is the residue of real time and the lists are switched exactly when the epoch changed |
| `SoftwareTimers.Daemon.GetNextExpireTime` | FreeRTOS/Source/timers.c:840-864 | the head's expiry, or 0 so that the daemon wakes at the wrap when the current list is empty |
| `SoftwareTimers.Daemon.ProcessTimerOrBlockTask` | FreeRTOS/Source/timers.c:778-837 | either something due is processed on schedule, or the daemon blocks with nothing due, until no later than the next expiry, and for zero ticks only in the first tick of an epoch |
| `SoftwareTimers.Daemon.StartTimer` | FreeRTOS/Source/timers.c:998-1025 | a start or reset counts from the time it was sent: periods that have passed since get their callbacks, a one-shot timer already over is not active; period and auto-reload flag stay as they are |
| `SoftwareTimers.Daemon.ProcessCommand` | FreeRTOS/Source/timers.c:934-1086 | each command does to its timer what it asks, and only a change of period changes a setting of a timer that still exists; a NULL timer or pended call changes no timer, every other timer stays on schedule, and a timer is active exactly if it is on exactly one list |
| `SoftwareTimers.Daemon.ProcessReceivedCommands` | FreeRTOS/Source/timers.c:934-1086 | every message received is obeyed in turn, and the daemon's invariant holds before and after each |
| `TimerRuns.StepKeepsTime` | FreeRTOS/Source/timers.c:744-775 | every pass of the daemon's loop, every new timer and every command for another timer keeps a timer on schedule |
| `TimerRuns.CallsSinceStart` | FreeRTOS/Source/timers.c:744-775 | over any run of such steps, whenever nothing is due at real time T, a timer that was of the auto-reload kind when started at real time C has been called exactly floor((T-C)/period) times |
| `BlockTime.TimeOut.CheckForTimeOut` | FreeRTOS/Source/tasks.c:5598-5657 | with at most one wrap since the last call, time-out is reported exactly if the real deadline has come, and otherwise the wait left ends at that deadline; a caller told to wait on never waits for zero ticks |
| `BlockTime.OneWrap` | FreeRTOS/Source/tasks.c:5609-5657 | with at most one wrap since the last call, time-out is reported exactly if the real deadline has come, and the deadline survives the rewriting |
| `BlockTime.ExactUnlessHidden` | FreeRTOS/Source/tasks.c:5636-5657 | for any time since the last call the report is right if and only if it is not the case that two or more wraps are hidden behind close residues |
| `BlockTime.HiddenByThreeWraps` | FreeRTOS/Source/tasks.c:5636-5657 | a wait of ten ticks begun in the last tick of an epoch and next looked at three wraps and five ticks later is not reported over |
| `BlockTime.ExpiresAtTheDeadline` | FreeRTOS/Source/tasks.c:5598-5657 | over any series of calls with at most one wrap between two, time-out is reported exactly at the first call whose total elapsed time reaches the original wait |
| `BlockTime.ForeverNeverExpires` | FreeRTOS/Source/tasks.c:5624-5633 | a wait of portMAX_DELAY is never over |
| `BlockTime.DelayUntil` | FreeRTOS/Source/tasks.c:2377-2440 | with fewer than 2^64 ticks since the previous wake time, the task delays exactly if its next wake time is in the real future, and for exactly the time left |
| `BlockTime.NoDrift` | FreeRTOS/Source/tasks.c:2377-2440 | a task that is back within every period resumes at exact multiples of the period |
| `ByteQueue.Queue.CopyDataToQueue` | FreeRTOS/Source/queue.c:2393-2473 | sending to the back, to the front or over the one item changes the deque as it should, every byte copied inside the storage area, with write slot = read slot + 1 + count, round the ring, kept |
| `ByteQueue.Queue.CopyDataFromQueue` | FreeRTOS/Source/queue.c:2476-2494 | the bytes of the first item are read, inside the storage area |
| `ByteQueue.Queue.Peek` | FreeRTOS/Source/queue.c:1906-1925 | the first item is returned and the read position restored |
| `ByteQueue.SendRefinesDeque` | FreeRTOS/Source/queue.c:2404-2473 | a send is that of a bounded deque if and only if it does not overwrite a full queue without storage, which counts one item too many |
| `BoundedDeque.FirstInFirstOut` | FreeRTOS/Source/queue.c:2427-2440 | over any run of sends to the back, receives and peeks, what was received and what is left is what was there and what was accepted, in order |
| `BoundedDeque.NeverOverfull` | FreeRTOS/Source/queue.c:978 | no run takes more items than the length |
| `BoundedDeque.FrontAndPeek` | FreeRTOS/Source/queue.c:2393-2473 | a send is taken exactly if there is room or it overwrites; what is sent to the front is received next and leaves the rest as it was, what overwrites replaces the one item, a peek shows what is received next and takes nothing, a reset leaves nothing |
| `QueueLock.LockedQueue.LockQueue` | FreeRTOS/Source/queue.c:244-256 | each side is marked locked and unmodified unless it was locked already |
| `QueueLock.LockedQueue.Reset` | FreeRTOS/Source/queue.c:310-346 | the queue is empty and unlocked on both sides, tasks waiting to receive stay and the first task waiting to send is woken; no other sender is forgotten if and only if there is none or the whole length has takers |
| `QueueLock.LockedQueue.WaitersAreCovered` | FreeRTOS/Source/queue.c:1078-1090 | what every operation of the queue keeps: while it is unlocked and tasks wait to receive, there are no more items than woken tasks that have still to try again, and likewise for spaces and tasks waiting to send |
| `QueueLock.LockedQueue.Send` | FreeRTOS/Source/queue.c:978-1082 | an item is taken exactly if there is room or it overwrites, is then where the deque has it, and wakes the first task waiting to receive; nobody is forgotten |
| `QueueLock.LockedQueue.Receive` | FreeRTOS/Source/queue.c:1533-1570 | the first item is returned and removed and wakes the first task waiting to send, or nothing happens if there is none; nobody is forgotten |
| `QueueLock.LockedQueue.Peek` | FreeRTOS/Source/queue.c:1906-1945 | the first item is returned and left, and the next task waiting to receive is woken for it; nobody is forgotten |
| `QueueLock.LockedQueue.MustWait` | FreeRTOS/Source/queue.c:1604-1617 | a task that has locked the queue and finds it empty, or full, may wait without being forgotten, whatever interrupts do before it is on the list |
| `QueueLock.LockedQueue.GiveUp` | FreeRTOS/Source/tasks.c:4817-4834 | a task whose wait has timed out leaves its list, the others keep their order, and nobody else is forgotten |
| `QueueLock.LockedQueue.SetRank` | FreeRTOS/Source/tasks.c:6669-6671 | inheritance changes the item value of a waiter and not its place |
| `QueueLock.LockedQueue.SendFromISR` | FreeRTOS/Source/queue.c:1204-1330 | the item is taken as from a task; it wakes the first waiter of an unlocked queue, and of a locked one is only counted, up to the number of tasks, within an int8; nobody is forgotten |
| `QueueLock.LockedQueue.ReceiveFromISR` | FreeRTOS/Source/queue.c:2071-2120 | the same for taking an item and the tasks waiting to send |
| `QueueLock.LockedQueue.PlaceWaiter` | FreeRTOS/Source/queue.c:1604-1617 | a task goes on the list of its side behind the waiters of at least its priority and in front of a lower one, of all lower ones if the list is in order; the others keep their order, whether or not the queue is locked, and a list in order stays so |
| `QueueLock.UnlockSide` | FreeRTOS/Source/queue.c:2497-2560 | each of the two loops terminates and wakes the first so many waiters of its side as were counted, or all |
| `QueueLock.LockedQueue.UnlockQueue` | FreeRTOS/Source/queue.c:2497-2614 | both sides are unlocked, the deferred wakeups made up for, and nobody is forgotten |
| `QueueLock.NoWakeupIsLost` | FreeRTOS/Source/queue.c:2497-2614 | over a whole locked episode with any interleaving of posts and of tasks placing themselves, unlocking wakes exactly the first min(posts, waiters) tasks of the list, despite the cap |
| `QueueLock.PlacementsWaiting` | FreeRTOS/Source/queue.c:1605-1617 | the list those tasks form is without repetition, and in priority order if it was |
| `QueueLock.LastPlacedIsWoken` | FreeRTOS/Source/queue.c:1605-1617 | a task placed after the emptiness check is woken if there were at least as many posts as waiters |
| `QueueLock.ServedIsHighest` | FreeRTOS/Source/tasks.c:5413-5429 | with the waiters in order the one served is of the highest priority, and of those the one that stands first; the others stay as they were |
| `QueueLock.FirstPlacedIsWokenFirst` | FreeRTOS/Source/queue.c:1605-1617 | of two tasks of one priority that place themselves during a locked episode, the one placed first is woken first |
| `MessageQueue.FramesInjective` | FreeRTOS/Source/stream_buffer.c:1014-1048 | the stored bytes determine the messages: eight little-endian length bytes before each |
| `MessageQueue.WholeAndInOrder` | FreeRTOS/Source/stream_buffer.c:1003-1053 | over any interleaving of sends and receives the messages delivered and those still stored are those stored at the start and those accepted, whole and in order |
| `MessageQueue.FitsIffSpace` | FreeRTOS/Source/stream_buffer.c:1003-1053 | a message fits exactly if it is not empty and the messages stored and it, with eight bytes for each, do not exceed the capacity |
| `StreamBuffer.Appended` | FreeRTOS/Source/stream_buffer.c:1479-1522 | a write that may wrap, just after what is stored, shows as the data appended |
| `StreamBuffer.Skipped` | FreeRTOS/Source/stream_buffer.c:1525-1566 | reading on from further round the ring skips exactly the bytes before |
| `StreamBuffer.Buffer.BytesInBuffer` | FreeRTOS/Source/stream_buffer.c:1569-1587 | counts the bytes stored, wherever head and tail are |
| `StreamBuffer.Buffer.SpacesAvailable` | FreeRTOS/Source/stream_buffer.c:754-788 | bytes stored and spaces reported make up the length less one |
| `StreamBuffer.Buffer.WriteBytes` | FreeRTOS/Source/stream_buffer.c:1479-1522 | the two copies write exactly the places from the head on, round the ring, and no other |
| `StreamBuffer.Buffer.ReadBytes` | FreeRTOS/Source/stream_buffer.c:1525-1566 | the two copies read exactly the bytes from the tail on |
| `StreamBuffer.Buffer.StageMessage` | FreeRTOS/Source/stream_buffer.c:1014-1048 | until the head moves, what is written is out of the reader's sight, even if the space was measured before the reader made more |
| `StreamBuffer.Buffer.WriteMessage` | FreeRTOS/Source/stream_buffer.c:1003-1053 | a message that fits is stored whole behind its length; an empty one or one that does not fit changes nothing to the reader and 0 is returned |
| `StreamBuffer.Buffer.WriteStream` | FreeRTOS/Source/stream_buffer.c:1036-1050 | as many bytes as there is space for are appended |
| `StreamBuffer.Buffer.Send` | FreeRTOS/Source/stream_buffer.c:906-915 | with no block time, a message buffer is sent to as the message queue says, a stream takes all it has room for |
| `StreamBuffer.Buffer.ReadMessage` | FreeRTOS/Source/stream_buffer.c:1279-1331 | the oldest message is delivered whole, or nothing changes if it is longer than the room offered |
| `StreamBuffer.Buffer.Receive` | FreeRTOS/Source/stream_buffer.c:1139-1163 | with no block time, a message buffer delivers as the message queue says, a stream delivers its oldest bytes |
| `StreamBuffer.Buffer.SendWhileReading` | FreeRTOS/Source/stream_buffer.c:906-915 | a send into which the reader comes any number of times, before and after the bytes are written, is as one after all that: messages stay whole and in order, streams lose and repeat no byte |
| `StreamBuffer.Buffer.ReceiveWhileWriting` | FreeRTOS/Source/stream_buffer.c:1139-1163 | a receive into which the writer comes any number of times before the tail moves is as one before all that |
| `StreamBuffer.Buffer.NextMessageLength` | FreeRTOS/Source/stream_buffer.c:1172-1213 | the length of the oldest message, or 0; the assertion that there is nothing rather than part of a length holds |
| `EventGroup.TestIsRightIffNarrow` | FreeRTOS/Source/event_groups.c:583-609 | the test that decides who is woken agrees with the condition the task asked for, whatever the bits, if and only if it waits only for bits 0 to 23 |
| `EventGroup.WideWaitGoesWrong` | FreeRTOS/Source/event_groups.c:328-329 | a wait for bit 40 passes the assertion and then is either woken with its bit clear or not woken with it set |
| `EventGroup.ControlBits` | FreeRTOS/Source/include/event_groups.h:47-51 | the item value of a wait is its bits with bits 24, 26 and 31 for clearing, for all and for use; the control byte is bits 24 to 31 |
| `EventGroup.OrderDoesNotMatter` | FreeRTOS/Source/event_groups.c:578-633 | the tasks woken and the bits cleared do not depend on the order of the list |
| `EventGroup.Group.SetBits` | FreeRTOS/Source/event_groups.c:547-641 | exactly the waiters that match old OR new bits are woken, in order, each with those bits and bits 25 and 31; the bits of all that asked for it are cleared after the whole scan; no representable waiter is left satisfied |
| `EventGroup.WokenIsSatisfied` | FreeRTOS/Source/event_groups.c:583-625 | a representable waiter is woken exactly if its condition holds of old OR new bits, and still holds of the bits it reads |
| `EventGroup.Group.ClearBits` | FreeRTOS/Source/event_groups.c:472-500 | bits are cleared, the former value returned, and no waiter becomes satisfied |
| `EventGroup.Group.WaitBits` | FreeRTOS/Source/event_groups.c:336-403 | a satisfied wait returns at once, clearing if asked, an unsatisfied one that may not block returns the bits, any other goes on the list unsatisfied |
| `EventGroup.Group.TimeOut` | FreeRTOS/Source/tasks.c:4817-4834 | a waiter whose block time is over leaves the list, the others keep their order and none becomes satisfied |
| `EventGroup.Group.Sync` | FreeRTOS/Source/event_groups.c:205-246 | sets its bits, and returns and clears the rendezvous if complete, or waits for it; no representable waiter is left satisfied |
| `EventGroup.Group.FinishWait` | FreeRTOS/Source/event_groups.c:423-458 | a woken task returns the bits that woke it; one that timed out tests once more, and clears if it is satisfied after all |
| `EventGroup.WokenReadsItsBits` | FreeRTOS/Source/event_groups.c:624-625 | what a woken representable waiter returns satisfies its condition |
| `MutexState.SetPriorityOk` | FreeRTOS/Source/tasks.c:6664-6708 | a change of priority, of a ready or of a waiting task, keeps the invariant: ready lists and uxTopReadyPriority, event values, no priority below base |
| `MutexState.SetPriorityDominates` | FreeRTOS/Source/tasks.c:6664-6708 | holders stay at least at the priority of their waiters if and only if the new priority is no lower than those of the tasks waiting for this one and no higher than that of the task it waits for |
| `MutexState.SetPriorityOrder` | FreeRTOS/Source/tasks.c:6669-6671 | the lists of waiters stay in order if the task fits where it waits, and only then if all were |
| `MutexState.OwnOk` | FreeRTOS/Source/queue.c:1704-1711 | taking a mutex keeps the invariant, and keeps holders at least at the priority of their waiters if and only if no remaining waiter is above the taker |
| `MutexState.DisinheritOk` | FreeRTOS/Source/tasks.c:6753-6833 | with the last mutex given the priority is the base priority again, and every holder still dominates its waiters |
| `MutexState.HighestWaitingIsHighest` | FreeRTOS/Source/queue.c:2368-2388 | the head's item value gives the priority of a waiter, the highest if the list is in order, and the idle priority if there are none |
| `PriorityInheritance.Kernel.Inherit` | FreeRTOS/Source/tasks.c:6650-6745 | the holder runs at the higher of its and the current task's priority, at the end of the ready list of a new one if it is ready, and no other ready task moves; the result tells whether its base priority is below the current one; and the exact conditions under which domination and the order of the lists survive |
| `PriorityInheritance.Kernel.Take` | FreeRTOS/Source/queue.c:1696-1715 | an available mutex gets the current task as its holder and the count of mutexes held goes up; otherwise nothing changes |
| `PriorityInheritance.Kernel.BlockOn` | FreeRTOS/Source/queue.c:1789-1810 | the holder runs at least at the priority of the task that now waits for it, behind the waiters of at least its priority and in front of lower ones; in the ready lists only these two have moved; afterwards every holder is above its waiters if and only if whoever the holder itself waits for is above the current task |
| `PriorityInheritance.Kernel.Give` | FreeRTOS/Source/queue.c:2404-2420 | the holder's count goes down, at its last mutex it is back at base priority and before that its priority is kept, and the first waiter, of the highest priority if the list is in order, goes to the end of its ready list; no other ready task moves |
| `PriorityInheritance.Kernel.TimeOut` | FreeRTOS/Source/tasks.c:4817-4834 | a tick takes the waiter off the list and puts it at the end of its ready list, and nothing else changes |
| `PriorityInheritance.Kernel.AfterTimeOut` | FreeRTOS/Source/tasks.c:6847-6955 | after a waiter times out, a holder of exactly this mutex runs at the higher of its base priority and the first remaining waiter's, the highest if the list is in order; a holder of more keeps its priority; the kernel's assertion fails exactly if the task is itself the holder and would be lowered |
| `PriorityInheritance.Kernel.SwitchTo` | FreeRTOS/Source/tasks.c:5120-5200 | the bound uxTopReadyPriority on ready priorities holds under inheritance, and a switch brings it down to the priority chosen |
| `InheritanceLimits.TakenBelowAWaiter` | FreeRTOS/Source/queue.c:1696-1715 | a run Give, Take with the scheduler suspended after which a holder is below a waiter of its mutex |
| `InheritanceLimits.RaisedWhileWaiting` | FreeRTOS/Source/tasks.c:6664-6745 | a run in which a holder that waits for another mutex inherits: its list is out of order and the task it waits for does not inherit |
| `InheritanceLimits.LowerWaiterWoken` | FreeRTOS/Source/tasks.c:5413-5429 | when that mutex is then given, a waiter is woken although another waits at a higher priority |
| `InheritanceLimits.AskedForByItsHolder` | FreeRTOS/Source/tasks.c:6884-6887 | a run in which a task that has inherited asks for its own mutex and times out: the assertion that it cannot have inherited its own priority fails |
| `Crc32.UpdateConcat` | src/crc32.c:5-28 | the CRC of two pieces one after the other is that of the whole |
| `Crc32.Crc32Update` | src/crc32.c:5-28 | the nested loops compute the specification function, that of CrcRemainder.RegisterIsRemainder, in 32 bits; NULL leaves the value alone |
| `Crc32.Crc32Compute` | src/crc32.c:30-33 | one call computes the CRC of the data with both inversions, that of CrcRemainder.CrcIsRemainder |
| `Crc32.ShiftInjective` | src/crc32.c:18-24 | the reflected shift step loses nothing: different words stay different over any number of steps |
| `Crc32.ShiftUnshift` | src/crc32.c:18-24 | every word is the result of the shift step from its inverse, so the step is a bijection |
| `Crc32.UpdateInjective` | src/crc32.c:13-27 | for the same data, different starting words end in different words |
| `Crc32.WindowDetected` | src/crc32.c:13-27 | from one starting word, different strings of up to four bytes lead to different words |
| `Crc32.BurstDetected` | src/crc32.c:30-33 | data of equal length that differ only within four consecutive bytes have different CRCs |
| `CrcRemainder.PolyTerms` | src/crc32.c:3 | the reflected constant is the generator x^32 + x^26 + x^23 + x^22 + x^16 + x^12 + x^11 + x^10 + x^8 + x^7 + x^5 + x^4 + x^2 + x + 1 of IEEE 802.3 without its first term |
| `CrcRemainder.RegisterIsRemainder` | src/crc32.c:5-28 | for every register and all data, the register after n bytes is congruent, by the generator, to x^(8n) times the register before plus x^32 times the data, the first bit sent the highest term |
| `CrcRemainder.RemainderUnique` | src/crc32.c:5-28 | of two polynomials of degree below 32 that differ by a multiple of the generator, one is the other |
| `CrcRemainder.CrcIsRemainder` | src/crc32.c:30-33 | a 32-bit word is the CRC of n bytes if and only if, complemented, it is the remainder by the generator of x^32 times the data plus x^(8n) times 32 ones |
| `CrcByBytes.CheckValue` | src/crc32.c:30-33 | the CRC of the nine characters 123456789 is 0xCBF43926 |
| `CrcByBytes.Residue` | src/crc32.c:5-33 | any data followed by their CRC, least significant byte first, leave the register 0xDEBB20E3 |
| `ImageIntegrity.CrcRegion` | src/image_integrity.c:19-35 | the CRC of the region without its slot, and 0 for NULL pointers or a slot outside |
| `ImageIntegrity.CoveredBytes` | src/image_integrity.c:30-34 | every byte of the region outside the slot is covered, in order, and no other |
| `ImageIntegrity.ByteOrder` | src/image_integrity.c:45-70 | the word in the slot has its least significant byte at the lowest address |
| `ImageIntegrity.Checker.Verify` | src/image_integrity.c:45-70 | boot accepts exactly if the slot is not zero and holds the CRC of the rest |
| `ImageIntegrity.Crc32Ieee` | scripts/patch_image_crc.py:17-26 | on unbounded integers the script's loops stay below 2^32 and compute the firmware's CRC, the remainder of CrcRemainder.CrcIsRemainder |
| `ImageIntegrity.PatchKernel` | scripts/patch_image_crc.py:66-86 | the digest goes into the slot, least significant byte first, and nothing else changes; the errors in their order, and what Python makes of a slot below the load address |
| `ImageIntegrity.SlotNotCovered` | src/image_integrity.c:30-34 | what is written into the slot does not change the region CRC |
| `ImageIntegrity.PatchThenBoot` | src/image_integrity.c:45-70 | a patched image passes the boot check if and only if its digest is not zero |
| `ImageIntegrity.CorruptionFailsBoot` | src/image_integrity.c:45-70 | an image that boots no longer does after any corruption within four consecutive covered bytes |
| `ImageIntegrity.ChangedImageFailsBoot` | src/image_integrity.c:45-70 | an image that boots no longer does if bytes of its region other than the slot have changed, all at four consecutive addresses, on either side of the slot as well |
| `MemoryScrub.NoDifference` | src/memory_scrub.c:127-137 | no bit differs if and only if the area is the golden copy |
| `MemoryScrub.CorrectedDifferences` | src/memory_scrub.c:94-108 | a correction takes away the difference it is about and no other |
| `MemoryScrub.OtherBitsKept` | src/memory_scrub.c:94-112 | a targeted correction keeps the other bits of every byte if and only if the byte may be read or may not be written |
| `MemoryScrub.StaleFlip` | src/fault_inject.c:28 | when an injector was held up between reading the byte and writing it back flipped, every difference is still named if and only if those that it brings back are |
| `MemoryScrub.FaultsReached` | src/fault_inject.c:22-28 | the injector ever flips a bit if and only if its number is even and its byte in the lower half of the area, or odd and in the upper half |
| `MemoryScrub.DifferingIsCount` | src/memory_scrub.c:123-144 | the number of differing bytes is that of the indices at which area and golden copy differ |
| `MemoryScrub.Scrubber.RecordSeu` | src/memory_scrub.c:39-52 | the total goes up, wrapping at 32 bits, and DEGRADED is requested floor(n/5) times for n corrections made below SAFE |
| `MemoryScrub.Scrubber.Init` | src/memory_scrub.c:67-79 | the area is the golden copy and the counts start again |
| `MemoryScrub.Scrubber.StartInjection` | src/fault_inject.c:21-28 | exactly one bit is flipped, number tick / 256 mod 8 of byte tick mod 512, and every difference stays named, this one by the injector that has still to post it |
| `MemoryScrub.Scrubber.FinishInjection` | src/fault_inject.c:40-46 | the event is queued, or refused if five are queued, and every difference stays named |
| `MemoryScrub.Scrubber.InjectRandomFault` | src/fault_inject.c:21-47 | undisturbed, the bit is flipped and named by a queued event, or by a refused one |
| `MemoryScrub.Scrubber.FixEvent` | src/memory_scrub.c:81-121 | only the bit named changes, exactly if it differs and may be written, and is recorded exactly then; bad events change nothing |
| `MemoryScrub.Scrubber.Drain` | src/memory_scrub.c:156-159 | the loop empties the queue, whatever injectors do meanwhile, and what still differs is named by faults that the queue refused or that are still to be posted; with none of either the area is the golden copy; undisturbed, exactly the differences that queued events name are corrected, and recorded in the order of the queue |
| `MemoryScrub.DrainedBeforeThePost` | src/fault_inject.c:28-45 | a run in which the scrubber wakes between a flip and its post: the queue is empty, nothing was refused, and the area is not the golden copy |
| `MemoryScrub.Scrubber.FullScrub` | src/memory_scrub.c:123-144 | whatever injectors do between its bytes, every difference left was flipped meanwhile and is named; undisturbed, none is left and one SEU is counted per differing byte |
| `MemoryScrub.Scrubber.Round` | src/memory_scrub.c:153-167 | a round empties the queue, and if there was no event and the state is not SAFE scrubs everything but what is injected meanwhile |
| `FlightRecorder.Recorder.Reset` | src/event_log.c:37-41 | whatever was recorded, the recorder shows nothing any more |
| `FlightRecorder.Recorder.Fill` | src/event_log.c:19-23 | filling a slot changes the history shown only if the head has moved on since the slot was taken, and then in exactly the entry that is in the slot |
| `FlightRecorder.Recorder.MoveOn` | src/event_log.c:25-28 | the history shown goes on with what is in the slot at the head, and the ring holds its last 48 |
| `FlightRecorder.Recorder.Store` | src/event_log.c:12-29 | a store that no other comes into joins the history, its tick cut to 32 bits, and the ring holds the last 48 |
| `FlightRecorder.Recorder.Interleave` | src/event_log.c:12-29 | over any interleaving of the steps of any number of tasks every move shows one entry more, and over every one in which no store begins inside another the history shown is what was stored, in order |
| `FlightRecorder.Recorder.Overlap` | src/event_log.c:17-28 | of two stores one inside the other one entry is lost and the stale entry of the next slot is shown as the newest; both are shown if and only if that stale entry happens to equal the lost one |
| `FlightRecorder.Recorder.RecordSeuCorrected` | src/event_log.c:61-67 | a correction is recorded with its byte index cut to 8 bits |
| `FlightRecorder.Recorder.RecordImageCrcFail` | src/event_log.c:87-101 | the second writer joins the same history, with the computed CRC in the tick field |
| `FlightRecorder.Recorder.GetEntryChronological` | src/event_log.c:103-121 | reading returns exactly the last min(n, 48) entries of the history, oldest first, and nothing beyond; while a store is under way, all of them but possibly the oldest |
| `FlightRecorder.SeuEntryNamesByteUpToHalf` | src/event_log.c:61-67 | entries of two corrections are equal if and only if the bytes are the same or 256 apart |
| `StateMachine.Machine.constructor` | src/state_machine.c:69-83 | the boot verdict decides the first state, and one change is recorded, from BOOT to that state, with reason 0 or 5 |
| `StateMachine.Machine.Handle` | src/state_machine.c:85-105 | a request changes the state exactly if it asks for another that is higher, or for NOMINAL with reason 0x03 or 0x10; each change is recorded from the old state to the new, entering or leaving SAFE right after, and the changes recorded stay a connected path to the present state |
| `StateMachine.Machine.Other` | src/event_log.c:12-29 | entries of other kinds leave the path alone |
| `StateMachine.Machine.ChangeOverlapped` | src/state_machine.c:92-93 | when the record of a state change overlaps another task's, the changes shown stay a connected path if and only if the entry kept and the stale one lead from the old state to the new: normally, if the change is the one kept |
| `StateMachine.HeldEntriesArePath` | src/event_log.c:108-121 | what the recorder still holds of it is a connected path that ends in the present state |
| `StateMachine.HighestRequested` | src/state_machine.c:10-46 | over any run of requests without one for NOMINAL with reason 0x03 or 0x10 the last state is the highest of the first and all requested |
| `StateMachine.LastRecoveryDecides` | src/state_machine.c:10-46 | such a request leads from any state to NOMINAL, so that over any run the last one and the highest request after it decide the last state |
| `StateMachine.Codes` | include/system_state.h:7-12 | BOOT, NOMINAL, DEGRADED and SAFE are 0, 1, 2 and 3 in recorded changes |
| `StateMachine.NeverBootAgain` | src/state_machine.c:10-25 | no run of requests leads back to BOOT |

## Left out

- The scheduler's variables, those of the timer daemon and those of the mutexes are each one value in
  one field, replaced as a whole by every method: aliasing between them is not captured. That list
  items are changed in place without harm to other lists is proved in `IntrusiveList`.
- Scheduler.Kernel.PlaceOnEventList: changes the state list before the event list, the kernel the
  other way round; the two are different variables.
- Scheduler.Kernel.ResumeAll: counts uxSchedulerSuspended down after emptying xPendingReadyList, the
  kernel before; nothing in between reads it.
- SchedulerRuns.ServedInOrder: tasks that leave the list between two switches are not covered.
- SoftwareTimers.Daemon.SwitchTimerLists: over several timers the order of the lists is stated only as
  that of their expiries, not which of equal ones comes first.
- Scheduler.Kernel.Block: requires the current task to be ready and not the idle task.
- Scheduler.Kernel.CatchUpTicks: no tick arrives between suspending and resuming the scheduler.
- Scheduler.Kernel.Delete: does not cover deleting the idle task.
- Scheduler.Kernel.Reprioritise: does not cover the idle task, which takes no mutex; event list item
  values in use by event groups, which inheritance leaves alone, are not modelled.
- QueueLock.LockedQueue.SendFromISR: assumes at most 127 tasks, all of which the rank map lists, as the
  kernel's assertion on the lock counts does.
- QueueLock.LockedQueue.Send: whether the woken task preempts is left to `Scheduler.Kernel.RemoveFromEventList`.
- StreamBuffer.Buffer.Send: the loop that waits for space is left out.
- PriorityInheritance.Kernel.SwitchTo: the task chosen is a parameter; how it is found is
  `Scheduler.Kernel.SwitchContext`.
- ImageIntegrity.PatchKernel: reading the symbols and the files is not part of this model.
- SoftwareTimers.Daemon.ProcessReceivedCommands: assumes the daemon samples time at least once per
  wrap, start commands are less than a wrap old, and no command follows the deletion of its timer.
- QueueLock.LockedQueue.WaitersAreCovered: a woken task tries again; deleting or suspending it is not
  covered.
- MemoryScrub.Scrubber.FullScrub: injectors come between two bytes, not between the reading and the
  writing of one; the state is read once per round.
- MemoryScrub.Scrubber.RecordSeu: one step, where an operator's forced scrub (`src/command.c:137`), at the
  scrubber's own priority, shares the counters without a lock and can lose an update.
- FlightRecorder.Recorder.Interleave: filling an entry's fields is one step, and so is moving head and
  count on.
- StreamBuffer.Buffer.SendWhileReading: one writer and one reader, as the source demands.
- vTaskSuspend, vTaskResume, vTaskPrioritySet, task notifications, and the time before the scheduler starts.
- Blocking loops of queues and stream buffers: their critical sections, time-outs and event lists are
  modelled apart.
- Triggers and notifications of stream buffers; sending and receiving from interrupts there.
- Multi-core branches, static allocation, queue sets, co-routines, recursive mutexes, run-time
  statistics, trace hooks, MPU wrappers, tickless idle: disabled in `include/FreeRTOSConfig.h`.
- The heap allocator and the port layer: allocation succeeds, a context switch changes the current task.
- UART output, command dispatch, telemetry, watchdog, boot and trap code: mostly I/O.
