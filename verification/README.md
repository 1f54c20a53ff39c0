# Kernel verification

A Dafny model of the FreeRTOS kernel in `OS/`, with proofs of what its parts promise over every input, run or
interleaving. `dafny verify dfyconfig.toml` checks it.

Code that changes state is modelled as classes with the source's own fields and loops. Each method is proved to
compute a function on plain values, and the properties are proved about those functions: over single steps, and then
over runs, where critical sections, sections with the scheduler suspended, interrupts and timeouts interleave.

| file | what it models |
|---|---|
| `KernelConfig.dfy`, `TaskLists.dfy`, `SortedLists.dfy` | shared constants and types, lists of tasks, and the order of `vListInsert` |
| `KernelLists.dfy` | the circular linked list of `OS/list.c` on the heap, with its cursor |
| `TimeWheel.dfy` | the two-list treatment of a wrapping tick count that three files share |
| `DelayedTasks.dfy` | blocked tasks, the tick interrupt, and ticks held back while the scheduler is suspended |
| `TimeOuts.dfy` | block times measured with a wrapping tick count |
| `Timers.dfy` | software timers and their daemon |
| `CoRoutines.dfy` | delayed co-routines |
| `QueueStorage.dfy` | the storage area of a queue |
| `QueueBlocking.dfy`, `QueueProtocol.dfy` | blocking on a queue, lock counters, and interrupts that post meanwhile |
| `QueueCalls.dfy` | what each step of a call on a queue does, and what the call comes to |
| `QueueOrder.dfy` | which of the tasks waiting for a queue is woken |
| `PriorityInheritance.dfy`, `InheritanceSteps.dfy`, `InheritanceRuns.dfy` | mutexes, their holders and waiters, and inherited priorities |
| `SchedulerLists.dfy` | the state lists and single-core selection |
| `SmpSelection.dfy` | selection for one of several cores |
| `Notifications.dfy` | direct-to-task notifications |
| `StreamInterleaving.dfy` | a writer and a reader overtaking each other in a stream buffer |
| `MessageBuffers.dfy` | storage of stream buffers and framing of message buffers |
| `MessageInterleaving.dfy` | a writer and a reader overtaking each other in a message buffer |
| `StreamBlocking.dfy` | how a writer and a reader wait for each other at a stream buffer |
| `EventGroups.dfy` | event groups |

## Configuration and assumptions

One core (but for `SmpSelection`), preemption, mutexes, `INCLUDE_vTaskSuspend` set, queue sets off, generic task
selection, 32 priorities. The range of tick counts is a parameter M, with `portMAX_DELAY` equal to M - 1. Critical
sections are atomic. Tick counts sampled, messages, lengths of buffers and the moments at which interrupts and
timeouts strike are parameters of the methods, or events of a run.

Some statements hold under conditions that the source leaves to its callers, and each such condition is a
precondition or an event's guard: timer commands are processed less than M ticks after they were issued, the timer
daemon samples the tick count less than M ticks after its last sample, co-routines are checked at least every M - 1
ticks, a mutex is given back by its holder and not used by interrupts, a task's handle is not used after the task was
deleted, the idle tasks are never blocked, suspended or deleted, and block times handed to the delayed lists are
positive.

Where a property is conditional, the condition is either exact, stated in a lemma with "if and only if", or a
discipline of the callers: `PriorityInheritance.Disciplined` and `Notifications.Disciplined` say which.

## Where the code falls short

Each of these has the exact condition under which it happens, and an input or a run on which it does.

| what happens | exactly when | on an input |
|---|---|---|
| `vListInsertEnd` is said to make the new item the last to be returned; another item is | `KernelLists.InsertEndIsLastIff` | the same, with any cursor off the end marker |
| Interrupts during one suspension of the scheduler are lost, as `xPendedTicks` wraps like the tick count | `DelayedTasks.DelayedTasks.IncrementTick` | `DelayedTasks.LosesTicks` |
| `xTaskCheckForTimeOut` reports a wait as not over that is over | `TimeOuts.CheckExactIff` | `TimeOuts.MissedAfterTwoOverflows` |
| `xTaskDelayUntil` does not block though the new wake time is to come | `TimeOuts.DelaysUntilWake` | `TimeOuts.DelayMissedBeforePrevious` |
| Overwriting a queue of length one whose items have no bytes counts two items | `QueueStorage.QueueStorage.Send` | `QueueStorage.OverwriteCountsTwice` |
| A holder runs below a task that waits for its mutex | over runs `PriorityInheritance.BoundHoldsIff`; it takes one of the four steps below | |
| — inheritance is not passed on to the holder a holder waits for | at that step `PriorityInheritance.BlockKeepsBoundIff` | `InheritanceRuns.NestedBlockingBreaksBound` |
| — `vTaskPrioritySet` looks neither at waiters nor at the awaited holder | at that step `PriorityInheritance.PrioritySetKeepsBoundIff` | `InheritanceRuns.PrioritySetBreaksBound` |
| — a waiting task that inherits or is set stays where it was in its wait list, and the mutex goes to another at the head | at that step `PriorityInheritance.TakeBoundIff` | `InheritanceRuns.TakeBreaksBound` |
| — the same list is read from its head for the priority a holder falls to after a timeout | at that step `PriorityInheritance.GiveUpBoundIff` | `InheritanceRuns.DisinheritingBreaksBound` |
| A notification from an interrupt fails its assertion on the event list item, and the system halts: a task has taken with the scheduler already suspended | `Notifications.AssertionHoldsIff` | `Notifications.TakeWhileSuspendedFailsAssertion` |
| A writer waits for space while the reader waits for bytes, and neither wakes the other | `StreamBlocking.BothCanSleepIff` | `StreamBlocking.BothCanSleep` |
| The writer wakes a reader that has time left, and it finds nothing it can read | of a wake-up `StreamBlocking.WokenFindsIff`, of a buffer `StreamBlocking.WakesInVainIff` | `StreamBlocking.TakenBeforeNotification`, `StreamBlocking.NotifiedAtTrigger` |

Emptying a queue with `xQueueGenericReset` wakes one sender, as its comment says; `QueueProtocol.ResetWakesEnoughIff` is
when that is enough for the free slots, and `QueueProtocol.ResetLosesWakeUp` a run in which it is not. A holder of several
mutexes keeps a priority it has inherited when the waiter gives up: `PriorityInheritance.FallsIff` is when a priority
falls again, and `InheritanceRuns.StaysRaisedAlone` a run in which it outlasts every waiter.

## Model

| member | source | states |
|---|---|---|
| `SortedLists.InsertSorted` | OS/list.c:139-210 | Insertion as vListInsert orders it keeps a sorted list sorted |
| `SortedLists.InsertStable` | OS/list.c:139-210 | Insertion is stable: the new item stands exactly behind all items of no greater value, and the others keep their places |
| `KernelLists.List.constructor` | OS/list.c:49-86 | An empty list whose end marker links to itself and holds the largest value |
| `KernelLists.List.InsertEnd` | OS/list.c:105-136 | All links, the container and the count stay right; the new item goes just behind the cursor, so it is visited last only if the cursor is on the end marker, and otherwise just before the item under the cursor |
| `KernelLists.List.FindPosition` | OS/list.c:155-195 | The search stops exactly at the last item of no greater value, also for portMAX_DELAY, and terminates |
| `KernelLists.List.Insert` | OS/list.c:139-210 | On the heap, the pointer surgery puts the item, which is then in the list, where stable sorted insertion would, cursor untouched |
| `KernelLists.List.InsertBefore` | OS/list.c:214-242 | The new item stands directly before the given one, in the same list, all links right |
| `KernelLists.List.Remove` | OS/list.c:245-275 | The item and nothing else leaves its list, its container is cleared, a cursor on it steps back, and the remaining count is returned |
| `KernelLists.List.NextEntry` | OS/tasks.c:189-191 | Advancing the cursor returns the next item in visiting order, stepping over the end marker, and puts it last in that order |
| `KernelLists.RoundRobin` | OS/tasks.c:189-191 | On a fixed list of n items any n consecutive advances return every item once, in order |
| `KernelLists.AdvanceVisits` | OS/tasks.c:189-191 | Advancing the cursor moves the first item of the visiting order to its end, at every cursor position |
| `KernelLists.RemoveVisits` | OS/list.c:245-275 | Removing an item takes it out of the visiting order and leaves the rest of that order alone, also when the cursor was on it |
| `KernelLists.InsertEndVisits` | OS/list.c:105-136 | Where an end-inserted item comes in the visiting order, for every cursor position |
| `KernelLists.InsertEndIsLastIff` | OS/list.c:118-128 | The end-inserted item is the last to be visited exactly if the cursor is on the end marker |
| `TimeWheel.FileWait` | OS/tasks.c:8455-8490 | For every tick count and wait, comparing the wrapped wake time with the tick count files the task so that the two lists still stand for one sorted agenda of absolute times |
| `TimeWheel.SwitchKeepsAgenda` | OS/tasks.c:248-260 | Once the current list is empty, exchanging the lists at the wrap changes no absolute time |
| `TimeWheel.AgendaSorted` | OS/tasks.c:248-260 | The current list followed by the overflow list is sorted by absolute time |
| `TimeWheel.DueExactly` | OS/tasks.c:4731-4800 | On a sorted agenda, walking from the head until the first later time finds exactly what is due |
| `DelayedTasks.DelayedTasks.AddCurrentTaskToDelayedList` | OS/tasks.c:8415-8490 | The calendar of absolute wake times gains exactly clock + ticks, or the task is suspended indefinitely; xNextTaskUnblockTime stays no later than the list head |
| `DelayedTasks.DelayedTasks.ResetNextTaskUnblockTime` | OS/tasks.c:6456-6474 | The next unblock time is the head's wake time, or portMAX_DELAY for an empty list |
| `DelayedTasks.DelayedTasks.SwitchDelayedLists` | OS/tasks.c:248-260 | The swap at a wrap keeps every absolute wake time; its assertion that the current list is empty is proved at every call |
| `DelayedTasks.DelayedTasks.AgendaIsFuture` | OS/tasks.c:4691-4805 | At every step boundary the calendar is sorted and holds future times only |
| `DelayedTasks.DelayedTasks.IncrementTick` | OS/tasks.c:4691-4805 | With the scheduler running one interrupt is one tick of the plain calendar; with it suspended the tick is pended, and ticks are lost exactly when the pended count wraps |
| `DelayedTasks.DelayedTasks.ReadyDue` | OS/tasks.c:4731-4805 | The loop readies exactly the tasks due, in wake order, and resets the next unblock time |
| `DelayedTasks.DelayedTasks.ResumeAll` | OS/tasks.c:3956-4070 | The outermost resume first wakes the pending tasks, which are then in no delayed list and not in xSuspendedTaskList, and makes up every pended tick: the tick count plus ticks lost is the number of interrupts |
| `DelayedTasks.DelayedTasks.Unblock` | OS/tasks.c:3990-4000 | A task readied before its time leaves whichever delayed list or the suspended list it is in, and no other task does |
| `DelayedTasks.WakeExact` | OS/tasks.c:3998-4000 | A wake takes its task, and no other, out of the calendar and readies it once, now |
| `DelayedTasks.WakeAllExact` | OS/tasks.c:3990-4021 | The pending tasks are readied in turn, now, and they and no others leave the calendar |
| `DelayedTasks.WakesOnTime` | OS/tasks.c:4691-4805 | From any sleep of any task, whatever it did before, and over every run in which nothing else wakes it or puts it to sleep: it is not made ready before its wake time, is made ready by the tick that reaches it, and once |
| `DelayedTasks.WokenOnce` | OS/tasks.c:5341-5375 | Over every run in which a task that an event has readied is neither put to sleep nor woken again, it is readied exactly once, at the time of the event, and by no later tick |
| `DelayedTasks.TicksAreRun` | OS/tasks.c:4034-4060 | Making up n pended ticks is a run of n ticks |
| `DelayedTasks.LosesTicks` | OS/tasks.c:4905-4907 | M interrupts during one suspension leave the clock where it was |
| `TimeOuts.TimeOut.CheckForTimeOut` | OS/tasks.c:5534-5600 | The method computes what the exactness lemmas below are about, branch by branch |
| `TimeOuts.CheckExactIff` | OS/tasks.c:5572-5582 | A check is right about a finite wait unless, more than one overflow on, the overflow count reads the same or the tick count is short of where it was, and the wrapped difference is below the wait; beyond one overflow every finite wait is over |
| `TimeOuts.MissedAfterTwoOverflows` | OS/tasks.c:5572-5582 | A wait that is over is reported as not over after two overflows |
| `TimeOuts.SeriesExact` | OS/tasks.c:5534-5600 | Over any series of checks with at most one overflow between neighbours, a time-out is reported just when the whole wait is over, and until then the rest is the wait less the time elapsed |
| `TimeOuts.IndefiniteNeverTimesOut` | OS/tasks.c:5562-5571 | A wait of portMAX_DELAY never times out and never grows shorter, over every series of checks |
| `TimeOuts.DelayUntil` | OS/tasks.c:2343-2405 | The two wrap comparisons of xTaskDelayUntil, the stored wake time and the block time |
| `TimeOuts.DelaysUntilWake` | OS/tasks.c:2356-2392 | With the previous wake time less than the tick range in the past, a call blocks exactly when it plus the increment is still to come, for exactly the time until it; with it as far in the future, exactly when that is more than the tick range away |
| `TimeOuts.DelayMissedBeforePrevious` | OS/tasks.c:2356-2377 | A call that does not block though its wake time is to come |
| `TimeOuts.StoredWakeTimeNeverDrifts` | OS/tasks.c:2359-2388 | After k calls the stored wake time is start + k * increment modulo the tick range |
| `Timers.PlacementExact` | OS/timers.c:894-935 | The decision of prvInsertTimerInActiveList is exact for every command time, sample time, period and wrap position |
| `Timers.TimerDaemon.constructor` | OS/timers.c:1111-1125 | The daemon's invariant holds of the two empty lists before any sample |
| `Timers.TimerDaemon.CreateTimer` | OS/timers.c:417-445 | A timer of positive period is created in no list and inactive, and the invariant stays |
| `Timers.TimerDaemon.InsertTimerInActiveList` | OS/timers.c:894-935 | A timer is processed now exactly if its expiry is past, and otherwise the agenda gains exactly that expiry |
| `Timers.TimerDaemon.ReloadTimer` | OS/timers.c:699-714 | The loop terminates, calls back once for every further multiple of the period up to now, and files the first one after now |
| `Timers.TimerDaemon.ProcessExpiredTimer` | OS/timers.c:718-745 | The head timer is called back, at least once and a one-shot timer just once, and filed at an expiry to come or stopped; during a switch the current list only shrinks |
| `Timers.TimerDaemon.SwitchTimerLists` | OS/timers.c:1086-1108 | The loop terminates, everything of the ending epoch is served, and the lists are exchanged with no expiry lost |
| `Timers.TimerDaemon.SampleTimeNow` | OS/timers.c:871-891 | The unbounded clock advances by the wrapped difference, and the lists are switched exactly at a wrap |
| `Timers.TimerDaemon.ProcessCommand` | OS/timers.c:985-1050 | Stop, start, reset and change-period leave the timer in the state the command time asks for, a one-shot timer started too late called back once; only a change of period changes the period, no command changes whether the timer reloads itself, and the other timers are left to their expiries |
| `Timers.TimerDaemon.ChangeTimerPeriod` | OS/timers.c:1036-1049 | The insertion of a changed period never finds it over, so its result can be discarded |
| `Timers.TimerDaemon.GetNextExpireTime` | OS/timers.c:844-866 | Of all active timers' expiries, in both lists, the least, in ticks of the running epoch; or zero, exactly if none lies before the wrap |
| `Timers.TimerDaemon.ProcessTimerOrBlockTask` | OS/timers.c:782-842 | When the daemon blocks nothing is due, every active timer has been called back for exactly the multiples of its period up to now, and a finite block time is positive and passes neither the next expiry nor the wrap; when it does not block, it has called back and filed or stopped the timer at the head, or switched the lists |
| `Timers.TimerDaemon.ProcessReceivedCommands` | OS/timers.c:938-1082 | The loop over the messages keeps the invariant; every timer is timed and stopped or running as the last messages about it ask, and timers it has no message about are left to their expiries |
| `Timers.TimerDaemon.TimerTaskPass` | OS/timers.c:766-778 | Every pass of the daemon's loop keeps the invariant, and at every block it may do so: all callbacks are up to date and the block time is safe |
| `Timers.TimerDaemon.TimerTask` | OS/timers.c:748-780 | Over any number of passes, wraps and reloads, every timer is timed by the commands received alone, and every active one stands in the agenda at the next multiple of its period since it is timed |
| `Timers.TimedByLastCommand` | OS/timers.c:985-1050 | That period is the one of the last change of period, or the one at first; that time is that of the last change, or of the issue of the last start; and whether a timer reloads itself is as at first |
| `Timers.ObeysNext` | OS/timers.c:985-1050 | A timer last told to stop is inactive, and one last started or changed is active if it reloads itself, message by message |
| `Timers.ExactlyOneCallbackEach` | OS/timers.c:699-745 | Once nothing is due at N, the callbacks made since the start are exactly the multiples of the period up to N: no drift, no dropped expiry |
| `Timers.OneShotRunsOnce` | OS/timers.c:732-744 | Once nothing is due at N, a one-shot timer left to its expiry has been called back exactly once and stopped if its expiry is not after N, and otherwise not at all |
| `CoRoutines.CoRoutines.AddToDelayedList` | OS/croutine.c:172-211 | The agenda of absolute wake times gains exactly clock + delay |
| `CoRoutines.CoRoutines.CheckDelayedList` | OS/croutine.c:238-294 | However many ticks below the range have passed, exactly the co-routines due by the sample are readied, in wake order and as of their own wake time, through any swap |
| `QueueStorage.QueueStorage.constructor` | OS/queue.c:566-611 | An empty queue: the write position at the start, the read position at the last slot |
| `QueueStorage.QueueStorage.Send` | OS/queue.c:2390-2470 | Send to back appends, to front prepends, overwriting leaves exactly the new item; for items of size zero overwriting a full queue miscounts, and that is the only case in which the queue is not left valid |
| `QueueStorage.OverwriteCountsTwice` | OS/queue.c:2400-2467 | A send and an overwrite of a queue of length one without storage leave a count of two |
| `QueueStorage.QueueStorage.Receive` | OS/queue.c:2473-2491 | The front item comes out and the rest stays |
| `QueueStorage.QueueStorage.Peek` | OS/queue.c:1912-1921 | The front item is read, the queue and its read position are unchanged |
| `QueueStorage.RingBack` | OS/queue.c:2429-2443 | Writing the slot behind the last item appends to the ring's contents, at every wrap position |
| `QueueStorage.RingFront` | OS/queue.c:2445-2470 | Writing the slot before the first prepends |
| `QueueStorage.RingPop` | OS/queue.c:2473-2491 | Advancing the first slot drops exactly the front item |
| `QueueBlocking.QueueControl.GenericSend` | OS/queue.c:960-1050 | The critical section of a task's send: it passes exactly if there is room or it overwrites, and wakes the first waiting receiver |
| `QueueBlocking.QueueControl.GenericReceive` | OS/queue.c:1526-1570 | The critical section of a task's receive |
| `QueueBlocking.QueueControl.GenericPeek` | OS/queue.c:1903-1946 | The critical section of a peek: the item stays, and another receiver is woken for it |
| `QueueBlocking.QueueControl.GenericSendFromISR` | OS/queue.c:1208-1315 | An interrupt posts; on a locked queue it only counts, and the counter stays within int8_t for up to 127 tasks |
| `QueueBlocking.QueueControl.GenericReceiveFromISR` | OS/queue.c:2070-2125 | An interrupt takes; likewise |
| `QueueBlocking.QueueControl.LockQueue` | OS/queue.c:258-270 | Both counters go from unlocked to zero and are otherwise left |
| `QueueBlocking.QueueControl.UnlockQueueTx` | OS/queue.c:2501-2579 | As many receivers are woken as posts were counted, or all of them |
| `QueueBlocking.QueueControl.UnlockQueueRx` | OS/queue.c:2581-2611 | As many senders are woken as takes were counted, or all of them |
| `QueueProtocol.TryKeepsInv` | OS/queue.c:1526-1610 | One turn of a task at the queue keeps the lost-wake-up invariant |
| `QueueProtocol.PlaceKeepsInv` | OS/queue.c:1590-1612 | Going to sleep on a queue found empty or full keeps it |
| `QueueProtocol.UnlockKeepsInv` | OS/queue.c:2494-2611 | Unlocking pays back every wake-up the counters owe |
| `QueueProtocol.SendISRKeepsInv` | OS/queue.c:1208-1315 | An interrupt that posts keeps it, in every lock phase |
| `QueueProtocol.ReceiveISRKeepsInv` | OS/queue.c:2035-2132 | An interrupt that takes keeps it, in every lock phase |
| `QueueProtocol.StepKeepsInv` | OS/queue.c:1502-1648 | Every step of tasks, interrupts and timeouts keeps the invariant; what each of these steps does is in QueueCalls |
| `QueueProtocol.NoWakeUpIsEverLost` | OS/queue.c:1526-1648 | Over every interleaving, while a side is unlocked tasks wait on it only if every message, or free slot, is spoken for by a task already woken; `QueueCalls.ReceiverSleeps` and `QueueProtocol.ResetLosesWakeUp` hold runs with tasks asleep on either side |
| `QueueProtocol.LockCountersFit` | OS/queue.c:272-300 | Over every interleaving both lock counters stay between -1 and the number of tasks, so neither int8_t assertion fails for up to 127 |
| `QueueProtocol.WokenTasksCanRun` | OS/queue.c:2494-2611 | A task counted as woken is on no wait list and on its way to try again |
| `QueueCalls.SleepsIfNothing` | OS/queue.c:1604-1611 | With time left, a receive or peek that finds no message goes onto xTasksWaitingToReceive, and a send that finds no room onto xTasksWaitingToSend; no list changes otherwise |
| `QueueCalls.RetriesIfSomething` | OS/queue.c:1612-1627 | One that finds a message, or room, by then does not sleep: it unlocks the queue and tries again |
| `QueueCalls.ResumeExact` | OS/queue.c:1613-1645 | After the scheduler is resumed a call whose time is not over tries again; one whose time is over ends, or looks at the queue once more if it wants a message |
| `QueueCalls.TryExact` | OS/queue.c:1526-1596 | A try is answered exactly if there is a message, or room, and then moves its own message alone and wakes one task of the other side, or another peeker; refused, it changes nothing |
| `QueueCalls.ISRExact` | OS/queue.c:1208-1315 | An interrupt moves one message and wakes one task if that side is unlocked, and else adds one to its lock counter up to the number of tasks |
| `QueueCalls.UnlockExact` | OS/queue.c:2494-2611 | Unlocking a side wakes exactly as many tasks as are counted, from the head of its list, or all there are |
| `QueueCalls.EndsIff` | OS/queue.c:1526-1645 | A call ends exactly with a try that is answered or may not block, or when its time is over and, if it wants a message, there is still none |
| `QueueCalls.UnansweredOnlyIf` | OS/queue.c:1571-1645 | Over every interleaving a call ends without a message, or without having sent one, only if it may not block or has found its time over since it began; and a receive or peek only on an empty queue |
| `QueueCalls.BetweenExact` | OS/queue.c:1598-1645 | The steps in between: both lock counters start at zero, a call finds its time over exactly when it has expired, a task that then finds a message tries again, and a timeout takes its task alone off the lists |
| `QueueCalls.ReceiverSleeps` | OS/queue.c:1526-1618 | A run from an empty queue that ends with a receiver asleep; a message from an interrupt then wakes it, and it takes the message |
| `QueueOrder.StepWakesHeads` | OS/tasks.c:5341-5375 | Every step that wakes tasks wakes those at the head of their wait list and leaves the rest of it |
| `QueueOrder.WokenInTurn` | OS/tasks.c:5243-5262 | Over every interleaving, a task that is woken has a higher priority than every task that still waits on its side, or the same and has waited longer |
| `QueueProtocol.ResetWakesEnoughIff` | OS/queue.c:329-338 | Emptying a queue wakes one sender, which is enough exactly if at most one waited or the woken senders cover the slots |
| `QueueProtocol.ResetLosesWakeUp` | OS/queue.c:329-338 | A run in which two senders go to sleep on a full queue of length two and a reset leaves one asleep beside a free slot |
| `PriorityInheritance.TaskControlBlock.PriorityInherit` | OS/tasks.c:6580-6676 | The holder's priority becomes the greater of its own and the caller's; inheritance is reported exactly if the holder's base priority is below the caller's |
| `PriorityInheritance.TaskControlBlock.PriorityDisinherit` | OS/tasks.c:6683-6770 | One mutex fewer is held, and the last one returned brings the base priority back |
| `PriorityInheritance.TaskControlBlock.PriorityDisinheritAfterTimeout` | OS/tasks.c:6777-6890 | With one mutex held the priority becomes the greater of base and highest waiter |
| `PriorityInheritance.TaskControlBlock.PrioritySet` | OS/tasks.c:2867-2897 | The base priority is set, the running one only if nothing is inherited or the new one is higher; the event item's value follows the new base priority |
| `PriorityInheritance.StepKeepsBooks` | OS/queue.c:1652-1870 | Every step keeps the mutex bookkeeping, with priority changes and nested blocking allowed |
| `PriorityInheritance.BookkeepingAlwaysRight` | OS/tasks.c:6683-6770 | Over every run uxMutexesHeld is the number of mutexes whose holder the task is, the priority is never below base and equals it once no mutex is held, and a mutex has count one exactly if it has no holder |
| `InheritanceSteps.PriorityExactly` | OS/tasks.c:6580-6890 | What each step makes of every task's running and base priority: the greater of two when inherited, the base one when the last mutex is given back, and no change of any other task |
| `InheritanceSteps.PcExactly` | OS/queue.c:1652-1870 | Where each step leaves every task in its call: a task waits exactly if its time is not over and the mutex is taken, and disinherits after a timeout exactly if it has bequeathed |
| `InheritanceSteps.MutexExactly` | OS/queue.c:1652-1870 | Who holds and who waits for each mutex after every step |
| `InheritanceSteps.HighestIsGreatest` | OS/queue.c:2364-2386 | While the bound holds, the priority read off the head of the wait list is the greatest of all that wait |
| `InheritanceSteps.PrioritiesAreGiven` | OS/tasks.c:6580-6890 | Over every run a task runs at a priority that some task was created with or set to |
| `PriorityInheritance.GiveKeepsBound` | OS/queue.c:2403-2410 | Giving back, in any order, keeps every remaining holder above its waiters, and the task woken above those that still wait |
| `PriorityInheritance.TakeKeepsBound` | OS/queue.c:1695-1708 | A take by a highest-priority ready task cannot put a holder below a waiter |
| `PriorityInheritance.GiveUpKeepsBound` | OS/queue.c:1829-1860 | Disinheriting after a waiter's timeout, only as far as the next waiter and only with one mutex held, keeps the bound |
| `PriorityInheritance.GivesUpNotHolding` | OS/tasks.c:6816-6821 | The assertion that the task that timed out is not the holder always holds in disciplined runs |
| `PriorityInheritance.StepKeepsBound` | OS/tasks.c:6580-6676 | Every disciplined step keeps the bound |
| `PriorityInheritance.InheritanceBound` | OS/tasks.c:6580-6676 | Over every disciplined run each holder's priority is at least that of every task waiting on any mutex it holds, through out-of-order gives, re-takes and timeouts |
| `PriorityInheritance.BlockKeepsBoundIff` | OS/queue.c:1782-1800 | Without the discipline, for the blocking step: it keeps the bound exactly if the holder that inherits does not itself wait for a task of lower priority, as inheritance is not passed on |
| `PriorityInheritance.TakeBoundIff` | OS/queue.c:1695-1708 | For the take of a free mutex: it keeps the bound exactly if no other task that waits for it has a higher priority than the taker |
| `PriorityInheritance.GiveUpBoundIff` | OS/queue.c:1829-1860 | For the disinheriting after a timeout: it keeps the bound exactly if the holder holds another mutex or falls to no less than every other waiter |
| `InheritanceRuns.NestedBlockingBreaksBound` | OS/tasks.c:6595-6650 | A run of three tasks and two mutexes after which a holder runs below a task that waits for its mutex |
| `PriorityInheritance.PrioritySetKeepsBoundIff` | OS/tasks.c:2869-2885 | For the setting of a priority: it keeps the bound exactly if it neither takes a task that is not running at an inherited priority below another task waiting for its mutex, nor raises a waiting task above the holder it waits for |
| `PriorityInheritance.StepBoundIff` | OS/queue.c:1652-1870 | Every step of every kind, from a state within the bound, keeps it exactly if it is none of these four |
| `PriorityInheritance.BoundHoldsIff` | OS/tasks.c:6580-6676 | Over every run, disciplined or not: no holder ever runs below a task that waits for a mutex it holds exactly if none of the four steps is ever taken |
| `PriorityInheritance.DisciplinedNeverBreaks` | OS/tasks.c:6580-6676 | Disciplined runs take none of them |
| `InheritanceRuns.PrioritySetBreaksBound` | OS/tasks.c:2869-2885 | A run after which the holder of a mutex, having set itself to a lower priority, runs below the task waiting for it |
| `InheritanceRuns.TakeBreaksBound` | OS/tasks.c:6597-6603 | A run of nested blocking, within the bound in its last state, after which the highest ready task takes a mutex below another waiter that inherited while it waited |
| `InheritanceRuns.DisinheritingBreaksBound` | OS/queue.c:2373-2376 | A run, within the bound in its last state, after which a holder falls to the head of an unsorted wait list and below another waiter |
| `PriorityInheritance.FallsIff` | OS/tasks.c:6683-6770 | A task's priority falls exactly when it gives back its last mutex, when a waiter gives up on the only one it holds, or when its base priority is lowered while it runs at that |
| `PriorityInheritance.KeepsWhatItInherits` | OS/tasks.c:6810-6830 | Over every run a task keeps all it has inherited for as long as it holds several mutexes and its priority is not set |
| `PriorityInheritance.LeftRaisedIff` | OS/tasks.c:6790-6830 | After a waiter's timeout a holder is left above its base priority and the head of the list exactly if it was above and holds another mutex |
| `InheritanceRuns.StaysRaisedAlone` | OS/tasks.c:6810-6830 | A run after which a task runs at an inherited priority though nobody waits for any mutex |
| `SchedulerLists.Scheduler.constructor` | OS/tasks.c:6011-6038 | The lists with the idle task alone |
| `SchedulerLists.Scheduler.TaskSuspend` | OS/tasks.c:3121-3160 | The task is in the suspended list and nowhere else, its event item withdrawn from the pending list |
| `SchedulerLists.Scheduler.TaskDelete` | OS/tasks.c:2191-2290 | A task deleting itself waits in the termination list; any other is gone and the count one lower |
| `SchedulerLists.Scheduler.ChangePriority` | OS/tasks.c:2886-2925 | A ready task changes to the ready list of its new priority |
| `SchedulerLists.Scheduler.TaskResumeAll` | OS/tasks.c:3990-4021 | After the outermost resume every task that was pending is in the ready list of its priority, every other task is where it was, and priorities and counts are the same; an inner resume only counts |
| `SchedulerLists.Scheduler.CheckTasksWaitingTermination` | OS/tasks.c:6043-6072 | The loop frees exactly the tasks of the termination list; every other stays where it was, and the count falls by as many |
| `SchedulerLists.Scheduler.SelectHighestPriorityTask` | OS/tasks.c:178-193 | The search ends at the highest priority with a ready task; its assertion holds |
| `SchedulerLists.RemoveKeepsPartition` | OS/tasks.c:2204-2211 | Removing an item keeps all the others in exactly the list they say they are in, and the total falls by one |
| `SchedulerLists.InsertKeepsPartition` | OS/tasks.c:268-274 | Inserting one that is in no list, likewise |
| `SchedulerLists.DeleteKeepsInv` | OS/tasks.c:2191-2306 | Deletion keeps the scheduler's invariant, of itself or of another task in any state |
| `SchedulerLists.SetPriorityKeepsInv` | OS/tasks.c:2867-2925 | Priority changes and inheritance keep it, of the idle task too |
| `SchedulerLists.SelectionIsHighest` | OS/tasks.c:178-193 | In every state in order, selection finds a task, and no ready task has a higher priority |
| `SchedulerLists.StepKeepsInv` | OS/tasks.c:3121-3156 | Every step, of create, block, wake with the scheduler suspended or not, suspend, resume, delete, clean-up of one task, priority change, suspend-all, resume-all and switch, keeps the invariant |
| `SchedulerLists.StepPlaces` | OS/tasks.c:3121-3160 | Where every step leaves every task's state item, and which priorities, counts and pending tasks it changes; nothing else moves |
| `SchedulerLists.ReadiedLast` | OS/tasks.c:268-274 | A task made ready stands last in the ready list of its priority, the list it leaves closes up, and no other list changes |
| `SchedulerLists.BlocksAtPlace` | OS/tasks.c:8415-8490 | A task that blocks goes to its place in the list it waits in, likewise |
| `SchedulerLists.MovePendingExact` | OS/tasks.c:3990-4021 | The loop of xTaskResumeAll readies every pending task in the list of its priority and moves no other |
| `SchedulerLists.CleanUpExact` | OS/tasks.c:6043-6072 | The idle task frees exactly the tasks that wait for it |
| `SchedulerLists.PendingIsReadied` | OS/tasks.c:3990-4021 | Over every run under a suspended scheduler that neither suspends nor deletes it, a task woken by an interrupt stays pending, and is in its ready list once the scheduler runs again |
| `SchedulerLists.ListsPartitionTasks` | OS/tasks.c:268-274 | Over every run each task's state item is in exactly one list, its own priority's if it is ready; uxCurrentNumberOfTasks and uxDeletedTasksWaitingCleanUp are list lengths, and uxTopReadyPriority bounds the ready lists |
| `Notifications.NotifiedTask.GenericNotify` | OS/tasks.c:7848-7900 | The five actions on a task's value and state; only a value set without overwrite can fail |
| `Notifications.NotifiedTask.TakeEntry` | OS/tasks.c:7627-7656 | A task is marked as waiting exactly if there is nothing to take, and blocks only if it may |
| `Notifications.NotifiedTask.TakeExit` | OS/tasks.c:7686-7705 | The value is cleared or decremented if it was not zero, and returned |
| `Notifications.NotifiedTask.WaitEntry` | OS/tasks.c:7731-7765 | A task is marked as waiting exactly if no notification is pending, with the entry bits cleared |
| `Notifications.NotifiedTask.WaitExit` | OS/tasks.c:7790-7822 | Whether a notification was received, with the exit bits cleared if so |
| `Notifications.WordsBitByBit` | OS/tasks.c:7741-7862 | Setting bits sets exactly those asked for and keeps the others; clearing bits clears exactly those |
| `Notifications.NotifyExact` | OS/tasks.c:7848-7900 | What each action makes of the value, bit by bit where it sets bits |
| `Notifications.CheckExact` | OS/tasks.c:7627-7765 | A take of zero, or a wait with nothing received, marks the task as waiting, and blocks exactly if it may; only then a wait clears its bits on entry, and no other |
| `Notifications.FinishExact` | OS/tasks.c:7686-7822 | A take that clears leaves zero and another one less; a wait clears its bits on exit, and no other, exactly if it has received something |
| `Notifications.NotifyISRKeepsInv` | OS/tasks.c:8049-8064 | A notification from an interrupt, at any point of a call, keeps the invariant and never lists a task twice |
| `Notifications.ResumeKeepsInv` | OS/tasks.c:3990-4021 | Resuming the scheduler readies every task held pending |
| `Notifications.StepKeepsInv` | OS/tasks.c:7614-7705 | Every step of tasks, interrupts and timeouts keeps the invariant |
| `Notifications.ReadyExactly` | OS/tasks.c:8049-8064 | A task falls asleep only by going onto a delayed list, and wakes exactly by its timeout or by a notification while it is marked as waiting, at once or when the scheduler's suspension ends |
| `Notifications.ValueExactly` | OS/tasks.c:7614-7705 | Only the sections of a task's own call and notifications of it change its value and state |
| `Notifications.NoNotificationIsLost` | OS/tasks.c:7627-7705 | Over every run, once the scheduler is fully resumed nobody sleeps with a notification, a task asleep in a take has nothing to take, and the pending list is empty; it never holds a task twice |
| `Notifications.SleepsInTake` | OS/tasks.c:7627-7680 | A run that ends with a task asleep in a take; a give from an interrupt then wakes it |
| `Notifications.GivesMinusTakes` | OS/tasks.c:8156-8182 | With gives and decrementing takes only, gives less successful takes is the notification value modulo 2 to the 32 |
| `Notifications.AssertionHoldsIff` | OS/tasks.c:8049-8064 | Over every run: whatever interrupts strike whenever, the asserted item of a waiting task is on no list, exactly if no task on the pending list is ever marked as waiting by a further call |
| `Notifications.ListedTwiceIff` | OS/tasks.c:8166-8182 | Without the assertion, an interrupt lists a task twice exactly if the assertion would fail |
| `Notifications.AssertionHoldsWhenDisciplined` | OS/tasks.c:8049-8064 | In every run without calls made under a suspended scheduler the assertion holds |
| `Notifications.TakeWhileSuspendedFailsAssertion` | OS/tasks.c:8166-8172 | A run after which the next notification from an interrupt fails the assertion |
| `SmpSelection.Scheduler.YieldCore` | OS/tasks.c:333-349 | Only another core that was not asked before is interrupted, and its task is then marked |
| `SmpSelection.Scheduler.SearchReadyList` | OS/tasks.c:1046-1103 | The first task of the list that runs nowhere, or is this core's own, is swapped in |
| `SmpSelection.Scheduler.SelectHighestPriorityTask` | OS/tasks.c:983-1133 | The nested loops terminate with a task and compute the selection the lemmas below are about |
| `SmpSelection.IdleTaskFree` | OS/tasks.c:1118-1131 | Pigeonhole: with an idle task for each core, one runs on none of the others |
| `SmpSelection.SearchSucceeds` | OS/tasks.c:1024-1131 | Selection always succeeds |
| `SmpSelection.SelectPicksHighest` | OS/tasks.c:983-1133 | The selected task is ready, runs on no other core, and no ready task that runs on no other core has a higher priority; the other cores keep theirs |
| `SmpSelection.ReselectedOnlyIfAlone` | OS/tasks.c:1000-1019 | A core keeps its task only if every other ready task of that priority runs on another core |
| `SmpSelection.TopIsHighestReady` | OS/tasks.c:1108-1117 | uxTopReadyPriority ends as exactly the highest priority with a ready task |
| `SmpSelection.SelectKeepsInv` | OS/tasks.c:983-1133 | Selection keeps run states and current tasks in agreement |
| `SmpSelection.ReadyExactly` | OS/tasks.c:268-274 | Who is in which ready list after every step; a selection puts nobody in or out |
| `SmpSelection.RunStateExactly` | OS/tasks.c:333-349 | Whose run state every step changes: that of the task asked to yield, and those of the task that stops and the one that starts |
| `SmpSelection.NeverOnTwoCores` | OS/tasks.c:983-1133 | Over every run, of creation, readying, priority changes, deletion, yields and selection, no task is current on two cores, and run states agree with the cores' current tasks |
| `StreamInterleaving.SlotsDiffer` | OS/stream_buffer.c:1476-1519 | Fewer bytes apart than the buffer is long, two bytes never share a slot |
| `StreamInterleaving.DistancesExact` | OS/stream_buffer.c:1566-1584 | The index arithmetic for space and content gives the exact distances, at every wrap position |
| `StreamInterleaving.SpaceIsExact` | OS/stream_buffer.c:754-788 | When the two reads of xTail agree, the space computed is the space there is |
| `StreamInterleaving.StagesExactly` | OS/stream_buffer.c:1000-1050 | With two equal reads of xTail the writer copies what fits the space there is at that moment, or of a message all or nothing |
| `StreamInterleaving.TakesExactly` | OS/stream_buffer.c:1142-1161 | The reader takes what it wants of the bytes published, or all of them, and none unless there are more than it reads above |
| `StreamInterleaving.RetryKeepsInv` | OS/stream_buffer.c:766-771 | A retry means the reader has advanced, so with the head fixed the loop runs fewer rounds than the buffer has bytes |
| `StreamInterleaving.WriteIsSafe` | OS/stream_buffer.c:1476-1519 | A byte is written to a slot no unread byte has, however stale the space is |
| `StreamInterleaving.ReadIsSafe` | OS/stream_buffer.c:1522-1563 | A byte read has been published, and is the one sent |
| `StreamInterleaving.StepKeepsInv` | OS/stream_buffer.c:808-940 | Every index read, byte copy and publication keeps the invariant |
| `StreamInterleaving.DeliveredIsPrefixOfAccepted` | OS/stream_buffer.c:259-268 | Over every interleaving of one writer and one reader the bytes delivered are a prefix of the bytes accepted, and the retry loop is bounded |
| `StreamInterleaving.CopiesAreSafe` | OS/stream_buffer.c:300-311 | Over every interleaving no unread byte is overwritten and no unpublished byte is read |
| `MessageBuffers.LengthRoundTrip` | OS/stream_buffer.c:1022-1026 | The length in front of a message is read back as written |
| `MessageBuffers.FramesRoundTrip` | OS/stream_buffer.c:1276-1328 | Taking frames off the front finds exactly the messages that were framed |
| `MessageBuffers.MessagesKeepOrder` | OS/stream_buffer.c:1000-1050 | Over any series of calls messages come out whole, once each and in order |
| `MessageBuffers.StreamBuffer.WriteBytesToBuffer` | OS/stream_buffer.c:1476-1519 | The bytes lie from the given index on, around the end of the storage, and no other byte changes |
| `MessageBuffers.StreamBuffer.ReadBytesFromBuffer` | OS/stream_buffer.c:1522-1563 | The bytes from the given index on, around the end of the storage |
| `MessageBuffers.StreamBuffer.WriteMessageToBuffer` | OS/stream_buffer.c:1000-1050 | A message that fits is appended as one frame; an empty one or one that does not fit leaves the messages as they were |
| `MessageBuffers.StreamBuffer.ReadMessageFromBuffer` | OS/stream_buffer.c:1276-1328 | The first message comes out whole if the caller has room, and stays otherwise |
| `MessageBuffers.StreamBuffer.Send` | OS/stream_buffer.c:943-997 | As above for a message buffer; a stream buffer takes as many bytes as there is room for |
| `MessageBuffers.StreamBuffer.Receive` | OS/stream_buffer.c:1213-1273 | As above for a message buffer; a stream buffer gives the oldest bytes, as many as wanted and there |
| `MessageBuffers.StreamBuffer.NextMessageLengthBytes` | OS/stream_buffer.c:1169-1210 | The length of the first message or zero; the assertion that too few bytes for a frame means none always holds |
| `MessageInterleaving.LengthIsRight` | OS/stream_buffer.c:1286-1307 | The length the reader has copied, byte by byte beside the writer, is that of the next message |
| `MessageInterleaving.ReadHeadKeepsInv` | OS/stream_buffer.c:1247-1249 | Whenever the reader finds bytes it finds a whole frame at least |
| `MessageInterleaving.StagesIfItFits` | OS/stream_buffer.c:1000-1050 | The writer stages its whole frame exactly if it fits the space there is at that moment |
| `MessageInterleaving.ReadsIfAny` | OS/stream_buffer.c:1247-1252 | The reader begins to copy exactly if a message is there |
| `MessageInterleaving.TakesIfItFits` | OS/stream_buffer.c:1290-1312 | The reader takes the next message, and no more, exactly if its buffer can hold it; otherwise the message stays |
| `MessageInterleaving.StepKeepsInv` | OS/stream_buffer.c:1000-1050 | Every index read, byte copy, use of the length and publication keeps the invariant |
| `MessageInterleaving.MessagesWholeAndInOrder` | OS/stream_buffer.c:1276-1328 | Over every interleaving of single bytes, messages are received whole, once each and in the order sent, and what is stored and unread is at any moment exactly the frames of the others |
| `MessageInterleaving.NothingOrMore` | OS/stream_buffer.c:1183-1199 | The assertion that the bytes found are none or more than a length holds over every interleaving |
| `StreamBlocking.StepKeepsInv` | OS/stream_buffer.c:867-940 | Every section, publication and access of writer, reader and stray notifiers keeps the invariant |
| `StreamBlocking.WaitsAndNotifiesIff` | OS/stream_buffer.c:867-925 | A side decides to wait exactly if it lacks bytes, or space; the writer tests again after its wait unless its time is over, and notifies exactly from the trigger level on |
| `StreamBlocking.NoWakeUpIsEverLost` | OS/stream_buffer.c:1083-1137 | Over every interleaving: once the writer is done with what it put, a sleeping reader has too few bytes to read or fewer than the trigger level; once the reader is done, a sleeping writer lacks the space it requires; and the assertions of a single reader and writer hold |
| `StreamBlocking.BothAsleepOnlyIf` | OS/stream_buffer.c:876-888 | While both sleep, the reader has fewer bytes than it waits for and the writer less space |
| `StreamBlocking.BothCanSleepIff` | OS/stream_buffer.c:850-925 | Both sides can come to sleep at once exactly on a batching buffer or on a stream buffer with a trigger level above one |
| `StreamBlocking.WokenFindsIff` | OS/stream_buffer.c:1117-1145 | Over every run, a reader that waited, and whose wait neither its time nor a stray notification ended, was notified by the writer; it finds the bytes there were then and those put since, and can read any exactly if these are more than it reads above |
| `StreamBlocking.WakesInVainIff` | OS/stream_buffer.c:922-924 | A new buffer's reader can be woken by the writer and find nothing it can read exactly if the writer can wake it at all |
| `StreamBlocking.TakenBeforeNotification` | OS/stream_buffer.c:922-924 | The run for stream and message buffers: between the test of the trigger level and the notification the reader takes all and goes to wait again |
| `StreamBlocking.NotifiedAtTrigger` | OS/stream_buffer.c:1075-1081 | The run for batching buffers: the reader is woken at the trigger level and reads only above it |
| `StreamBlocking.VainReturnsNothing` | OS/stream_buffer.c:1142-1161 | A reader woken in vain returns without bytes |
| `StreamBlocking.BatchingWakesInVain` | OS/stream_buffer.c:1075-1145 | On every batching buffer a reader woken at the trigger level returns without bytes before its time is over |
| `EventGroups.EventGroup.SetEventBits` | OS/event_groups.c:547-643 | The traversal, with items leaving the list under it, visits every waiter once; those stay whose wait the bits, old and new, do not meet: of all it waits for one is missing, or all of them where any would do |
| `EventGroups.EventGroup.WaitForBits` | OS/event_groups.c:336-403 | The section of xEventGroupWaitBits before the task sleeps: it blocks exactly if it may and some bit it waits for is not set, or none is unless it asked for all |
| `EventGroups.EventGroup.SyncBits` | OS/event_groups.c:205-247 | The section of xEventGroupSync before the task sleeps |
| `EventGroups.VisitNext` | OS/event_groups.c:577-630 | The next entry, read before the current one may leave, is the right one to go on with |
| `EventGroups.SetBitsExact` | OS/event_groups.c:565-638 | A task that called with given bits is released exactly if all of them, or any of them, are among the bits old and new, and gets that value; otherwise it sleeps on |
| `EventGroups.SetBitsClearsExactly` | OS/event_groups.c:604-634 | Exactly the bits some released waiter with clear-on-exit waited for are cleared |
| `EventGroups.ConditionMeans` | OS/event_groups.c:774-808 | The test holds exactly if any bit waited for is set, or with all, exactly if each is |
| `EventGroups.WaitExact` | OS/event_groups.c:336-403 | A wait returns at once exactly if the bits meet it, and clears exactly what it asked for then; otherwise it goes behind the others, if it may |
| `EventGroups.SyncExact` | OS/event_groups.c:205-247 | A complete rendezvous clears its bits, and one that is not waits for all of them, if it may |
| `EventGroups.TimeoutExact` | OS/event_groups.c:420-445 | A timeout takes its task alone off the list; looking again it clears its bits exactly if they are met and the call clears on exit |
| `EventGroups.RendezvousReleasesAll` | OS/event_groups.c:205-224 | The task that completes a rendezvous releases all its waiters in that traversal with the complete value, and leaves its bits clear |
| `EventGroups.StepKeepsInv` | OS/event_groups.c:312-468 | Setting, clearing, waiting, rendezvous, timeout and return each keep the invariant |
| `EventGroups.NobodySleepsSatisfied` | OS/event_groups.c:336-403 | In every reachable state, of what the call of a sleeping task asked for, some bit is not set if it asked for all, and none is if it asked for any |

## Left out

- Task creation beyond the lists, stacks, MPU, thread-local storage, run-time statistics, tracing and all text output.
- Memory: allocation, static buffers, freeing of control blocks, and `memcpy` other than as copied bytes.
- Queue sets, the queue registry, and deletion of queues, event groups, timers and stream buffers.
- Recursive mutexes: the recursive call count of `xQueueTakeMutexRecursive`.
- Yield requests and the return values that ask for a context switch; the models say which task is woken and which one
  a switch selects, not when the switch is taken.
- `xTaskAbortDelay`, `xTaskCatchUpTicks`, tickless idle, and `xTaskNotifyStateClear` outside stream buffers.
- `vCoRoutineSchedule` and the pending-ready list of co-routines: selection there repeats that of tasks.
- Core affinity, preemption disabling, `configRUN_MULTIPLE_PRIORITIES` of 0 and the spin locks of several cores.
- Stream buffers: resets, changes of a trigger level, and completion callbacks of the application.
- MessageBuffers.StreamBuffer.Send: one call that runs to its end on the heap; calls that overtake each other are proved
  on values, in StreamInterleaving, MessageInterleaving and StreamBlocking.
- StreamBlocking.StepKeepsInv: of the contents the number of bytes alone; going to sleep in `xTaskNotifyWait` is one step,
  and that it is one in effect is proved in Notifications.
- Timers.TimerDaemon.ProcessReceivedCommands: pended function calls and the delete command.
- MessageBuffers.StreamBuffer.GetSpacesAvailable: lengths near the top of `size_t`, where the sum of length and tail
  would wrap, are not modelled.
- EventGroups.EventGroup.SetEventBits: the wait list is a sequence whose next entry is found by task, not the linked
  list of KernelLists; and a word is the set of the positions of its one bits.
- SchedulerLists.Scheduler.SelectHighestPriorityTask: which task of the chosen ready list runs is a parameter; that
  the list's cursor takes them in turn is `KernelLists.RoundRobin`.
- SchedulerLists.StepKeepsInv: a delayed task is put at any place of its list; that the lists are sorted is proved
  in DelayedTasks.
- Notifications.StepKeepsInv: one index of the notification array, and tasks that block for other reasons are not
  distinguished from running ones.
- QueueProtocol.StepKeepsInv: suspension and deletion of a waiting task, and queue reset, are not events.
- QueueOrder.WokenInTurn: the priority of a task does not change while it waits for the queue.
- SmpSelection.StepKeepsInv: the idle tasks are not deleted and keep their priority.
- PriorityInheritance.StepKeepsBound: the event item of a waiting task changes its value only through `vTaskPrioritySet`
  or by inheritance, which disciplined runs exclude; the list is then not sorted again, as in the source.
