# A model of the FreeRTOS kernel and of cJSON

The repository builds an IEC 61499 runtime on a FreeRTOS kernel and the cJSON library. This project models the
scheduler's data structures and protocols (`FreeRTOS/list.c`, `tasks.c`, `queue.c`, `timers.c`, `event_groups.c`,
`stream_buffer.c`, with the settings of `FreeRTOS/include/FreeRTOSConfig.h`: preemption, 32-bit ticks, 32 priorities,
mutexes, queue sets, timers) and cJSON's parser, printer, minifier and sibling chains (`User/cJSON.c`), and proves
what they are for. `dafny verify dfyconfig.toml` checks everything.

Most components come in two layers. One is a specification on values: a state machine whose steps are the critical
sections, the sections with the scheduler suspended and the interrupts of the source, with theorems about every run,
or a function on texts. The other is the source's own form, classes with fields, arrays, linked nodes and loops, whose
methods are proved to do what the specification says. `configASSERT` only prints in this configuration
(`FreeRTOS/include/FreeRTOSConfig.h:110-111`), so what the source asserts is either proved or asked of callers.

| files | subject |
|---|---|
| `Basics`, `Multiples`, `Words`, `Bits` | shared notions, words in bytes, and the bitwise operators on unsigned numbers |
| `ListRing` | the doubly linked ring with its end marker and moving index, and round-robin selection |
| `Ticks`, `ItemLists`, `DeadlineQueue`, `DelayLists`, `TimeOuts` | two 32-bit delay lists as one queue of unbounded deadlines; pended ticks; absolute delays; timeouts |
| `PriorityInheritance`, `MutexBookkeeping`, `InheritanceRuns`, `MutexScheduling`, `EmptyHandedRuns` | mutexes with priority inheritance, and a processor with a scheduler that runs them |
| `InheritedPriorities` | what bounds an inherited priority from above |
| `MissedSwitch`, `ChainedWaits`, `LoweredWaits` | runs that show why the two exceptions are made |
| `Mutexes` | the same operations in place, on control blocks, event lists and ready lists |
| `QueueProtocol`, `ItemRing`, `Queues`, `QueueSetProtocol`, `QueueSets` | queue locking and wake-ups, the byte ring, queue sets |
| `EventGroups` | waiting for, synchronising on and clearing event bits |
| `TimerSchedules`, `Timers` | software timers with backlog and list switching |
| `Rings`, `StreamProtocol`, `StreamWakeUps`, `MessageFraming`, `StreamBuffers` | single-writer, single-reader stream and message buffers: data and indices, waiting and notifying, messages |
| `TaskLists` | which list each task is on, the task counts, and priorities given by hand |
| `JsonText`, `JsonParser`, `JsonReader`, `JsonStrings`, `JsonPrinter` | cJSON's texts, parser and printer |
| `JsonSyntax`, `JsonGrammar`, `JsonAccepted`, `JsonLanguage` | the grammar of the texts, and that exactly those are accepted |
| `JsonRoundTrip` | the layout of printed texts; printing and then parsing |
| `JsonMinify`, `MinifiedTexts`, `MinifiedTrees` | minifying in place, with and without comments |
| `SiblingChains`, `ItemTrees` | the links between children, and copying whole trees of linked items |

Findings, each stated as a lemma:

- The give path (`FreeRTOS/queue.c:838-862`) decides about a context switch by the woken waiter alone when there is one,
  and forgets that the giver itself has just lost an inherited priority. `MutexScheduling.GiveLeavesScheduled` says
  exactly when the giver is then left running below another ready task, and `MissedSwitch.LateTakeInverts` is a run in
  which that leads to a holder below one of its waiters. `MutexScheduling.NoPriorityInversion` assumes nothing about who
  takes a mutex: the scheduler picks a most urgent task, and a run without such a give has no inversion. The comment at
  `FreeRTOS/queue.c:1505-1506` takes for granted what that theorem needs a proof for.
- Inheritance is not passed on. A holder that is raised while it waits for another mutex overtakes the holder of that one
  (`InheritanceRuns.ChainIsNotFollowed`, an exact condition; `ChainedWaits.ChainInverts`, a run), and one that is lowered
  keeps its place in the event list or its claim as the woken heir (`LoweredWaits.LoweringInverts` and
  `LostHeirInverts`, two runs). The theorems therefore ask that no task is reranked while it is itself in line for a mutex.
  `EmptyHandedRuns.NoInversionEmptyHanded` replaces that by a rule that callers can keep: never wait for a mutex while
  holding one.
- A base priority set by hand above an inherited priority is not used until the mutex is given back
  (`TaskLists.RaisedButHeldBack`): `TaskLists.NotBelowBase` says exactly when `vTaskPrioritySet` leaves a task below its
  base priority.
- A receiver that waits for a trigger level and a sender that waits for space can wait for each other.
  `StreamWakeUps.StuckOnlyThen` and `StuckThen` say for exactly which sizes.
- An object cut off behind a comma makes the parser read the byte behind the text
  (`JsonParser.UnfinishedObjectOverruns`); `JsonParser.OverrunNeedsComma` shows that no other text does, so a text passed
  with its terminator is safe.
- A `\u` that is not followed by four hexadecimal digits is taken for the number 0 (`User/cJSON.c:610-613`), so such texts
  are accepted (`JsonLanguage.BadDigitsReadAsZero`). They are the only texts outside the grammar that are
  (`JsonLanguage.AcceptsExactly`), when control characters are allowed in strings and as white space, as the parser does.
- With a reference time ahead of the tick, as an aborted delay leaves it, `xTaskDelayUntil` usually does not delay at all;
  `TimeOuts.ShouldDelayAhead` says exactly when it does.
- A wait of zero ticks at the last tick before the wrap would leave an item on the current list at the swap
  (`DelayLists.NoWaitAtLastTickIsLate`); it is the only wait that does
  (`DelayLists.DelayScheduler.AddToDelayedList`), and for all others the assertion at `FreeRTOS/tasks.c:179-180` is proved.
- A lock count that passes 127 loses wake-ups (`QueueProtocol.WrappedCountLosesWakeUp`), and overwriting from an
  interrupt in a locked member of a set miscounts (`QueueSetProtocol.OverwriteUnderLockMiscounts`).
- The overflow counter of a timeout is compared modulo 2^32, so a wait more than a wrap overdue can look short;
  `TimeOuts.ExpiredExactly` gives the exact condition.
- Minifying treats a quote behind a backslash as escaped even when the backslash is itself escaped
  (`MinifiedTexts.TrailingBackslashKeepsBlank`); `MinifiedTrees.MinifiesExactlyHarmless` says for which trees that does not
  matter.
- The printer needs two bytes more than the text (`JsonPrinter.PrintTree`); the header's advice of five is more than
  enough.

## Model

| member | source | states |
|---|---|---|
| `ListRing.List.InsertEnd` | FreeRTOS/list.c:61-88 | The item goes in front of the index: in the rotation that the index starts, it comes after everything already there; the index stays. |
| `ListRing.List.FindPlace` | FreeRTOS/list.c:111-147 | The search stops, also for the largest value, and the place found splits the list where the ascending insertion with equal values in arrival order would put the item. |
| `ListRing.List.Insert` | FreeRTOS/list.c:91-159 | The ring stays a ring, and its values and owners become the sorted insertion of the new item, behind items of equal value. |
| `ListRing.List.Remove` | FreeRTOS/list.c:162-188 | Exactly the given item leaves the ring; the count is the new length; an index that stood on the item steps back to its predecessor, any other stays. |
| `ListRing.List.NextEntry` | FreeRTOS/tasks.c:100-125 | The item chosen is the first of the rotation that starts behind the index, and goes to its end; the end marker is never chosen. |
| `ListRing.EachOnce` | FreeRTOS/tasks.c:100-125 | On an unchanged list of n items, n choices in a row are the rotation, in which every item occurs as often as in the list: once. |
| `ItemLists.BehindItsEquals` | FreeRTOS/list.c:91-159 | An item inserted stands behind every smaller or equal value and in front of the first larger one, and the others keep their order. |
| `ItemLists.RemoveFromOne` | FreeRTOS/list.c:162-188 | A removed item leaves its place only; what was before it and behind it stays, in order. |
| `Basics.WithoutBoth` | FreeRTOS/list.c:162-188 | The same for lists of tasks: the task goes from the part of the list that has it, and the rest keeps its order. |
| `DeadlineQueues.BlockedUntilDeadline` | FreeRTOS/tasks.c:2713-2823 | In every run of the unbounded deadline queue that leaves a blocked task alone, the task is still blocked if and only if the ticks have not reached its deadline. |
| `DeadlineQueues.WakesExactlyOnTime` | FreeRTOS/tasks.c:5287-5358 | A task that blocks for d > 0 ticks is woken by the tick numbered now + d, neither before nor after, whatever other tasks do. |
| `DeadlineQueues.WokenInOrder` | FreeRTOS/tasks.c:2743-2823 | The tasks a tick wakes are exactly those at the front of the queue whose time has come, in its order, and the rest stays as it was. |
| `DelayLists.InsertByWakeTime` | FreeRTOS/tasks.c:5323-5358 | Comparing the wrapped wake time with the tick picks the one of the two 32-bit lists on which the item means now + wait in unbounded time. |
| `DelayLists.RemoveFromMerge` | FreeRTOS/tasks.c:2635-2708 | Removing an item from whichever list holds it removes that task, and nothing else, from the unbounded queue. |
| `DelayLists.NoWaitAtLastTickIsLate` | FreeRTOS/tasks.c:175-187 | Why a wait of zero ticks at the last tick before the wrap is the exception: its item is still on the current list at the swap and would come due two wraps late. |
| `DelayLists.DelayScheduler.ResetNextTaskUnblockTime` | FreeRTOS/tasks.c:3983-4001 | The next unblock time is that of the head of the current list, or the largest tick when it is empty. |
| `DelayLists.DelayScheduler.SwitchDelayedLists` | FreeRTOS/tasks.c:175-187 | The lists change places at a new epoch; that the current list is then empty, which the source only asserts, is proved for every caller. |
| `DelayLists.DelayScheduler.StepTickCount` | FreeRTOS/tasks.c:2725-2741 | Over the tick and, at the wrap, the swap of the lists, no item moves in unbounded time, the current list is empty at the swap, and the next unblock time is never later than the head. |
| `DelayLists.DelayScheduler.DrainExpired` | FreeRTOS/tasks.c:2743-2823 | The loop readies exactly the tasks that are due, in order, takes them off their event lists, leaves exactly those that are not due, and asks for a switch exactly when one of them has at least the running priority. |
| `DelayLists.DelayScheduler.ProcessTick` | FreeRTOS/tasks.c:2713-2823 | One tick with the scheduler running is one step of the unbounded queue, also when the next unblock time lets it skip the list; a switch is required exactly when a woken task preempts, when the running task shares its priority, or when one was outstanding. |
| `DelayLists.DelayScheduler.IncrementTick` | FreeRTOS/tasks.c:2713-2883 | The same, and with the scheduler suspended the tick is only counted and no switch is required. |
| `DelayLists.DelayScheduler.AddToDelayedList` | FreeRTOS/tasks.c:5287-5358 | Blocking adds the item at now + wait to the unbounded queue, an indefinite wait goes to the suspended list instead; the lists are in order afterwards if and only if it is not a wait of zero ticks at the last tick before the wrap. |
| `DelayLists.DelayScheduler.RemoveFromEventList` | FreeRTOS/tasks.c:3160-3225 | The head of an event list leaves it and the delayed lists and is readied, or is only noted while the scheduler is suspended; the result says exactly whether it is above the running task, and then a switch is outstanding. |
| `DelayLists.DelayScheduler.MovePendingReady` | FreeRTOS/tasks.c:2219-2239 | All tasks noted while the scheduler was suspended leave the delayed lists and are readied in order; a switch is outstanding afterwards exactly when it was before or one of them has at least the running priority. |
| `DelayLists.DelayScheduler.ResumeAll` | FreeRTOS/tasks.c:2197-2281 | The last resume readies the noted tasks and then replays every pended tick: the unbounded queue has advanced by exactly as many ticks as were missed, and the result says exactly whether a switch is due. |
| `DelayLists.DelayScheduler.CatchUpTicks` | FreeRTOS/tasks.c:2615-2630 | Catching up by n ticks is n steps of unbounded time, and yields exactly when one of them asks for it. |
| `TimeOuts.ShouldDelayIsLater` | FreeRTOS/tasks.c:1236-1316 | For a caller less than one wrap late, the two-way 32-bit comparison says exactly whether the intended wake time is still to come, and the relative delay is the true distance. |
| `TimeOuts.ShouldDelayAhead` | FreeRTOS/tasks.c:1236-1316 | For a reference time ahead of the tick, as an aborted delay leaves it, the caller is delayed by the right time if and only if the tick wraps before the reference, the reference before the wake time, and the wake time is less than a wrap away; otherwise it goes on at once although its time is still to come. |
| `TimeOuts.DelayUntil` | FreeRTOS/tasks.c:1236-1316 | For any reference time the delay is the one decided on wrapped times and the reference moves on by the increment; for a caller less than one wrap late the task wakes at exactly the previous wake time plus the increment, or does not block when that has passed. |
| `TimeOuts.ExpiredExactly` | FreeRTOS/tasks.c:3297-3359 | The verdict on wrapped counters equals the unbounded comparison if and only if the wait is not a wrap or more overdue with a wrapped distance that looks short and a blind overflow test. |
| `TimeOuts.ChecksCompose` | FreeRTOS/tasks.c:3297-3359 | Over any number of checks of a finite wait with at most one wrap from each to the next, entry time plus remaining time stays the original deadline, and expiry is reported at the first check at or after it. |
| `TimeOuts.UnlimitedNeverExpires` | FreeRTOS/tasks.c:3317-3324 | A wait without limit outlasts any number of checks, however far apart. |
| `TimeOuts.TimeOut.SetTimeOutState` | FreeRTOS/tasks.c:3277-3294 | The two fields encode the unbounded instant of the call. |
| `TimeOuts.TimeOut.CheckForTimeOut` | FreeRTOS/tasks.c:3297-3359 | The outcome is the check that the theorems are about, computed from the 32-bit fields; with at most one wrap since entry, expiry is reported exactly from the deadline on and the deadline is kept; an aborted delay is reported and a wait without limit never expires. |
| `MutexScheduling.NoPriorityInversion` | FreeRTOS/tasks.c:4051-4134 | On one processor with a scheduler that picks a most urgent task, whoever takes and whenever, and with takes nested in any way: in every run in which no give leaves its switch out and no task in line for a mutex is reranked, a mutex holder always has at least the priority of each task waiting for that mutex. |
| `MutexScheduling.NoInversionWithoutLateTake` | FreeRTOS/queue.c:1469-1685 | The same with less asked: a give may leave its switch out, as long as its task takes no free mutex before the next switch. |
| `EmptyHandedRuns.NoInversionEmptyHanded` | FreeRTOS/queue.c:1469-1685 | Under a rule each caller can keep, never to wait for a mutex while holding one, only the missed switch is left: no inversion in any run in which no free mutex is taken behind one. Nested takes that succeed at once or return empty are included. |
| `EmptyHandedRuns.EmptyHandedReranksNobody` | FreeRTOS/queue.c:1640-1678 | Under that rule no raise and no undo ever reaches a task in line for a mutex, whoever runs and whenever waits end. |
| `EmptyHandedRuns.NoInversionOneAtATime` | FreeRTOS/queue.c:1469-1685 | The same for tasks that take one mutex at a time, which is one way to keep that rule. |
| `MutexScheduling.GiveLeavesScheduled` | FreeRTOS/queue.c:838-862 | A give leaves its task a most urgent runnable one or asks for a switch, if and only if it is not the case that a waiter was woken that does not exceed the lowered giver while some other runnable task does. |
| `MutexScheduling.ActKeepsScheduled` | FreeRTOS/queue.c:1469-1685 | Every step of the running task leaves it one the scheduler could pick, or a switch is requested, with that give as the only exception. |
| `MutexScheduling.OutsideKeepsScheduled` | FreeRTOS/tasks.c:2795-2805 | A wait or sleep that ends leaves the running task scheduled or preempts it. |
| `MutexBookkeeping.HeldCountsAndBasePriority` | FreeRTOS/tasks.c:4141-4214 | In every reachable state, however tasks are scheduled and takes are nested, the held count is the number of mutexes naming the task as holder, and a task that holds none is at its base priority. |
| `MutexBookkeeping.StepKeepsBooked` | FreeRTOS/queue.c:1469-1685 | Every step keeps those counts, priorities in range, and each waiting task on the event list of its mutex, once, and on no other. |
| `InheritanceRuns.StepKeepsInv` | FreeRTOS/queue.c:1469-1685 | Every critical section and every section with the scheduler suspended keeps: held counts, base priorities, sorted event lists that match their waiters, no inversion, and a woken heir for every free mutex that is waited for; asked is that a take is made by a most urgent task and that no task in line for a mutex is reranked. |
| `InheritanceRuns.TakeIsSafe` | FreeRTOS/queue.c:1497-1584 | A free mutex taken by a task of the highest runnable priority has no waiter above that task, because the woken heir would have been picked first. |
| `InheritanceRuns.HeadBecomesHeir` | FreeRTOS/tasks.c:3160-3225 | The head of the event list is the most urgent waiter, and once woken it is an heir to the mutex. |
| `InheritanceRuns.RaiseKeepsInv` | FreeRTOS/tasks.c:4051-4134 | Raising a holder that does not itself wait keeps the invariant, so the waiter may then join the list. |
| `InheritanceRuns.LowerKeepsInv` | FreeRTOS/queue.c:2109-2129 | After a timeout the holder may drop to what the head of the event list justifies, and with several mutexes held not at all: never below a task still waiting for a mutex it holds. |
| `InheritanceRuns.ChainIsNotFollowed` | FreeRTOS/tasks.c:4064-4108 | When the raised holder itself waits, the mutex it waits for is free of inversion afterwards if and only if the holder of that one is as urgent as the task that raised: a raise is not passed on. |
| `MissedSwitch.SwitchMissed` | FreeRTOS/queue.c:838-862 | The case of a give that leaves its switch out is reachable by scheduled tasks alone: a concrete run in which no switch is requested. |
| `MissedSwitch.LateTakeInverts` | FreeRTOS/queue.c:838-862 | That exception is needed: a run of the machine, reranking nobody in line, at whose end a holder is below one of its waiters. |
| `ChainedWaits.ChainInverts` | FreeRTOS/tasks.c:4064-4108 | The other exception is needed too: a run of the machine in which no give leaves its switch out and only the last step reranks a task in line, by raising it, ends with a holder below one of its waiters. |
| `LoweredWaits.LoweringInverts` | FreeRTOS/queue.c:1650-1678 | So is its other half: a run that is regular but for one undoing, which lowers a task while it waits, ends with that task holding the mutex below another waiter, because it has kept its place in the event list. |
| `LoweredWaits.LostHeirInverts` | FreeRTOS/tasks.c:4221-4320 | The same where the lowered task has already been woken for the mutex and was its only heir. |
| `InheritedPriorities.NoUndueInheritance` | FreeRTOS/tasks.c:4051-4320 | The bound from above: in every run of tasks that take one mutex at a time, a task above its base priority holds a mutex and runs at exactly the priority of a task inside a take of that mutex whose inheritance has not been undone. |
| `InheritedPriorities.HolderRunsAt` | FreeRTOS/tasks.c:4051-4320 | When everybody inside a take of its mutex waits, a holder runs at exactly the larger of its base priority and the highest priority waiting. |
| `InheritedPriorities.UndoneExactly` | FreeRTOS/tasks.c:4221-4320 | After a wait has been given up, a holder of that mutex alone is at its base priority or has exactly the priority of a task still waiting, is not below any of them and not above what it was; everybody else is as before. |
| `InheritedPriorities.RaisedExactly` | FreeRTOS/tasks.c:4051-4134 | Going on to wait raises the holder to the priority of the waiting task if it was below, and changes nobody else. |
| `InheritedPriorities.FlagIsRight` | FreeRTOS/tasks.c:4051-4134 | The flag kept for the timeout is set exactly when the holder, at this task's priority or more, is above its base priority on that account. |
| `InheritedPriorities.GivenExactly` | FreeRTOS/tasks.c:4141-4214 | Giving the last mutex takes the giver to its base priority; giving another, and everybody else's priority, change nothing. |
| `InheritedPriorities.GiveWakesHead` | FreeRTOS/queue.c:812-862 | A given mutex is free and without holder, exactly the head of its event list is woken to try again, and no other mutex or task moves. |
| `InheritedPriorities.BehindItsEquals` | FreeRTOS/list.c:91-159 | A task joins the event list behind everybody at least as urgent and in front of everybody less urgent. |
| `Mutexes.Kernel.PriorityInherit` | FreeRTOS/tasks.c:4051-4134 | On task control blocks and ready lists in place: the holder gets the priority of the caller if its own is lower and keeps its own if not, is on the ready list of that priority if ready, and the result says whether inheritance occurred. |
| `Mutexes.Kernel.PriorityDisinherit` | FreeRTOS/tasks.c:4141-4214 | One mutex fewer; with the last, the base priority and no other, ready lists in step, and a switch requested exactly when the priority changed. |
| `Mutexes.Kernel.PriorityDisinheritAfterTimeout` | FreeRTOS/tasks.c:4221-4320 | A holder of one mutex runs at the larger of its base and the highest waiting priority afterwards, one of several as before; ready lists in step. |
| `Mutexes.Kernel.RemoveFromEventList` | FreeRTOS/tasks.c:3160-3225 | The first waiter leaves the event list for its ready list; true exactly when it is above the running task. |
| `Mutexes.Kernel.TakeSection` | FreeRTOS/queue.c:1497-1584 | The section at the top of the take loop does what the state machine says, on counts, holder and ready lists. |
| `Mutexes.Kernel.WaitSection` | FreeRTOS/queue.c:1589-1631 | Inheriting and joining the event list in priority order, with the ready lists kept in step. |
| `Mutexes.Kernel.FreeMutex` | FreeRTOS/queue.c:2145-2161 | Giving disinherits and clears the holder; the result is the one of the disinheritance. |
| `Mutexes.Kernel.GiveSection` | FreeRTOS/queue.c:812-862 | The whole give path does what the state machine says. With a waiter the switch is requested exactly when that one is above the giver as it then is; without one exactly when the giver's priority has changed. |
| `Mutexes.Kernel.GiveUpSection` | FreeRTOS/queue.c:1640-1678 | After the last timeout the holder is lowered by what the event list still justifies, as InheritedPriorities.UndoneExactly has it. |
| `Mutexes.ReprioritisedIsReady` | FreeRTOS/tasks.c:4079-4107 | Moving a task between ready lists keeps every runnable task on the list of its current priority, once, and on no other. |
| `Mutexes.ReprioritisedOrder` | FreeRTOS/tasks.c:4079-4107 | It leaves its old list, goes to the end of its new one, and every other list and the order of the others stay. |
| `QueueProtocol.StepKeepsInv` | FreeRTOS/queue.c:2238-2355 | Every task section, interrupt and unlock section keeps the accounting of messages, free places, woken tasks and lock counts. |
| `QueueProtocol.NoLostWakeUp` | FreeRTOS/queue.c:2238-2355 | In every interleaving, if receivers wait, the messages are at most the receivers woken and not yet run plus the counted sends; the same for waiting senders, free places and counted receives. |
| `QueueProtocol.NobodyStranded` | FreeRTOS/queue.c:2238-2355 | Once the woken tasks have run and the queue is unlocked, no receiver waits while there is a message and no sender while there is room. |
| `QueueProtocol.ReplaySendsWakes` | FreeRTOS/queue.c:2251-2320 | The unlock loop wakes as many receivers as sends were counted, or all of them. |
| `QueueProtocol.ReplayReceivesWakes` | FreeRTOS/queue.c:2325-2354 | The unlock loop wakes as many senders as receives were counted, or all of them. |
| `QueueProtocol.ReplaySendsWakesFront` | FreeRTOS/queue.c:2251-2320 | Those woken are the front of the list, as many as were counted, and the others stay in their order. |
| `QueueProtocol.ReplayReceivesWakesFront` | FreeRTOS/queue.c:2325-2354 | The same for the senders. |
| `QueueProtocol.WrappedCountLosesWakeUp` | FreeRTOS/queue.c:1135-1142 | Why the lock count must stay below 127: one more wraps the signed byte, the loop wakes nobody, and a receiver stays on the list of a queue that holds a message. |
| `Queues.Queue.CopyDataToQueue` | FreeRTOS/queue.c:2134-2214 | On the byte ring: sent to the back, the item comes behind what was there; to the front, before it; overwriting leaves it alone; offsets stay item-aligned and inside the storage. |
| `Queues.Queue.CopyDataFromQueue` | FreeRTOS/queue.c:2217-2235 | The read offset advances one item, with the wrap, and the bytes there are the item returned. |
| `ItemRing.CopiedBehind` | FreeRTOS/queue.c:2162-2175 | Copying into the slot behind the last of n items, whatever wraps, makes the ring hold those items followed by the new one. |
| `ItemRing.CopiedInFront` | FreeRTOS/queue.c:2177-2208 | Copying into the slot before the first makes the ring hold the new item followed by the others. |
| `Queues.Queue.SendSection` | FreeRTOS/queue.c:800-960 | On success the items are the old ones with the new one behind, in front or alone, and the first waiting receiver is woken; it fails exactly when the queue is full, and then nothing changes. |
| `Queues.Queue.SendFromISR` | FreeRTOS/queue.c:1027-1142 | The same from an interrupt; on a locked queue the send is counted instead of waking anybody. |
| `Queues.Queue.ReceiveSection` | FreeRTOS/queue.c:1351-1410 | Receiving takes the first item off, fails exactly on an empty queue, and wakes the first waiting sender. |
| `Queues.Queue.ReceiveFromISR` | FreeRTOS/queue.c:1868-1927 | The same from an interrupt; on a locked queue it is counted. |
| `Queues.Queue.PeekSection` | FreeRTOS/queue.c:1714-1766 | Peeking returns the first item, leaves the items unchanged although the read offset moves and is put back, and passes the wake-up on. |
| `Queues.FirstInFirstOut` | FreeRTOS/queue.c:2134-2235 | Over any number of sends to the back and receives: what was there followed by what was sent is what was received followed by what is there. |
| `Queues.FrontComesNext` | FreeRTOS/queue.c:2177-2208 | What was sent to the front is what the next receive gets, and leaves the items as they were. |
| `Queues.Queue.LockQueue` | FreeRTOS/queue.c:225-237 | Locking sets the counts that are unlocked to zero and no others. |
| `Queues.Queue.UnlockTx` | FreeRTOS/queue.c:2238-2323 | The first unlock section, as a loop, has the effect of the replay in the protocol. |
| `Queues.Queue.UnlockRx` | FreeRTOS/queue.c:2325-2354 | The second unlock section, as a loop, has the effect of the replay in the protocol. |
| `QueueSetProtocol.MessagesAreConserved` | FreeRTOS/queue.c:2993-3047 | In every run the messages of a member are the copies of its handle in the set, plus the sends counted under its lock, plus the selections not yet received; the set never overflows. |
| `QueueSetProtocol.NoHandleIsDropped` | FreeRTOS/queue.c:3006-3043 | No notification ever finds the set full: a send adds its handle and an unlock adds as many as were counted. |
| `QueueSetProtocol.EmptyMemberLeavesNothing` | FreeRTOS/queue.c:2929-2959 | An empty member, which is what may be removed from a set, has no handle left in it and nothing counted. |
| `QueueSetProtocol.NotifyPays` | FreeRTOS/queue.c:2993-3047 | While an item of a member is unannounced there is room in the set for its handle. |
| `QueueSetProtocol.OverwriteUnderLockMiscounts` | FreeRTOS/queue.c:1135-1142 | Why overwriting from an interrupt is excluded for a locked member: the count rises although no item was added. |
| `QueueSets.QueueSet.NotifyContainer` | FreeRTOS/queue.c:2993-3047 | The handle goes behind the others in the ring of the set if there is room; for the set's own event list and lock count this is a send from an interrupt. |
| `QueueSets.ToldIsRun` | FreeRTOS/queue.c:2993-3047 | While its lock count stays below 128, telling the set any number of times is a run of the queue protocol on the set's own queue, so that what holds in every such run holds for the tasks waiting to select. |
| `QueueSets.QueueSet.SendSection` | FreeRTOS/queue.c:812-838 | On the byte rings of member and set: the item goes behind, before or in place of what was there, the set is told except for an overwrite of an item that was there, and nobody waiting for the member itself is woken. |
| `QueueSets.QueueSet.SendFromISR` | FreeRTOS/queue.c:1027-1142 | The same from an interrupt; under the lock the member only counts and the set is left alone. |
| `QueueSets.QueueSet.UnlockTx` | FreeRTOS/queue.c:2238-2323 | Unlocking a member, as a loop, tells the set once for each counted send, to the end of the count whoever waits. |
| `QueueSets.QueueSet.SelectFromSet` | FreeRTOS/queue.c:2966-2974 | The four bytes received from the set are the handle of the member told first; fails exactly when the set is empty. |
| `QueueSets.QueueSet.ReceiveSection` | FreeRTOS/queue.c:1351-1410 | Receiving from a selected member takes its first item and settles the selection. |
| `EventGroups.NobodyWaitsInVain` | FreeRTOS/event_groups.c:507-599 | In every reachable state of waits, syncs, sets, clears and timeouts, no queued task's condition is met. |
| `EventGroups.SetBitsWakesExactly` | FreeRTOS/event_groups.c:536-592 | Setting bits wakes exactly the waiters whose any or all condition holds on the bits after setting and before clearing, each reads that value, and exactly the others stay. |
| `EventGroups.SetBitsClearsExactly` | FreeRTOS/event_groups.c:536-592 | Of the bits then set, exactly those some woken waiter clears on exit are gone afterwards. |
| `EventGroups.LastArrivalReleasesAll` | FreeRTOS/event_groups.c:168-288 | The last arrival at a sync releases every task synchronising on the same mask, with the completing value, and leaves the mask clear. |
| `EventGroups.MatchIsSatisfied` | FreeRTOS/event_groups.c:540-564 | The match the traversal computes from the packed item value is the waiter's condition. |
| `EventGroups.WaitValueHolds` | FreeRTOS/event_groups.c:350-371 | The packed item value gives back the mask, the two options, the mark that it is no priority, and no wake-up marker. |
| `EventGroups.WokenValueHolds` | FreeRTOS/event_groups.c:583-583 | The value a woken task finds carries both marks and exactly the bits. |
| `EventGroups.EventGroup.SetBits` | FreeRTOS/event_groups.c:507-599 | One traversal of a list that shrinks under it, with clearing deferred, has the effect of the specification. |
| `EventGroups.EventGroup.ClearBits` | FreeRTOS/event_groups.c:447-472 | Each bit of the mask is clear, every other bit as before, nobody is woken, and the value before clearing is returned. |
| `EventGroups.EventGroup.WaitSection` | FreeRTOS/event_groups.c:313-381 | Met at once: the value before clearing is returned and, if asked for, no bit of the mask is left and every other bit is as before; otherwise nothing changes but that the task is queued last with an item that gives back what it asked for, unless it may not wait. |
| `EventGroups.EventGroup.SyncSection` | FreeRTOS/event_groups.c:189-240 | Set, test and, if complete, clear and return the completing value; otherwise wait for all bits with clearing. |
| `EventGroups.EventGroup.Returns` | FreeRTOS/event_groups.c:375-434 | What a blocked task does once it runs: woken, it returns exactly the bits left in its item; timed out, it looks once more, and a condition met now clears the mask if asked for, and only the mask. |
| `EventGroups.WaitMet` | FreeRTOS/event_groups.c:321-331 | A condition that is met costs the bits of the mask when they are to be cleared, no other bit, and nothing otherwise. |
| `EventGroups.WaitUnmet` | FreeRTOS/event_groups.c:332-371 | A condition that is not met queues the task behind the others, with an item that gives back its mask and both options, or does nothing. |
| `EventGroups.SyncLeaves` | FreeRTOS/event_groups.c:189-240 | The last to arrive leaves the mask clear and every other bit as it was; any other is queued for all of the mask with clearing. |
| `EventGroups.TestIsRight` | FreeRTOS/event_groups.c:665-701 | The test of the source in terms of bits: of all none is missing, of any one is there. |
| `EventGroups.RemainingBoth` | FreeRTOS/event_groups.c:536-592 | The tasks that go on waiting keep their items and their order. |
| `TimerSchedules.CalledExactly` | FreeRTOS/timers.c:491-534 | Once tick now is processed, an auto-reload timer started at C with period P has been called exactly floor((now - C)/P) times and its next expiry lies in (now, now + P]; a one-shot timer has been called once if due and not at all before. |
| `Timers.ChoiceIsRight` | FreeRTOS/timers.c:685-726 | With the command less than a wrap ago, the 32-bit comparisons process at once exactly when the expiry has passed, and otherwise pick the list of the epoch in which the timer expires. |
| `Timers.TimerService.InsertTimerInActiveList` | FreeRTOS/timers.c:685-726 | The result says whether the expiry has passed; if not, the item joins the schedule at its unbounded expiry. |
| `Timers.TimerService.ReloadTimer` | FreeRTOS/timers.c:491-507 | The backlog loop calls back once for each expiry that has passed and schedules the first that has not. |
| `Timers.TimerService.ProcessExpiredTimer` | FreeRTOS/timers.c:510-534 | Processing the head keeps the schedule exact for every timer and leaves strictly fewer items due. |
| `Timers.TimerService.SwitchTimerLists` | FreeRTOS/timers.c:877-899 | Everything left on the current list is processed before the lists change places, so the schedule stays exact across the wrap. |
| `Timers.TimerService.SampleTimeNow` | FreeRTOS/timers.c:662-682 | A sample less than a wrap after the last, or any later when no timer was active, moves unbounded time to it; the lists are switched exactly when the tick went down. |
| `Timers.SleepIsRight` | FreeRTOS/timers.c:602-658 | The 32-bit difference handed to the queue is the distance to the next expiry, or, with only the overflow list filled, to the wrap, and it is positive. |
| `Timers.TimerService.ProcessTimerOrBlock` | FreeRTOS/timers.c:573-660 | One round of the daemon with its own sample of the tick: it processes the head if that is due, with fewer items due afterwards, or sleeps when nothing is; the sleep is never of zero ticks (which the delay lists could not manage at the last tick of a wrap), never runs past an expiry, and is unlimited exactly when no timer is active. |
| `Timers.TimerService.Create` | FreeRTOS/timers.c:258-357 | A created timer, dynamic or static, is known and dormant. |
| `Timers.TimerService.BeginCommand` | FreeRTOS/timers.c:762-786 | Before a command is looked at its timer is off the lists and the time is sampled. |
| `Timers.TimerService.Launch` | FreeRTOS/timers.c:790-819 | A start is scheduled from the tick at which it was sent; an expiry already passed, with its whole backlog, is processed at once. |
| `Timers.TimerService.Start` | FreeRTOS/timers.c:790-819 | Start and reset restart this timer at the tick of the command, with every expiry up to now called back for, and leave every other timer on its own schedule. |
| `Timers.TimerService.Stop` | FreeRTOS/timers.c:821-825 | The timer is dormant, its active bit clear; the others go on. |
| `Timers.TimerService.ChangePeriod` | FreeRTOS/timers.c:827-840 | The timer starts afresh now with the new period; the others go on. |
| `Timers.TimerService.Delete` | FreeRTOS/timers.c:842-866 | A dynamically allocated timer is forgotten, a statically allocated one stays known, off the lists and not active; the others keep period, start and calls, and their schedule stays exact. |
| `StreamProtocol.ReceivedIsPrefix` | FreeRTOS/stream_buffer.c:1115-1223 | However one writer and one reader interleave between index reads, single byte copies and publication: the bytes received are a prefix of those accepted, at most length - 1 are held, and every unread byte lies untouched. |
| `StreamProtocol.SampleTailKeepsInv` | FreeRTOS/stream_buffer.c:471-501 | The space computed from the two indices is the room that is free, and what the writer found free stays free. |
| `StreamProtocol.SampleHeadKeepsInv` | FreeRTOS/stream_buffer.c:1205-1223 | The count computed from the two indices is the number of unread bytes, and they stay there. |
| `StreamProtocol.WriteByteKeepsInv` | FreeRTOS/stream_buffer.c:1115-1158 | A byte copied by the writer hits no unread byte. |
| `MessageFraming.MessagesArriveInOrder` | FreeRTOS/stream_buffer.c:698-738 | However the copying interleaves, the messages received are the first of the messages sent, each whole, unmodified and in order. |
| `MessageFraming.LengthIsNext` | FreeRTOS/stream_buffer.c:845-882 | The length bytes a reader takes are the length of the next message, and all of it is available. |
| `Words.WordRoundTrip` | FreeRTOS/stream_buffer.c:710-716 | A stored length reads back, whatever its size, and so does a stored handle. |
| `StreamBuffers.StreamBuffer.BytesInBuffer` | FreeRTOS/stream_buffer.c:1205-1223 | The count is the number of unread bytes, below the length. |
| `StreamBuffers.StreamBuffer.SpacesAvailable` | FreeRTOS/stream_buffer.c:471-501 | The space is the length less one less the unread bytes. |
| `StreamBuffers.StreamBuffer.WriteBytesToBuffer` | FreeRTOS/stream_buffer.c:1115-1158 | The two copies write exactly the places from the given one on, across the end, and nothing else. |
| `StreamBuffers.StreamBuffer.ReadBytesFromBuffer` | FreeRTOS/stream_buffer.c:1161-1202 | The two copies read those places in order. |
| `StreamBuffers.StreamBuffer.WriteMessageToBuffer` | FreeRTOS/stream_buffer.c:698-738 | Behind what was sent comes the message with its length, whole, or nothing; of a stream the first min(length, space) bytes, and their number is returned; without room nothing changes. |
| `StreamBuffers.StreamBuffer.ReadMessageFromBuffer` | FreeRTOS/stream_buffer.c:942-991 | The next message comes out whole; into too small a buffer nothing is read and the tail is unchanged. |
| `StreamBuffers.StreamBuffer.NextMessageLengthBytes` | FreeRTOS/stream_buffer.c:845-882 | The length of the next message, 0 when there is none, and nothing changes. |
| `StreamBuffers.StreamBuffer.Send` | FreeRTOS/stream_buffer.c:516-644 | Behind the waiting: all of a message that fits, none of one that does not; of a stream the first bytes, as many as fit, and their number is returned; a registered receiver is notified exactly when something was written and the trigger level is reached. |
| `StreamBuffers.StreamBuffer.Receive` | FreeRTOS/stream_buffer.c:741-842 | Behind the waiting: the next message if it fits the caller's buffer, else nothing; of a stream what is there; a registered sender is notified exactly when something was read. |
| `StreamBuffers.StreamBuffer.RegisterToSend` | FreeRTOS/stream_buffer.c:569-593 | The sender registers exactly when the unread bytes leave less space than it requires. |
| `StreamBuffers.StreamBuffer.RegisterToReceive` | FreeRTOS/stream_buffer.c:768-795 | The receiver registers exactly when there is nothing in the buffer that it could use. |
| `StreamBuffers.StreamBuffer.SetTriggerLevel` | FreeRTOS/stream_buffer.c:441-468 | A level below the length is taken, zero as one; any other is refused and nothing changes. |
| `StreamWakeUps.NoLostWakeUp` | FreeRTOS/stream_buffer.c:563-627 | In every interleaving of registering, writing, notifying and timing out: once a send is complete, a receiver that still waits unnotified faces less than the trigger level; once a receive is complete, a sender that still waits unnotified faces less space than it asked for. |
| `StreamWakeUps.StuckOnlyThen` | FreeRTOS/stream_buffer.c:563-627 | Both wait for each other only if the space asked for plus the trigger level exceeds the capacity by two or more and the trigger level is more than the smallest usable contents. |
| `StreamWakeUps.StuckThen` | FreeRTOS/stream_buffer.c:563-627 | And for all such sizes they can: a run after which both wait, unnotified, ... |
| `StreamWakeUps.OnlyTimeOutsHelp` | FreeRTOS/stream_buffer.c:563-627 | ... and only a time limit gets them out. |
| `StreamWakeUps.NoSpareNotification` | FreeRTOS/stream_buffer.c:563-627 | In every interleaving only a task that waits has a notification, and none is notified twice for one wait. |
| `TaskLists.TaskTable.Create` | FreeRTOS/tasks.c:1048-1110 | The new task is last on the ready list of its priority, with its event item valued accordingly, the total is one more, and the bound on ready priorities holds. |
| `TaskLists.TaskTable.Delete` | FreeRTOS/tasks.c:1134-1205 | The running task moves to the termination list and stays counted, any other is gone and uncounted; every other task keeps its one list. |
| `TaskLists.TaskTable.CheckTasksWaitingTermination` | FreeRTOS/tasks.c:3675-3700 | Exactly the tasks on the termination list are gone and uncounted, and the list and its count are empty. |
| `TaskLists.TaskTable.Suspend` | FreeRTOS/tasks.c:1693-1744 | The task leaves the one list it is on for the suspended list. |
| `TaskLists.TaskTable.MakeReady` | FreeRTOS/tasks.c:1845-1885 | The task leaves the one list it is on for the ready list of its priority. |
| `TaskLists.TaskTable.Block` | FreeRTOS/tasks.c:5287-5358 | The running task leaves its ready list for the place of its wake time on the delayed list, or on the overflow list when that time has wrapped, or for the suspended list for an unlimited wait. |
| `TaskLists.TaskTable.SwitchDelayedLists` | FreeRTOS/tasks.c:175-187 | The two delay lists change places and every task keeps its one list. |
| `TaskLists.TaskTable.SetPriority` | FreeRTOS/tasks.c:1643-1666 | A ready task moves to the end of the list of its new priority; others keep their place. |
| `TaskLists.TaskTable.PrioritySet` | FreeRTOS/tasks.c:1527-1686 | Base priority, priority in use, event list item value and lists change as the source has it, for any new priority; unless a yield is asked for, nothing ready is above the running task if nothing was before. |
| `TaskLists.NoYieldNothingAbove` | FreeRTOS/tasks.c:1566-1601 | The case split over raised and lowered, running and other asks for a yield wherever the change can put a ready task above the running one. |
| `TaskLists.NotBelowBase` | FreeRTOS/tasks.c:1611-1625 | A task given a priority by hand stays at or above its base priority if and only if it was not running on an inherited priority or the new one is not above that. |
| `TaskLists.RaisedButHeldBack` | FreeRTOS/tasks.c:1611-1625 | The input that breaks it: a holder of base priority 1 on an inherited 3 that is given 5 goes on at 3. |
| `TaskLists.TaskTable.SelectHighestPriority` | FreeRTOS/tasks.c:109-125 | The search down from the recorded top ends at the highest priority that has a ready task. |
| `JsonRoundTrip.RoundTripsWithinLimit` | User/cJSON.c:1162-1224 | Printing any tree of null, booleans, strings, arrays and objects, formatted or not, and parsing the text gives the tree back and uses up the whole text if and only if it is nested within the limit; deeper ones are refused. |
| `JsonRoundTrip.PrintIsSpelled` | User/cJSON.c:1514-1800 | Where line breaks, tabs, spaces and separators stand: the printed text is that of a layout, stated on the grammar, with a line and one more tab for each member, a tab behind each colon, a space behind each comma of an array, and nothing when unformatted. |
| `JsonRoundTrip.ParsePrinted` | User/cJSON.c:1287-1339 | The same for a value anywhere inside a text, at any depth. |
| `JsonRoundTrip.ParsePrintedString` | User/cJSON.c:748-874 | Reading a printed string anywhere in a text gives its bytes back. |
| `JsonGrammar.ParsesExactly` | User/cJSON.c:1070-1147 | Every text of the grammar of RFC 8259 without numbers, every string in any of its spellings, with white space wherever it may stand and perhaps a byte order mark, parses as the tree it stands for if that is nested within the limit, and is refused if not. |
| `JsonLanguage.AcceptsExactly` | User/cJSON.c:1070-1147 | And nothing else: a text is accepted, with every \u followed by four hexadecimal digits, if and only if it is such a text, and the tree is the one it stands for. |
| `JsonLanguage.RefusesExactly` | User/cJSON.c:1070-1147 | Every other text with complete escapes is refused. |
| `JsonLanguage.BadDigitsReadAsZero` | User/cJSON.c:610-613 | Why that condition: a \u followed by letters that are no digits is accepted as the number 0, although the text is none of the grammar. |
| `JsonGrammar.SourceIsRead` | User/cJSON.c:1287-1339 | The same as the first for a value anywhere in a text, at any depth. |
| `JsonGrammar.StringIsRead` | User/cJSON.c:748-874 | A string in any spelling, each character as it is, behind a backslash, by its number or as a pair of surrogates, is read as the bytes it stands for. |
| `JsonGrammar.Hex4IsRead` | User/cJSON.c:590-620 | Four hexadecimal digits of any number, each in a capital or a small letter, are read as that number. |
| `JsonGrammar.TextBehind` | User/cJSON.c:1101-1109 | Text behind the value is refused when the terminator is asked for, and left alone when it is not. |
| `JsonReader.ParseBuffer.ParseValueHere` | User/cJSON.c:1287-1339 | On a moving offset and depth, for any text whatever: succeeds and fails as the specification, and on success stops where it does with the depth restored. |
| `JsonReader.ParseBuffer.ParseArrayHere` | User/cJSON.c:1416-1511 | The loop over the elements agrees with the specification of arrays, for any text. |
| `JsonReader.ParseBuffer.ParseObjectHere` | User/cJSON.c:1576-1686 | The loop over the members agrees with the specification of objects, for any text, including where the source would read the byte behind the text. |
| `JsonReader.ParseBuffer.BufferSkipWhitespace` | User/cJSON.c:1013-1036 | Stops at the first byte above 32, or steps back from the very end. |
| `JsonReader.ParseText` | User/cJSON.c:1070-1147 | Byte order mark, value and, if asked for, the terminator: agrees with the specification for any text; the end reported is that of the value, or a byte of the text on failure. |
| `JsonParser.OverrunNeedsComma` | User/cJSON.c:1632-1650 | The parser reads behind the text only in a text whose last byte is a comma; a text passed with its terminator is safe. |
| `JsonParser.KeyOutsideExactly` | User/cJSON.c:1632-1650 | A key is looked for outside the text exactly when what comes before it is the last byte. |
| `JsonParser.UnfinishedObjectOverruns` | User/cJSON.c:748-757 | A nine-byte text on which it does. |
| `JsonStrings.MeasureString` | User/cJSON.c:748-792 | The first scan finds the closing quote that the specification finds, and its estimate is the number of units it passes plus the terminator. |
| `JsonStrings.ReadString` | User/cJSON.c:748-874 | For any input whatever: terminates, every write stays inside the estimate, and the bytes are those of the specification, which JsonGrammar.StringIsRead is about. |
| `JsonStrings.ReadHex4` | User/cJSON.c:590-620 | The shift loop gives the number of the four digits, or 0 when one of them is none. |
| `JsonStrings.LiteralUnits` | User/cJSON.c:761-787 | Six characters of an escape count for at least three units of the estimate, which is what its UTF-8 form can need. |
| `JsonStrings.Utf16LiteralToUtf8` | User/cJSON.c:627-745 | A valid escape or surrogate pair is written as the UTF-8 form of its code point, computed with the source's bit operations; anything else writes nothing. |
| `JsonStrings.WriteUtf8` | User/cJSON.c:722-739 | The byte loop from the last byte to the first, with its masks and shifts, writes that form. |
| `Bits.ContinuationBits` | User/cJSON.c:722-729 | The masks of a continuation byte keep six bits and set the mark. |
| `Bits.FirstByteBits` | User/cJSON.c:730-734 | The mark of a first byte is added to what is left of the code point. |
| `Bits.SurrogateBits` | User/cJSON.c:682-682 | Masking, shifting and joining the two halves of a pair gives the offset of its code point. |
| `JsonStrings.Utf8RoundTrip` | User/cJSON.c:681-720 | That form is well shaped, shortest, and gives the code point back (section 3 of RFC 3629). |
| `JsonPrinter.PrintBuffer.Ensure` | User/cJSON.c:418-501 | Grants room for the bytes asked for and one more, or fails exactly when the buffer cannot grow to it; what has been written stays. |
| `JsonPrinter.PrintBuffer.UpdateOffset` | User/cJSON.c:504-514 | The offset moves to the end of the text just written. |
| `JsonPrinter.PrintBuffer.PrintStringPtr` | User/cJSON.c:877-996 | Writes the escaped string inside what was granted; fails exactly when it does not fit. |
| `JsonPrinter.PrintBuffer.PrintValue` | User/cJSON.c:1342-1413 | Writes the text of the tree behind what is there, every store inside the last grant; fails exactly when text and two bytes do not fit. |
| `JsonPrinter.PrintBuffer.PrintArray` | User/cJSON.c:1514-1573 | The same for arrays. |
| `JsonPrinter.PrintBuffer.PrintObject` | User/cJSON.c:1689-1800 | The same for objects, formatted or not. |
| `JsonPrinter.PrintTree` | User/cJSON.c:1162-1284 | The printer gives the text of the tree exactly when text and two bytes fit the given buffer or an int. |
| `JsonMinify.Minify` | User/cJSON.c:2808-2854 | In place, with the write position never past the read position: the buffer ends up with what is left of the text, terminated. |
| `JsonMinify.MinifyString` | User/cJSON.c:2786-2806 | Inside a string both positions move on together to behind the closing quote. |
| `JsonMinify.SkipMultilineComment` | User/cJSON.c:2772-2784 | Stops behind the end of the comment or at the end of the text. |
| `MinifiedTexts.MinifyKeepsTokens` | User/cJSON.c:2755-2854 | White space and comments of both kinds go wherever they stand between tokens, and every token stays, in every text of the grammar in which no string ends in an escaped backslash. |
| `MinifiedTexts.CommentedParses` | User/cJSON.c:2755-2854 | So a text with comments parses, once minified, as the tree it stands for. |
| `MinifiedTexts.LooseSlashGoes` | User/cJSON.c:2755-2854 | Texts that are none of the grammar: a slash by itself goes alone, and a comment without an end takes the rest of the text. |
| `MinifiedTexts.FormattedBecomesUnformatted` | User/cJSON.c:2808-2854 | Minifying the formatted text of a tree gives its unformatted text, when no string or key ends in a backslash. |
| `MinifiedTrees.MinifiesExactlyHarmless` | User/cJSON.c:2786-2854 | The exact condition: formatted becomes unformatted if and only if no key ends in a backslash and no string does but one behind which only closing square brackets follow. |
| `MinifiedTexts.TrailingBackslashKeepsBlank` | User/cJSON.c:2786-2806 | Why that condition: behind a string that ends in a backslash a blank survives. |
| `SiblingChains.Parent.AddItem` | User/cJSON.c:1931-1962 | Appends, and the chain keeps its shape. |
| `SiblingChains.Parent.GetItem` | User/cJSON.c:1826-1843 | The child at that position, or none. |
| `SiblingChains.Parent.InsertItem` | User/cJSON.c:2238-2265 | Inserts before the child at that position, or appends; the chain keeps its shape. |
| `SiblingChains.Parent.DetachItem` | User/cJSON.c:2162-2196 | Takes out exactly that child, whose own links are cleared; the chain keeps its shape at either end. |
| `SiblingChains.Parent.ReplaceItem` | User/cJSON.c:2267-2314 | Puts the replacement in the place of the child; the chain keeps its shape at either end. |
| `SiblingChains.Parent.LinkParsed` | User/cJSON.c:1448-1498 | The children linked by the parser form a chain of that shape, in order. |
| `ItemTrees.Duplicate` | User/cJSON.c:2677-2757 | Copying a linked tree of any depth, or an item alone, gives a fresh tree that stands for the same and is linked in the same shape at every level; the original is untouched. |
| `ItemTrees.CopyChild` | User/cJSON.c:2717-2741 | One child is copied with everything below it and cross-wired behind the copies made before. |

## Left out

- Allocation failure, MPU, trace, statistics, the queue registry, thread-local storage, hooks and errno: configuration and bookkeeping around the modelled behaviour.
- Ready-priority bitmap: its port macros are not part of this model; the generic selection macros are used instead.
- Priority changes by hand, suspension and deletion in inheritance runs: `TaskLists` has them, without inheritance.
- `MutexScheduling.NoPriorityInversion`: a task gives only what it holds and does not take what it holds; both are rules of the interface.
- `Mutexes.Kernel`: the position of a task inside `xQueueSemaphoreTake` is a field of its control block, in place of a program counter; taking while the scheduler is suspended is left out.
- Recursive mutexes: a counter on top of the modelled mutex.
- `QueueProtocol.NoLostWakeUp`: for a queue outside a set, lock counts below 127, woken tasks that are not deleted or suspended and no reset of a live queue; the order of an event list is a parameter of the waiting step, since the claims are about numbers.
- `QueueSetProtocol.MessagesAreConserved`: members are fed by sends other than overwrites under a lock and read only after being selected; the set is read by one section at a time. The lock count and event lists of the set's own queue are in `QueueSets`.
- `QueueSets.QueueSet.ReceiveSection`: for a member that was selected, which is the rule of the interface; members are added when the set is made.
- Blocking loops of queues and event groups: their sections are modelled and interleaved, the retry loop is the composition of `QueueProtocol`'s steps with `TimeOuts`.
- `StreamBuffers.StreamBuffer.SpacesAvailable`: the source re-reads the tail until two reads agree; the method is the computation on the value agreed on, and `StreamProtocol` covers a reader that moves on meanwhile.
- `StreamBuffers.StreamBuffer.Send`: the waiting in front of it is not in the method; its registering section is `RegisterToSend`, and `StreamWakeUps` has the interleavings.
- `StreamBuffers.StreamBuffer.Receive`: likewise, with `RegisterToReceive`.
- `StreamWakeUps.NoLostWakeUp`: the trigger level is not changed while a receiver waits; lowering it wakes nobody.
- `DelayLists.DelayScheduler.IncrementTick`: whether more than one task is ready at the running priority is a parameter; the ready lists are in `TaskLists`.
- `Timers.TimerService.SampleTimeNow`: while a timer is active the samples are less than one wrap of the tick apart; the daemon's sleeps are, the time it is kept from running is not bounded here.
- `ListRing`: `listINSERT_END` and `listREMOVE_ITEM`, which are macros of a header that is not part of this model, are taken as their functions in `list.c`.
- cJSON numbers, raw items, references and constant keys: the conversion of numbers is the C library's floating point.
- `JsonLanguage.AcceptsExactly`: a number is no text of the model's grammar and is refused by the model's parser; the grammar is RFC 8259's but for that, for control characters in strings and for control characters as white space, which cJSON accepts.
- `MinifiedTexts.MinifyKeepsTokens`: for texts in which no string ends in an escaped backslash; the exact condition is stated for printed texts, in `MinifiedTrees.MinifiesExactlyHarmless`.
- `InheritedPriorities.NoUndueInheritance`: for tasks that take one mutex at a time and return empty only when they asked not to wait or their time is up; with several mutexes held the source keeps an inherited priority until the last is given.
- `JsonReader.ParseBuffer.ParseValueHere`: numbers fail in the model.
- `JsonReader.ParseBuffer.ParseArrayHere`: numbers fail in the model.
- `JsonReader.ParseText`: numbers fail in the model; which byte a failure points at is not stated, only that it is one of the text.
- `JsonPrinter.PrintBuffer.Ensure`: allocation succeeds.
- `JsonPrinter.PrintBuffer.PrintValue`: without numbers and raw items.
- `JsonPrinter.PrintTree`: without numbers and raw items; allocation succeeds.
- Trees of linked nodes: parser and printer work on children as sequences; the linking itself is in `SiblingChains` and `ItemTrees`.
- `ItemTrees.Duplicate`: the type bits, strings and numbers of an item are one value, copied as such.
- `FreeRTOS/croutine.c` and tickless idle: compiled out. Task notifications beyond those of stream buffers, generated tables and glue: not part of this model.
