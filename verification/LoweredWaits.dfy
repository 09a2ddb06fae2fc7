/** Two runs in which a task in line is lowered, the other half of the second exception that NoPriorityInversion makes. A
    task lowered on an event list keeps the place of its old priority, is woken before a more urgent one and takes the
    mutex in front of it; and so does a task that is lowered just after it has been woken. */

module LoweredWaits {
  import opened Basics
  import opened PriorityInheritance
  import opened MutexScheduling
  import opened MissedSwitch

  /** The peer takes the second mutex and the low task the first; the middle task waits for the second, the high one for
      the first; the low task, raised, waits for the second in front of the middle one; and the high one times out. */
  function LowerSteps(): seq<Step> {
    (([Sleep(HIGH)] + [Sleep(MIDDLE)]) + (Take(PEER, SECOND) + Take(LOW, FIRST)))
    + ((([Wake(MIDDLE)] + TakeAndWait(MIDDLE, SECOND)) + ([Wake(HIGH)] + TakeAndWait(HIGH, FIRST)))
       + (TakeAndWait(LOW, SECOND) + HighTimesOut()))
  }

  function HighTimesOut(): seq<Step> {
    [WaitEnds(HIGH)] + ([TryTake(HIGH)] + ([TimeOut(HIGH)] + [FinishExpired(HIGH)]))
  }

  function BothTaken(): State {
    Four(Task(1, 1, 1, Idle), Task(1, 1, 1, Idle), Task(5, 5, 0, Asleep), Task(10, 10, 0, Asleep),
         Mutex(false, Some(LOW), []), Mutex(false, Some(PEER), []))
  }

  function MiddleWaits(): State {
    Four(Task(1, 1, 1, Idle), Task(5, 1, 1, Idle), Task(5, 5, 0, Waiting(SECOND, true)), Task(10, 10, 0, Asleep),
         Mutex(false, Some(LOW), []), Mutex(false, Some(PEER), [MIDDLE]))
  }

  function HighWaits(): State {
    Four(Task(10, 1, 1, Idle), Task(5, 1, 1, Idle), Task(5, 5, 0, Waiting(SECOND, true)),
         Task(10, 10, 0, Waiting(FIRST, true)), Mutex(false, Some(LOW), [HIGH]), Mutex(false, Some(PEER), [MIDDLE]))
  }

  /** All have queued up; `high` and `queue` are the high task and the event list of the first mutex. */
  function LowWaits(high: Task, queue: seq<TaskId>): State {
    Four(Task(10, 1, 1, Waiting(SECOND, true)), Task(10, 1, 1, Idle), Task(5, 5, 0, Waiting(SECOND, true)), high,
         Mutex(false, Some(LOW), queue), Mutex(false, Some(PEER), [LOW, MIDDLE]))
  }

  function HighGivesUp(mode: Mode): State {
    LowWaits(Task(10, 10, 0, mode), [])
  }

  lemma BothAreTaken()
    ensures Leads(Start(), ([Sleep(HIGH)] + [Sleep(MIDDLE)]) + (Take(PEER, SECOND) + Take(LOW, FIRST)), BothTaken())
  {
    hide Leads, Enabled, Apply, Scheduled, Four, SetTask, SetMutex, Take;
    var free, first, second := Mutex(true, None, []), Mutex(false, Some(LOW), []), Mutex(false, Some(PEER), []);
    var low, one, middle, high := Task(1, 1, 0, Idle), Task(1, 1, 1, Idle), Task(5, 5, 0, Asleep), Task(10, 10, 0, Asleep);
    var s1 := Four(low, one, middle, high, free, second);
    UrgentOnesSleep();
    FourScheduled(low, low, middle, high, free, free, 1);
    FourTasks(low, low, middle, high, free, free, one);
    FourMutexes(low, one, middle, high, free, free, second);
    FourMutexes(low, low, middle, high, free, free, second);
    Acquire(Quiet(), PEER, SECOND, s1);
    FourScheduled(low, one, middle, high, free, second, 1);
    FourTasks(low, one, middle, high, free, second, one);
    FourMutexes(one, one, middle, high, free, second, first);
    FourMutexes(low, one, middle, high, free, second, first);
    Acquire(s1, LOW, FIRST, BothTaken());
    LeadsOn(Quiet(), Take(PEER, SECOND), s1, Take(LOW, FIRST), BothTaken());
    LeadsOn(Start(), [Sleep(HIGH)] + [Sleep(MIDDLE)], Quiet(), Take(PEER, SECOND) + Take(LOW, FIRST), BothTaken());
  }

  lemma MiddleQueues()
    ensures Leads(BothTaken(), [Wake(MIDDLE)] + TakeAndWait(MIDDLE, SECOND), MiddleWaits())
  {
    hide Leads, Enabled, Apply, Scheduled, Four, SetTask, SetMutex, TakeAndWait;
    var first, second, queue := Mutex(false, Some(LOW), []), Mutex(false, Some(PEER), []), Mutex(false, Some(PEER), [MIDDLE]);
    var one, raised, high := Task(1, 1, 1, Idle), Task(5, 1, 1, Idle), Task(10, 10, 0, Asleep);
    var asleep, idle, waits := Task(5, 5, 0, Asleep), Task(5, 5, 0, Idle), Task(5, 5, 0, Waiting(SECOND, true));
    var s1 := Four(one, one, idle, high, first, second);
    FourTasks(one, one, asleep, high, first, second, idle);
    Wakes(BothTaken(), MIDDLE);
    FourScheduled(one, one, idle, high, first, second, 5);
    FourTasks(one, one, idle, high, first, second, raised);
    FourTasks(one, raised, idle, high, first, second, waits);
    FourMutexes(one, one, idle, high, first, second, second);
    FourMutexes(one, raised, waits, high, first, second, queue);
    QueueUp(s1, MIDDLE, SECOND, PEER, raised, Waiting(SECOND, true), [MIDDLE]);
    LeadsOn(BothTaken(), [Wake(MIDDLE)], s1, TakeAndWait(MIDDLE, SECOND), MiddleWaits());
  }

  lemma HighQueues()
    ensures Leads(MiddleWaits(), [Wake(HIGH)] + TakeAndWait(HIGH, FIRST), HighWaits())
  {
    hide Leads, Enabled, Apply, Scheduled, Four, SetTask, SetMutex, TakeAndWait;
    var first, queue, second := Mutex(false, Some(LOW), []), Mutex(false, Some(LOW), [HIGH]), Mutex(false, Some(PEER), [MIDDLE]);
    var low, raised, peer := Task(1, 1, 1, Idle), Task(10, 1, 1, Idle), Task(5, 1, 1, Idle);
    var middle := Task(5, 5, 0, Waiting(SECOND, true));
    var asleep, idle, waits := Task(10, 10, 0, Asleep), Task(10, 10, 0, Idle), Task(10, 10, 0, Waiting(FIRST, true));
    var s1 := Four(low, peer, middle, idle, first, second);
    FourTasks(low, peer, middle, asleep, first, second, idle);
    Wakes(MiddleWaits(), HIGH);
    FourScheduled(low, peer, middle, idle, first, second, 10);
    FourTasks(low, peer, middle, idle, first, second, raised);
    FourTasks(raised, peer, middle, idle, first, second, waits);
    FourMutexes(low, peer, middle, idle, first, second, first);
    FourMutexes(raised, peer, middle, waits, first, second, queue);
    QueueUp(s1, HIGH, FIRST, LOW, raised, Waiting(FIRST, true), [HIGH]);
    LeadsOn(MiddleWaits(), [Wake(HIGH)], s1, TakeAndWait(HIGH, FIRST), HighWaits());
  }

  lemma LowQueues()
    ensures Leads(HighWaits(), TakeAndWait(LOW, SECOND), LowWaits(Task(10, 10, 0, Waiting(FIRST, true)), [HIGH]))
  {
    hide Leads, Enabled, Apply, Scheduled, Four, SetTask, SetMutex, TakeAndWait;
    var first, second, queue := Mutex(false, Some(LOW), [HIGH]), Mutex(false, Some(PEER), [MIDDLE]), Mutex(false, Some(PEER), [LOW, MIDDLE]);
    var low, waits := Task(10, 1, 1, Idle), Task(10, 1, 1, Waiting(SECOND, true));
    var peer, raised := Task(5, 1, 1, Idle), Task(10, 1, 1, Idle);
    var middle, high := Task(5, 5, 0, Waiting(SECOND, true)), Task(10, 10, 0, Waiting(FIRST, true));
    FourScheduled(low, peer, middle, high, first, second, 10);
    FourTasks(low, peer, middle, high, first, second, raised);
    FourTasks(low, raised, middle, high, first, second, waits);
    FourMutexes(low, peer, middle, high, first, second, second);
    FourMutexes(waits, raised, middle, high, first, second, queue);
    assert [LOW] + [MIDDLE] == [LOW, MIDDLE];
    QueueUp(HighWaits(), LOW, SECOND, PEER, raised, Waiting(SECOND, true), [LOW, MIDDLE]);
  }

  /** One step of the high task while nobody else can run above it. */
  lemma HighSteps(e: Step, from: Mode, to: Mode)
    requires || (e == TryTake(HIGH) && from == Trying(FIRST, true) && to == Checked(FIRST, true))
             || (e == TimeOut(HIGH) && from == Checked(FIRST, true) && to == Expired(FIRST, true))
             || (e == FinishExpired(HIGH) && from == Expired(FIRST, true) && to == GivingUp(FIRST))
    ensures Leads(HighGivesUp(from), [e], HighGivesUp(to)) && Scheduled(HighGivesUp(to), HIGH)
  {
    var s := HighGivesUp(from);
    assert Apply(s, e).tasks == HighGivesUp(to).tasks;
    OneStep(s, e, HighGivesUp(to));
  }

  lemma HighLeavesList()
    ensures Leads(LowWaits(Task(10, 10, 0, Waiting(FIRST, true)), [HIGH]), [WaitEnds(HIGH)], HighGivesUp(Trying(FIRST, true)))
  {
    var s, s' := LowWaits(Task(10, 10, 0, Waiting(FIRST, true)), [HIGH]), HighGivesUp(Trying(FIRST, true));
    assert [HIGH][1..] == [];
    assert Apply(s, WaitEnds(HIGH)).tasks == s'.tasks;
    OneStep(s, WaitEnds(HIGH), s');
  }

  lemma HighTimesOutRuns()
    ensures Leads(LowWaits(Task(10, 10, 0, Waiting(FIRST, true)), [HIGH]), HighTimesOut(), HighGivesUp(GivingUp(FIRST)))
    ensures Scheduled(HighGivesUp(GivingUp(FIRST)), HIGH)
  {
    var s0 := LowWaits(Task(10, 10, 0, Waiting(FIRST, true)), [HIGH]);
    var s1, s2 := HighGivesUp(Trying(FIRST, true)), HighGivesUp(Checked(FIRST, true));
    var s3, s4 := HighGivesUp(Expired(FIRST, true)), HighGivesUp(GivingUp(FIRST));
    hide Leads, Scheduled, HighGivesUp, LowWaits;
    HighLeavesList();
    HighSteps(TryTake(HIGH), Trying(FIRST, true), Checked(FIRST, true));
    HighSteps(TimeOut(HIGH), Checked(FIRST, true), Expired(FIRST, true));
    HighSteps(FinishExpired(HIGH), Expired(FIRST, true), GivingUp(FIRST));
    LeadsOn(s2, [TimeOut(HIGH)], s3, [FinishExpired(HIGH)], s4);
    LeadsOn(s1, [TryTake(HIGH)], s2, [TimeOut(HIGH)] + [FinishExpired(HIGH)], s4);
    LeadsOn(s0, [WaitEnds(HIGH)], s1, [TryTake(HIGH)] + ([TimeOut(HIGH)] + [FinishExpired(HIGH)]), s4);
  }

  lemma LowerRuns()
    ensures Leads(Start(), LowerSteps(), HighGivesUp(GivingUp(FIRST))) && Scheduled(HighGivesUp(GivingUp(FIRST)), HIGH)
  {
    var queued, end := LowWaits(Task(10, 10, 0, Waiting(FIRST, true)), [HIGH]), HighGivesUp(GivingUp(FIRST));
    hide Leads, Scheduled, Take, TakeAndWait, HighGivesUp, LowWaits, HighWaits, MiddleWaits, BothTaken, Start, HighTimesOut;
    BothAreTaken();
    MiddleQueues();
    HighQueues();
    LowQueues();
    HighTimesOutRuns();
    var a := ([Sleep(HIGH)] + [Sleep(MIDDLE)]) + (Take(PEER, SECOND) + Take(LOW, FIRST));
    var b, c := [Wake(MIDDLE)] + TakeAndWait(MIDDLE, SECOND), [Wake(HIGH)] + TakeAndWait(HIGH, FIRST);
    LeadsOn(HighWaits(), TakeAndWait(LOW, SECOND), queued, HighTimesOut(), end);
    LeadsOn(BothTaken(), b, MiddleWaits(), c, HighWaits());
    LeadsOn(BothTaken(), b + c, HighWaits(), TakeAndWait(LOW, SECOND) + HighTimesOut(), end);
    LeadsOn(Start(), a, BothTaken(), (b + c) + (TakeAndWait(LOW, SECOND) + HighTimesOut()), end);
  }

  // ---- Behind the lowering ----

  /** The second mutex taken by the low task, in front of a task of priority 5. */
  function LowTakesSecond(): State {
    Four(Task(1, 1, 2, Idle), Task(1, 1, 0, Idle), Task(5, 5, 0, Waiting(SECOND, true)), Task(10, 10, 0, Asleep),
         Mutex(false, Some(LOW), []), Mutex(false, Some(LOW), [MIDDLE]))
  }

  lemma LowIsBelowMiddle()
    ensures SECOND in LowTakesSecond().mutexes && !NoInversion(LowTakesSecond(), SECOND)
  {
    assert WaitsFor(LowTakesSecond(), MIDDLE, SECOND) && LowTakesSecond().tasks[MIDDLE].priority == 5;
  }

  /** The low task lowered where it waits. */
  function LowIsLowered(high: Task): State {
    Four(Task(1, 1, 1, Waiting(SECOND, true)), Task(10, 1, 1, Idle), Task(5, 5, 0, Waiting(SECOND, true)), high,
         Mutex(false, Some(LOW), []), Mutex(false, Some(PEER), [LOW, MIDDLE]))
  }

  /** The low task woken to take the second mutex, at priority 10 or lowered. */
  function LowIsWoken(priority: nat, high: Task): State {
    Four(Task(priority, 1, 1, Trying(SECOND, true)), Task(1, 1, 0, Idle), Task(5, 5, 0, Waiting(SECOND, true)), high,
         Mutex(false, Some(LOW), []), Mutex(true, None, [MIDDLE]))
  }

  lemma LoweredWhileWaiting()
    ensures var s := HighGivesUp(GivingUp(FIRST));
            && Enabled(s, UndoInheritance(HIGH)) && Disturbs(s, UndoInheritance(HIGH))
            && Apply(s, UndoInheritance(HIGH)) == LowIsLowered(Task(10, 10, 0, Idle))
  {
    var s := HighGivesUp(GivingUp(FIRST));
    assert Apply(s, UndoInheritance(HIGH)).tasks == LowIsLowered(Task(10, 10, 0, Idle)).tasks;
  }

  lemma LoweredOnceWoken()
    ensures var s := LowIsWoken(10, Task(10, 10, 0, GivingUp(FIRST)));
            && Enabled(s, UndoInheritance(HIGH)) && LosesHeir(s, LOW, s.tasks[LOW].(priority := 1))
            && Disturbs(s, UndoInheritance(HIGH)) && Scheduled(s, HIGH)
            && Apply(s, UndoInheritance(HIGH)) == LowIsWoken(1, Task(10, 10, 0, Idle))
  {
    var s := LowIsWoken(10, Task(10, 10, 0, GivingUp(FIRST)));
    var s' := SetTask(s, LOW, s.tasks[LOW].(priority := 1));
    assert Apply(s, UndoInheritance(HIGH)).tasks == LowIsWoken(1, Task(10, 10, 0, Idle)).tasks;
    assert WaitsFor(s', MIDDLE, SECOND) && s'.tasks[MIDDLE].priority == 5;
  }

  lemma HighSleeps(s: State, s': State)
    requires (s == LowIsLowered(Task(10, 10, 0, Idle)) && s' == LowIsLowered(Task(10, 10, 0, Asleep)))
             || (s == LowIsWoken(1, Task(10, 10, 0, Idle)) && s' == LowIsWoken(1, Task(10, 10, 0, Asleep)))
    ensures Leads(s, [Sleep(HIGH)], s')
  {
    assert SetTask(s, HIGH, s.tasks[HIGH].(mode := Asleep)).tasks == s'.tasks;
    Sleeps(s, HIGH);
  }

  /** The peer gives the second mutex, and its waiter in front is woken, lowered already or not yet. */
  lemma PeerGivesBehind()
    ensures Leads(LowIsLowered(Task(10, 10, 0, Asleep)), [Give(PEER, SECOND)], LowIsWoken(1, Task(10, 10, 0, Asleep)))
  {
    LowIsFirst();
    NobodyElseCanRun();
    hide MissesSwitch, ApplyGive;
    OneStep(LowIsLowered(Task(10, 10, 0, Asleep)), Give(PEER, SECOND), LowIsWoken(1, Task(10, 10, 0, Asleep)));
  }

  lemma LowIsFirst()
    ensures ApplyGive(LowIsLowered(Task(10, 10, 0, Asleep)), PEER, SECOND) == LowIsWoken(1, Task(10, 10, 0, Asleep))
  {
    var s := LowIsLowered(Task(10, 10, 0, Asleep));
    assert [LOW, MIDDLE][1..] == [MIDDLE];
    assert ApplyGive(s, PEER, SECOND).tasks == LowIsWoken(1, Task(10, 10, 0, Asleep)).tasks;
  }

  lemma NobodyElseCanRun()
    ensures !MissesSwitch(LowIsLowered(Task(10, 10, 0, Asleep)), PEER, SECOND)
  {
    var s := LowIsLowered(Task(10, 10, 0, Asleep));
    forall u | u in s.tasks && u != PEER ensures !CanRun(s.tasks[u]) {}
  }

  lemma PeerGivesBefore()
    ensures Leads(HighGivesUp(GivingUp(FIRST)), [Give(PEER, SECOND)], LowIsWoken(10, Task(10, 10, 0, GivingUp(FIRST))))
  {
    var s, s' := HighGivesUp(GivingUp(FIRST)), LowIsWoken(10, Task(10, 10, 0, GivingUp(FIRST)));
    assert [LOW, MIDDLE][1..] == [MIDDLE];
    assert ApplyGive(s, PEER, SECOND).tasks == s'.tasks;
    OneStep(s, Give(PEER, SECOND), s');
  }

  lemma LowTakes()
    ensures Leads(LowIsWoken(1, Task(10, 10, 0, Asleep)), [TryTake(LOW)], LowTakesSecond())
  {
    var s := LowIsWoken(1, Task(10, 10, 0, Asleep));
    assert ApplyTryTake(s, LOW).tasks == LowTakesSecond().tasks;
    OneStep(s, TryTake(LOW), LowTakesSecond());
  }

  // ---- On the machine ----

  /** A run of the machine that is regular but for one undoing, which reranks a task in line, and ends with the low task
      holding the second mutex below the middle one that waits for it. */
  ghost predicate InvertsBehind(before: seq<Step>, after: seq<Step>) {
    var m, undo := Machine(Start(), HIGH, false), AsActions(before) + [SwitchTo(HIGH)] + [Act(UndoInheritance(HIGH))];
    && InitialMachine(m)
    && RunPossible(m, AsActions(before)) && NobodyReranked(m, AsActions(before))
    && RunPossible(m, undo)
    && RunPossible(RunMachine(m, undo), AsActions(after)) && NobodyReranked(RunMachine(m, undo), AsActions(after))
    && RunPossible(m, undo + AsActions(after)) && NoSwitchMissed(m, undo + AsActions(after))
    && var s := RunMachine(m, undo + AsActions(after)).s;
       SECOND in s.mutexes && !NoInversion(s, SECOND)
  }

  lemma RunsAround(before: seq<Step>, s: State, after: seq<Step>)
    requires Leads(Start(), before, s) && Scheduled(s, HIGH) && Enabled(s, UndoInheritance(HIGH))
    requires Leads(Apply(s, UndoInheritance(HIGH)), after, LowTakesSecond())
    ensures InvertsBehind(before, after)
  {
    StartIsInitial();
    LowIsBelowMiddle();
    var m, undo := Machine(Start(), HIGH, false), AsActions(before) + [SwitchTo(HIGH)] + [Act(UndoInheritance(HIGH))];
    hide NoSwitchMissed, NobodyReranked, RunPossible, RunMachine, Leads, Scheduled, InitialMachine, NoInversion, AsActions,
         LowTakesSecond, Apply, Enabled, Disturbs;
    RegularRunOnMachine(m, before, s);
    OneAction(RunMachine(m, AsActions(before)), SwitchTo(HIGH));
    OneAction(Machine(s, HIGH, false), Act(UndoInheritance(HIGH)));
    MachineRunsOn(m, AsActions(before), [SwitchTo(HIGH)]);
    MachineRunsOn(m, AsActions(before) + [SwitchTo(HIGH)], [Act(UndoInheritance(HIGH))]);
    RegularRunOnMachine(RunMachine(m, undo), after, LowTakesSecond());
    MachineRunsOn(m, undo, AsActions(after));
  }

  /** Lowered while it waits, the low task keeps its place, is woken first and takes the mutex. */
  lemma LoweringInverts()
    ensures InvertsBehind(LowerSteps(), [Sleep(HIGH)] + ([Give(PEER, SECOND)] + [TryTake(LOW)]))
  {
    var s1, s2 := LowIsLowered(Task(10, 10, 0, Idle)), LowIsLowered(Task(10, 10, 0, Asleep));
    var s3 := LowIsWoken(1, Task(10, 10, 0, Asleep));
    LowerRuns();
    LoweredWhileWaiting();
    hide InvertsBehind, Leads, Scheduled, Enabled, Disturbs, Apply, LowerSteps, HighGivesUp, LowIsLowered, LowIsWoken, LowTakesSecond;
    HighSleeps(s1, s2);
    PeerGivesBehind();
    LowTakes();
    LeadsOn(s2, [Give(PEER, SECOND)], s3, [TryTake(LOW)], LowTakesSecond());
    LeadsOn(s1, [Sleep(HIGH)], s2, [Give(PEER, SECOND)] + [TryTake(LOW)], LowTakesSecond());
    RunsAround(LowerSteps(), HighGivesUp(GivingUp(FIRST)), [Sleep(HIGH)] + ([Give(PEER, SECOND)] + [TryTake(LOW)]));
  }

  /** Lowered once it has been woken, it takes the mutex all the same. */
  lemma LostHeirInverts()
    ensures InvertsBehind(LowerSteps() + [Give(PEER, SECOND)], [Sleep(HIGH)] + [TryTake(LOW)])
  {
    var s0, s1 := LowIsWoken(10, Task(10, 10, 0, GivingUp(FIRST))), LowIsWoken(1, Task(10, 10, 0, Idle));
    var s2 := LowIsWoken(1, Task(10, 10, 0, Asleep));
    LowerRuns();
    LoweredOnceWoken();
    hide InvertsBehind, Leads, Scheduled, Enabled, Disturbs, LosesHeir, Apply, LowerSteps, HighGivesUp, LowIsLowered, LowIsWoken,
         LowTakesSecond;
    PeerGivesBefore();
    LeadsOn(Start(), LowerSteps(), HighGivesUp(GivingUp(FIRST)), [Give(PEER, SECOND)], s0);
    HighSleeps(s1, s2);
    LowTakes();
    LeadsOn(s1, [Sleep(HIGH)], s2, [TryTake(LOW)], LowTakesSecond());
    RunsAround(LowerSteps() + [Give(PEER, SECOND)], s0, [Sleep(HIGH)] + [TryTake(LOW)]);
  }
}
