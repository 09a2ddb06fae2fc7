/** A run in which a task waits for a mutex while it holds another, and is raised there: the raise is not passed on to the
    task it waits for, which is the second exception that NoPriorityInversion makes. */

module ChainedWaits {
  import opened Basics
  import opened PriorityInheritance
  import opened MutexScheduling
  import opened MissedSwitch

  /** The low task takes the second mutex; the middle one takes the first and waits for the second; the high one finds the
      first one taken. */
  function ChainSteps(): seq<Step> {
    (([Sleep(HIGH)] + [Sleep(MIDDLE)]) + Take(LOW, SECOND))
    + (([Wake(MIDDLE)] + (Take(MIDDLE, FIRST) + TakeAndWait(MIDDLE, SECOND))) + ([Wake(HIGH)] + Take(HIGH, FIRST)))
  }

  function MiddleWaits(high: Task): State {
    Four(Task(5, 1, 1, Idle), Task(1, 1, 0, Idle), Task(5, 5, 1, Waiting(SECOND, true)), high,
         Mutex(false, Some(MIDDLE), []), Mutex(false, Some(LOW), [MIDDLE]))
  }

  function HighAboutToWait(): State {
    MiddleWaits(Task(10, 10, 0, Checked(FIRST, false)))
  }

  function SecondTaken(): State {
    Four(Task(1, 1, 1, Idle), Task(1, 1, 0, Idle), Task(5, 5, 0, Asleep), Task(10, 10, 0, Asleep),
         Mutex(true, None, []), Mutex(false, Some(LOW), []))
  }

  lemma LowTakesSecond()
    ensures Leads(Start(), ([Sleep(HIGH)] + [Sleep(MIDDLE)]) + Take(LOW, SECOND), SecondTaken())
  {
    hide Leads, Enabled, Apply, Scheduled, Four, SetTask, SetMutex, Take;
    var free, taken := Mutex(true, None, []), Mutex(false, Some(LOW), []);
    var low, one, middle, high := Task(1, 1, 0, Idle), Task(1, 1, 1, Idle), Task(5, 5, 0, Asleep), Task(10, 10, 0, Asleep);
    UrgentOnesSleep();
    FourScheduled(low, low, middle, high, free, free, 1);
    FourTasks(low, low, middle, high, free, free, one);
    FourMutexes(one, low, middle, high, free, free, taken);
    FourMutexes(low, low, middle, high, free, free, taken);
    Acquire(Quiet(), LOW, SECOND, SecondTaken());
    LeadsOn(Start(), [Sleep(HIGH)] + [Sleep(MIDDLE)], Quiet(), Take(LOW, SECOND), SecondTaken());
  }

  lemma MiddleTakesAndWaits()
    ensures Leads(SecondTaken(), [Wake(MIDDLE)] + (Take(MIDDLE, FIRST) + TakeAndWait(MIDDLE, SECOND)),
                  MiddleWaits(Task(10, 10, 0, Asleep)))
  {
    hide Leads, Enabled, Apply, Scheduled, Four, SetTask, SetMutex, Take, TakeAndWait;
    var free, second := Mutex(true, None, []), Mutex(false, Some(LOW), []);
    var first, queue := Mutex(false, Some(MIDDLE), []), Mutex(false, Some(LOW), [MIDDLE]);
    var one, raised, peer, high := Task(1, 1, 1, Idle), Task(5, 1, 1, Idle), Task(1, 1, 0, Idle), Task(10, 10, 0, Asleep);
    var asleep, idle, holds := Task(5, 5, 0, Asleep), Task(5, 5, 0, Idle), Task(5, 5, 1, Idle);
    var waits := Task(5, 5, 1, Waiting(SECOND, true));
    var s1, s2 := Four(one, peer, idle, high, free, second), Four(one, peer, holds, high, first, second);
    FourTasks(one, peer, asleep, high, free, second, idle);
    Wakes(SecondTaken(), MIDDLE);
    FourScheduled(one, peer, idle, high, free, second, 5);
    FourTasks(one, peer, idle, high, free, second, holds);
    FourMutexes(one, peer, holds, high, free, second, first);
    FourMutexes(one, peer, idle, high, free, second, first);
    Acquire(s1, MIDDLE, FIRST, s2);
    FourScheduled(one, peer, holds, high, first, second, 5);
    FourTasks(one, peer, holds, high, first, second, raised);
    FourTasks(raised, peer, holds, high, first, second, waits);
    FourMutexes(one, peer, holds, high, first, second, second);
    FourMutexes(raised, peer, waits, high, first, second, queue);
    QueueUp(s2, MIDDLE, SECOND, LOW, raised, Waiting(SECOND, true), [MIDDLE]);
    LeadsOn(s1, Take(MIDDLE, FIRST), s2, TakeAndWait(MIDDLE, SECOND), MiddleWaits(high));
    LeadsOn(SecondTaken(), [Wake(MIDDLE)], s1, Take(MIDDLE, FIRST) + TakeAndWait(MIDDLE, SECOND), MiddleWaits(high));
  }

  /** Finding a mutex taken. */
  lemma FindsTaken(s: State, t: TaskId, m: MutexId)
    requires Scheduled(s, t) && s.tasks[t].mode.Idle? && m in s.mutexes
    requires !s.mutexes[m].available && s.mutexes[m].holder != Some(t)
    ensures Leads(s, Take(t, m), SetTask(s, t, s.tasks[t].(mode := Checked(m, false))))
  {
    hide Leads;
    var s1, s2 := SetMode(s, t, Trying(m, false)), SetMode(s, t, Checked(m, false));
    StaysScheduled(s, t, Trying(m, false));
    OneStep(s, BeginTake(t, m), s1);
    assert ApplyTryTake(s1, t).tasks == s2.tasks;
    OneStep(s1, TryTake(t), s2);
    LeadsOn(s, [BeginTake(t, m)], s1, [TryTake(t)], s2);
  }

  lemma HighFindsFirstTaken()
    ensures Leads(MiddleWaits(Task(10, 10, 0, Asleep)), [Wake(HIGH)] + Take(HIGH, FIRST), HighAboutToWait())
    ensures Scheduled(HighAboutToWait(), HIGH)
  {
    hide Leads, Enabled, Apply, Scheduled, Four, SetTask, SetMutex, Take;
    var low, peer, middle := Task(5, 1, 1, Idle), Task(1, 1, 0, Idle), Task(5, 5, 1, Waiting(SECOND, true));
    var first, second := Mutex(false, Some(MIDDLE), []), Mutex(false, Some(LOW), [MIDDLE]);
    var asleep, idle, checked := Task(10, 10, 0, Asleep), Task(10, 10, 0, Idle), Task(10, 10, 0, Checked(FIRST, false));
    FourTasks(low, peer, middle, asleep, first, second, idle);
    Wakes(MiddleWaits(asleep), HIGH);
    FourScheduled(low, peer, middle, idle, first, second, 10);
    FourTasks(low, peer, middle, idle, first, second, checked);
    FourMutexes(low, peer, middle, idle, first, second, first);
    FindsTaken(MiddleWaits(idle), HIGH, FIRST);
    LeadsOn(MiddleWaits(asleep), [Wake(HIGH)], MiddleWaits(idle), Take(HIGH, FIRST), HighAboutToWait());
    FourScheduled(low, peer, middle, checked, first, second, 10);
    FourTasks(low, peer, middle, checked, first, second, checked);
  }

  lemma ChainRuns()
    ensures Leads(Start(), ChainSteps(), HighAboutToWait()) && Scheduled(HighAboutToWait(), HIGH)
  {
    hide Leads, Scheduled, Take, TakeAndWait, HighAboutToWait, MiddleWaits, SecondTaken, Start;
    LowTakesSecond();
    MiddleTakesAndWaits();
    HighFindsFirstTaken();
    var a := ([Sleep(HIGH)] + [Sleep(MIDDLE)]) + Take(LOW, SECOND);
    var b := [Wake(MIDDLE)] + (Take(MIDDLE, FIRST) + TakeAndWait(MIDDLE, SECOND));
    var c := [Wake(HIGH)] + Take(HIGH, FIRST);
    LeadsOn(SecondTaken(), b, MiddleWaits(Task(10, 10, 0, Asleep)), c, HighAboutToWait());
    LeadsOn(Start(), a, SecondTaken(), b + c, HighAboutToWait());
  }

  /** The high task waits for the first mutex and raises the middle one, which waits for the second. */
  lemma RaisedWhileWaiting()
    ensures var s := HighAboutToWait();
            && Enabled(s, EnterWait(HIGH)) && Disturbs(s, EnterWait(HIGH))
            && SECOND in Apply(s, EnterWait(HIGH)).mutexes && !NoInversion(Apply(s, EnterWait(HIGH)), SECOND)
  {
    var s := HighAboutToWait();
    var s' := Apply(s, EnterWait(HIGH));
    assert WaitsFor(s', MIDDLE, SECOND) && s'.tasks[MIDDLE].priority == 10;
    assert s'.mutexes[SECOND].holder == Some(LOW) && s'.tasks[LOW].priority == 5;
  }

  // ---- On the machine ----

  /** A run of the machine, from the start, in which only the last step reranks a task in line and no give leaves its switch
      out (there is none), and which ends with the low task holding the second mutex below the middle task that waits
      for it. */
  lemma ChainInverts()
    ensures var m, acts := Machine(Start(), HIGH, false), AsActions(ChainSteps()) + [SwitchTo(HIGH)];
            var all := acts + [Act(EnterWait(HIGH))];
            && InitialMachine(m) && RunPossible(m, all) && NoSwitchMissed(m, all)
            && RunPossible(m, acts) && NobodyReranked(m, acts)
            && SECOND in RunMachine(m, all).s.mutexes && !NoInversion(RunMachine(m, all).s, SECOND)
  {
    ChainRuns();
    RaisedWhileWaiting();
    StartIsInitial();
    var m, es, m2 := Machine(Start(), HIGH, false), ChainSteps(), Machine(HighAboutToWait(), HIGH, false);
    hide NoSwitchMissed, NobodyReranked, RunPossible, RunMachine, Leads, Scheduled, InitialMachine, NoInversion, ChainSteps,
         AsActions, HighAboutToWait, Apply, Enabled, Disturbs;
    RegularRunOnMachine(m, es, HighAboutToWait());
    var m1 := RunMachine(m, AsActions(es));
    OneAction(m1, SwitchTo(HIGH));
    OneAction(m2, Act(EnterWait(HIGH)));
    MachineRunsOn(m, AsActions(es), [SwitchTo(HIGH)]);
    MachineRunsOn(m, AsActions(es) + [SwitchTo(HIGH)], [Act(EnterWait(HIGH))]);
  }
}
