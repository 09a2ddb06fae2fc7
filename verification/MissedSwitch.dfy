/** A run in which the give path leaves a task running that is no longer the most urgent, when two mutexes are given back
    one after the other: the exception that NoPriorityInversion makes is needed. */

module MissedSwitch {
  import opened Basics
  import opened PriorityInheritance
  import opened MutexScheduling

  const LOW: TaskId := 0
  const PEER: TaskId := 1
  const MIDDLE: TaskId := 2
  const HIGH: TaskId := 3

  const FIRST: MutexId := 0
  const SECOND: MutexId := 1

  /** A state of four tasks and two mutexes. */
  function Four(low: Task, peer: Task, middle: Task, high: Task, first: Mutex, second: Mutex): State {
    State(map[LOW := low, PEER := peer, MIDDLE := middle, HIGH := high], map[FIRST := first, SECOND := second])
  }

  lemma FourTasks(low: Task, peer: Task, middle: Task, high: Task, first: Mutex, second: Mutex, r: Task)
    ensures var s := Four(low, peer, middle, high, first, second);
            && (forall t :: t in s.tasks <==> t == LOW || t == PEER || t == MIDDLE || t == HIGH)
            && s.tasks[LOW] == low && s.tasks[PEER] == peer && s.tasks[MIDDLE] == middle && s.tasks[HIGH] == high
            && SetTask(s, LOW, r) == Four(r, peer, middle, high, first, second)
            && SetTask(s, PEER, r) == Four(low, r, middle, high, first, second)
            && SetTask(s, MIDDLE, r) == Four(low, peer, r, high, first, second)
            && SetTask(s, HIGH, r) == Four(low, peer, middle, r, first, second)
  {
  }

  lemma FourMutexes(low: Task, peer: Task, middle: Task, high: Task, first: Mutex, second: Mutex, r: Mutex)
    ensures var s := Four(low, peer, middle, high, first, second);
            && (forall m :: m in s.mutexes <==> m == FIRST || m == SECOND)
            && s.mutexes[FIRST] == first && s.mutexes[SECOND] == second
            && SetMutex(s, FIRST, r) == Four(low, peer, middle, high, r, second)
            && SetMutex(s, SECOND, r) == Four(low, peer, middle, high, first, r)
  {
  }

  /** Two tasks of priority 1, one of 5 and one of 10, and two free mutexes. */
  function Start(): State {
    Four(Task(1, 1, 0, Idle), Task(1, 1, 0, Idle), Task(5, 5, 0, Idle), Task(10, 10, 0, Idle),
         Mutex(true, None, []), Mutex(true, None, []))
  }

  /** The urgent tasks asleep. */
  function Quiet(): State {
    Four(Task(1, 1, 0, Idle), Task(1, 1, 0, Idle), Task(5, 5, 0, Asleep), Task(10, 10, 0, Asleep),
         Mutex(true, None, []), Mutex(true, None, []))
  }

  function Take(t: TaskId, m: MutexId): seq<Step> {
    [BeginTake(t, m)] + [TryTake(t)]
  }

  function TakeAndWait(t: TaskId, m: MutexId): seq<Step> {
    Take(t, m) + [EnterWait(t)]
  }

  /** While the urgent tasks sleep, the low one takes both mutexes and its peer queues for the second. */
  function LowTakesBoth(): seq<Step> {
    ([Sleep(HIGH)] + [Sleep(MIDDLE)]) + (Take(LOW, FIRST) + (Take(LOW, SECOND) + TakeAndWait(PEER, SECOND)))
  }

  /** Then the two others queue for the first mutex, and it is given. */
  function OthersWaitForFirst(): seq<Step> {
    ([Wake(MIDDLE)] + TakeAndWait(MIDDLE, FIRST)) + (([Wake(HIGH)] + TakeAndWait(HIGH, FIRST)) + [Give(LOW, FIRST)])
  }

  function BothHeld(): State {
    Four(Task(1, 1, 2, Idle), Task(1, 1, 0, Waiting(SECOND, false)), Task(5, 5, 0, Asleep), Task(10, 10, 0, Asleep),
         Mutex(false, Some(LOW), []), Mutex(false, Some(LOW), [PEER]))
  }

  function FirstGiven(): State {
    Four(Task(10, 1, 1, Idle), Task(1, 1, 0, Waiting(SECOND, false)),
         Task(5, 5, 0, Waiting(FIRST, true)), Task(10, 10, 0, Trying(FIRST, true)),
         Mutex(true, None, [MIDDLE]), Mutex(false, Some(LOW), [PEER]))
  }

  /** A step that is made by a task the scheduler could be running, unless it comes from outside, and that neither
      reranks a task in line nor leaves a switch out. */
  ghost predicate Regular(s: State, e: Step)
    requires Enabled(s, e)
  {
    && (EndsWait(e) || Scheduled(s, e.t)) && !Disturbs(s, e)
    && (e.Give? ==> !MissesSwitch(s, e.t, e.m))
  }

  ghost predicate AllRegular(s: State, es: seq<Step>)
    requires RunEnabled(s, es)
    decreases es
  {
    es != [] ==> Regular(s, es[0]) && AllRegular(Apply(s, es[0]), es[1..])
  }

  /** A run of regular steps leads from s to s'. */
  ghost predicate Leads(s: State, es: seq<Step>, s': State) {
    RunEnabled(s, es) && AllRegular(s, es) && Run(s, es) == s'
  }

  lemma {:induction false} LeadsOn(s: State, a: seq<Step>, s1: State, b: seq<Step>, s2: State)
    requires Leads(s, a, s1) && Leads(s1, b, s2)
    ensures Leads(s, a + b, s2)
    decreases a
  {
    if a == [] {
      assert a + b == b;
    } else {
      LeadsOn(Apply(s, a[0]), a[1..], s1, b, s2);
      assert (a + b)[0] == a[0] && (a + b)[1..] == a[1..] + b;
    }
  }

  lemma OneStep(s: State, e: Step, s': State)
    requires Enabled(s, e) && Apply(s, e) == s' && Regular(s, e)
    ensures Leads(s, [e], s')
  {
    hide Enabled, Apply, Regular;
    assert RunEnabled(s', []) && AllRegular(s', []) && Run(s', []) == s';
    assert [e][1..] == [];
  }

  /** A scheduled task that begins to take stays scheduled. */
  lemma StaysScheduled(s: State, t: TaskId, mode: Mode)
    requires Scheduled(s, t) && !mode.Waiting? && !mode.Asleep?
    ensures Scheduled(SetMode(s, t, mode), t)
  {
  }

  /** Taking a free mutex. */
  lemma Acquire(s: State, t: TaskId, m: MutexId, s': State)
    requires Scheduled(s, t) && s.tasks[t].mode.Idle? && m in s.mutexes && s.mutexes[m].available
    requires s.mutexes[m].holder.None?
    requires s' == SetMutex(SetTask(s, t, s.tasks[t].(mutexesHeld := s.tasks[t].mutexesHeld + 1)),
                            m, s.mutexes[m].(available := false, holder := Some(t)))
    ensures Leads(s, Take(t, m), s')
  {
    var s1 := SetMode(s, t, Trying(m, false));
    StaysScheduled(s, t, Trying(m, false));
    OneStep(s, BeginTake(t, m), s1);
    assert ApplyTryTake(s1, t).tasks == s'.tasks;
    OneStep(s1, TryTake(t), s');
    LeadsOn(s, [BeginTake(t, m)], s1, [TryTake(t)], s');
  }

  /** Finding a mutex taken and waiting for it. */
  lemma QueueUp(s: State, t: TaskId, m: MutexId, h: TaskId, raised: Task, mode: Mode, ws: seq<TaskId>)
    requires Scheduled(s, t) && s.tasks[t].mode.Idle?
    requires m in s.mutexes && !s.mutexes[m].available && s.mutexes[m].holder == Some(h) && h in s.tasks && h != t
    requires s.tasks[h].mode.Idle? && raised == Raised(s.tasks[h], s.tasks[t].priority)
    requires mode == Waiting(m, InheritanceOccurred(s.tasks[h], s.tasks[t].priority))
    requires h !in s.mutexes[m].waiters && ws == InsertByPriority(s.mutexes[m].waiters, s.tasks, t)
    ensures Leads(s, TakeAndWait(t, m),
                  SetMutex(SetTask(SetTask(s, h, raised), t, s.tasks[t].(mode := mode)), m, s.mutexes[m].(waiters := ws)))
  {
    hide InsertByPriority, Raised, InheritanceOccurred, Leads;
    var s' := SetMutex(SetTask(SetTask(s, h, raised), t, s.tasks[t].(mode := mode)), m, s.mutexes[m].(waiters := ws));
    var s1, s2 := SetMode(s, t, Trying(m, false)), SetMode(s, t, Checked(m, false));
    StaysScheduled(s, t, Trying(m, false));
    StaysScheduled(s, t, Checked(m, false));
    OneStep(s, BeginTake(t, m), s1);
    assert ApplyTryTake(s1, t).tasks == s2.tasks;
    OneStep(s1, TryTake(t), s2);
    InsertFrame(s.mutexes[m].waiters, s.tasks, SetTask(s2, h, raised).tasks, t);
    assert ApplyEnterWait(s2, t).tasks == s'.tasks;
    OneStep(s2, EnterWait(t), s');
    LeadsOn(s, [BeginTake(t, m)], s1, [TryTake(t)], s2);
    LeadsOn(s, Take(t, m), s2, [EnterWait(t)], s');
  }

  lemma Sleeps(s: State, t: TaskId)
    requires Scheduled(s, t) && s.tasks[t].mode.Idle?
    ensures Leads(s, [Sleep(t)], SetTask(s, t, s.tasks[t].(mode := Asleep)))
  {
    hide Leads;
    OneStep(s, Sleep(t), SetTask(s, t, s.tasks[t].(mode := Asleep)));
  }

  lemma Wakes(s: State, t: TaskId)
    requires t in s.tasks && s.tasks[t].mode.Asleep?
    ensures Leads(s, [Wake(t)], SetTask(s, t, s.tasks[t].(mode := Idle)))
  {
    hide Leads;
    OneStep(s, Wake(t), SetTask(s, t, s.tasks[t].(mode := Idle)));
  }

  predicate Below(t: Task, p: nat) {
    !CanRun(t) || t.priority <= p
  }

  lemma FourScheduled(low: Task, peer: Task, middle: Task, high: Task, first: Mutex, second: Mutex, p: nat)
    requires Below(low, p) && Below(peer, p) && Below(middle, p) && Below(high, p)
    ensures var s := Four(low, peer, middle, high, first, second);
            forall t :: t in s.tasks && CanRun(s.tasks[t]) && s.tasks[t].priority == p ==> Scheduled(s, t)
  {
  }

  lemma UrgentOnesSleep()
    ensures Leads(Start(), [Sleep(HIGH)] + [Sleep(MIDDLE)], Quiet())
  {
    hide Leads, Enabled, Apply, Scheduled, Four, SetTask;
    var free := Mutex(true, None, []);
    var low, idle, middle, high := Task(1, 1, 0, Idle), Task(5, 5, 0, Idle), Task(5, 5, 0, Asleep), Task(10, 10, 0, Asleep);
    FourScheduled(low, low, idle, Task(10, 10, 0, Idle), free, free, 10);
    FourTasks(low, low, idle, Task(10, 10, 0, Idle), free, free, high);
    Sleeps(Start(), HIGH);
    FourScheduled(low, low, idle, high, free, free, 5);
    FourTasks(low, low, idle, high, free, free, middle);
    Sleeps(Four(low, low, idle, high, free, free), MIDDLE);
    LeadsOn(Start(), [Sleep(HIGH)], Four(low, low, idle, high, free, free), [Sleep(MIDDLE)], Quiet());
  }

  lemma LowTakesBothRuns()
    ensures Leads(Start(), LowTakesBoth(), BothHeld())
  {
    hide Leads, Take, TakeAndWait, Four;
    UrgentOnesSleep();
    LowTakesTwo();
    LeadsOn(Start(), [Sleep(HIGH)] + [Sleep(MIDDLE)], Quiet(),
            Take(LOW, FIRST) + (Take(LOW, SECOND) + TakeAndWait(PEER, SECOND)), BothHeld());
  }

  lemma LowTakesTwo()
    ensures Leads(Quiet(), Take(LOW, FIRST) + (Take(LOW, SECOND) + TakeAndWait(PEER, SECOND)), BothHeld())
  {
    hide Leads, Scheduled, Take, TakeAndWait, Four, SetTask, SetMutex;
    var free, taken := Mutex(true, None, []), Mutex(false, Some(LOW), []);
    var low, middle, high := Task(1, 1, 0, Idle), Task(5, 5, 0, Asleep), Task(10, 10, 0, Asleep);
    var one, two := Task(1, 1, 1, Idle), Task(1, 1, 2, Idle);
    var s2, s3 := Four(low, low, middle, high, free, free), Four(one, low, middle, high, taken, free);
    var s4 := Four(two, low, middle, high, taken, taken);
    FourScheduled(low, low, middle, high, free, free, 1);
    FourTasks(low, low, middle, high, free, free, one);
    FourMutexes(low, low, middle, high, free, free, taken);
    FourMutexes(one, low, middle, high, free, free, taken);
    Acquire(s2, LOW, FIRST, s3);
    FourScheduled(one, low, middle, high, taken, free, 1);
    FourTasks(one, low, middle, high, taken, free, two);
    FourMutexes(one, low, middle, high, taken, free, taken);
    FourMutexes(two, low, middle, high, taken, free, taken);
    Acquire(s3, LOW, SECOND, s4);
    PeerWaits();
    LeadsOn(s3, Take(LOW, SECOND), s4, TakeAndWait(PEER, SECOND), BothHeld());
    LeadsOn(s2, Take(LOW, FIRST), s3, Take(LOW, SECOND) + TakeAndWait(PEER, SECOND), BothHeld());
  }

  lemma PeerWaits()
    ensures var taken := Mutex(false, Some(LOW), []);
            Leads(Four(Task(1, 1, 2, Idle), Task(1, 1, 0, Idle), Task(5, 5, 0, Asleep), Task(10, 10, 0, Asleep), taken, taken),
                  TakeAndWait(PEER, SECOND), BothHeld())
  {
    hide Leads, Scheduled, TakeAndWait, Four, SetTask, SetMutex;
    var taken, middle, high := Mutex(false, Some(LOW), []), Task(5, 5, 0, Asleep), Task(10, 10, 0, Asleep);
    var low, peer, waits := Task(1, 1, 2, Idle), Task(1, 1, 0, Idle), Task(1, 1, 0, Waiting(SECOND, false));
    FourScheduled(low, peer, middle, high, taken, taken, 1);
    FourTasks(low, peer, middle, high, taken, taken, low);
    FourTasks(low, peer, middle, high, taken, taken, waits);
    FourMutexes(low, peer, middle, high, taken, taken, taken);
    FourMutexes(low, waits, middle, high, taken, taken, Mutex(false, Some(LOW), [PEER]));
    QueueUp(Four(low, peer, middle, high, taken, taken), PEER, SECOND, LOW, low, Waiting(SECOND, false), [PEER]);
  }

  lemma OthersWaitForFirstRuns()
    ensures Leads(BothHeld(), OthersWaitForFirst(), FirstGiven())
  {
    hide Leads, Enabled, Apply, Scheduled, Take, TakeAndWait, Four, SetTask, SetMutex;
    var peer, second := Task(1, 1, 0, Waiting(SECOND, false)), Mutex(false, Some(LOW), [PEER]);
    var low, raised, high := Task(1, 1, 2, Idle), Task(5, 1, 2, Idle), Task(10, 10, 0, Asleep);
    var asleep, idle, waits := Task(5, 5, 0, Asleep), Task(5, 5, 0, Idle), Task(5, 5, 0, Waiting(FIRST, true));
    var alone, first := Mutex(false, Some(LOW), []), Mutex(false, Some(LOW), [MIDDLE]);
    var s1, s2 := Four(low, peer, idle, high, alone, second), Four(raised, peer, waits, high, first, second);
    FourTasks(low, peer, asleep, high, alone, second, idle);
    Wakes(BothHeld(), MIDDLE);
    FourScheduled(low, peer, idle, high, alone, second, 5);
    FourTasks(low, peer, idle, high, alone, second, raised);
    FourTasks(raised, peer, idle, high, alone, second, waits);
    FourMutexes(low, peer, idle, high, alone, second, alone);
    FourMutexes(raised, peer, waits, high, alone, second, first);
    QueueUp(s1, MIDDLE, FIRST, LOW, raised, Waiting(FIRST, true), [MIDDLE]);
    LeadsOn(BothHeld(), [Wake(MIDDLE)], s1, TakeAndWait(MIDDLE, FIRST), s2);
    HighWaitsToo();
    LeadsOn(BothHeld(), [Wake(MIDDLE)] + TakeAndWait(MIDDLE, FIRST), s2,
            ([Wake(HIGH)] + TakeAndWait(HIGH, FIRST)) + [Give(LOW, FIRST)], FirstGiven());
  }

  lemma HighWaitsToo()
    ensures Leads(Four(Task(5, 1, 2, Idle), Task(1, 1, 0, Waiting(SECOND, false)), Task(5, 5, 0, Waiting(FIRST, true)),
                       Task(10, 10, 0, Asleep),
                       Mutex(false, Some(LOW), [MIDDLE]), Mutex(false, Some(LOW), [PEER])),
                  ([Wake(HIGH)] + TakeAndWait(HIGH, FIRST)) + [Give(LOW, FIRST)], FirstGiven())
  {
    hide Leads, Scheduled, Take, TakeAndWait, Four, SetTask, SetMutex;
    var peer, second := Task(1, 1, 0, Waiting(SECOND, false)), Mutex(false, Some(LOW), [PEER]);
    var middle, first := Task(5, 5, 0, Waiting(FIRST, true)), Mutex(false, Some(LOW), [MIDDLE]);
    var low, raised := Task(5, 1, 2, Idle), Task(10, 1, 2, Idle);
    var asleep, idle, waits := Task(10, 10, 0, Asleep), Task(10, 10, 0, Idle), Task(10, 10, 0, Waiting(FIRST, true));
    var both := Mutex(false, Some(LOW), [HIGH, MIDDLE]);
    var s2, s3 := Four(low, peer, middle, asleep, first, second), Four(low, peer, middle, idle, first, second);
    var s4 := Four(raised, peer, middle, waits, both, second);
    FourTasks(low, peer, middle, asleep, first, second, idle);
    Wakes(s2, HIGH);
    FourScheduled(low, peer, middle, idle, first, second, 10);
    FourTasks(low, peer, middle, idle, first, second, raised);
    FourTasks(raised, peer, middle, idle, first, second, waits);
    FourMutexes(low, peer, middle, idle, first, second, first);
    FourMutexes(raised, peer, middle, waits, first, second, both);
    QueueUp(s3, HIGH, FIRST, LOW, raised, Waiting(FIRST, true), [HIGH, MIDDLE]);
    FourScheduled(raised, peer, middle, waits, both, second, 10);
    FourTasks(raised, peer, middle, waits, both, second, raised);
    LowGivesFirst(s4);
    LeadsOn(s2, [Wake(HIGH)], s3, TakeAndWait(HIGH, FIRST), s4);
    LeadsOn(s2, [Wake(HIGH)] + TakeAndWait(HIGH, FIRST), s4, [Give(LOW, FIRST)], FirstGiven());
  }

  lemma LowGivesFirst(s: State)
    requires s == Four(Task(10, 1, 2, Idle), Task(1, 1, 0, Waiting(SECOND, false)), Task(5, 5, 0, Waiting(FIRST, true)),
                       Task(10, 10, 0, Waiting(FIRST, true)), Mutex(false, Some(LOW), [HIGH, MIDDLE]),
                       Mutex(false, Some(LOW), [PEER]))
    requires Scheduled(s, LOW)
    ensures Leads(s, [Give(LOW, FIRST)], FirstGiven())
  {
    hide Leads, Scheduled;
    assert s.mutexes[FIRST].waiters[1..] == [MIDDLE];
    assert ApplyGive(s, LOW, FIRST).tasks == FirstGiven().tasks;
    OneStep(s, Give(LOW, FIRST), FirstGiven());
  }

  /** The low task is back at its own priority and has woken its peer; the task of priority 10 is still about to take the
      first mutex. */
  function SecondGiven(): State {
    Four(Task(1, 1, 0, Idle), Task(1, 1, 0, Trying(SECOND, false)),
         Task(5, 5, 0, Waiting(FIRST, true)), Task(10, 10, 0, Trying(FIRST, true)),
         Mutex(true, None, [MIDDLE]), Mutex(true, None, []))
  }

  lemma SecondGive()
    ensures var s := FirstGiven();
            && Scheduled(s, LOW) && Enabled(s, Give(LOW, SECOND))
            && ApplyGive(s, LOW, SECOND) == SecondGiven() && !SwitchRequested(s, LOW, SECOND)
  {
    hide Scheduled;
    FourScheduled(Task(10, 1, 1, Idle), Task(1, 1, 0, Waiting(SECOND, false)), Task(5, 5, 0, Waiting(FIRST, true)),
                  Task(10, 10, 0, Trying(FIRST, true)),
                  Mutex(true, None, [MIDDLE]), Mutex(false, Some(LOW), [PEER]), 10);
    var s := FirstGiven();
    assert s.mutexes[SECOND].waiters[1..] == [];
    assert ApplyGive(s, LOW, SECOND).tasks == SecondGiven().tasks;
  }

  lemma TakenAgain()
    ensures var s := SecondGiven();
            && !Scheduled(s, LOW) && Enabled(s, BeginTake(LOW, FIRST))
            && var s' := ApplyTryTake(SetMode(s, LOW, Trying(FIRST, false)), LOW);
               FIRST in s'.mutexes && s'.mutexes[FIRST].holder == Some(LOW) && !NoInversion(s', FIRST)
  {
    var s := SecondGiven();
    assert CanRun(s.tasks[HIGH]) && s.tasks[HIGH].priority == 10 && s.tasks[LOW].priority == 1;
    var s' := ApplyTryTake(SetMode(s, LOW, Trying(FIRST, false)), LOW);
    assert s'.tasks[LOW].priority == 1 && WaitsFor(s', MIDDLE, FIRST) && s'.tasks[MIDDLE].priority == 5;
  }

  /** After a run in which only scheduled tasks take steps, the low task gives its second mutex, falls to priority 1 and
      wakes its peer, which is not above it. No switch is requested although the task of priority 10 can run; and if the
      low task now takes the first mutex again, it holds it at priority 1 while a task of priority 5 waits for it. */
  lemma SwitchMissed()
    ensures Initial(Start()) && Leads(Start(), LowTakesBoth() + OthersWaitForFirst(), FirstGiven())
    ensures Scheduled(FirstGiven(), LOW) && Enabled(FirstGiven(), Give(LOW, SECOND))
            && !SwitchRequested(FirstGiven(), LOW, SECOND)
    ensures var s := ApplyGive(FirstGiven(), LOW, SECOND);
            && !Scheduled(s, LOW) && Enabled(s, BeginTake(LOW, FIRST))
            && var s' := ApplyTryTake(SetMode(s, LOW, Trying(FIRST, false)), LOW);
               FIRST in s'.mutexes && s'.mutexes[FIRST].holder == Some(LOW) && !NoInversion(s', FIRST)
  {
    hide Leads, Scheduled, Enabled, SwitchRequested, ApplyGive, FirstGiven, BothHeld, LowTakesBoth,
         OthersWaitForFirst, ApplyTryTake, NoInversion;
    LowTakesBothRuns();
    OthersWaitForFirstRuns();
    LeadsOn(Start(), LowTakesBoth(), BothHeld(), OthersWaitForFirst(), FirstGiven());
    SecondGive();
    TakenAgain();
  }

  // ---- The same on the machine ----

  /** Each step behind a switch to the task that makes it. */
  function AsActions(es: seq<Step>): seq<Action> {
    if es == [] then []
    else (if EndsWait(es[0]) then [FromOutside(es[0])] else [SwitchTo(es[0].t)] + [Act(es[0])]) + AsActions(es[1..])
  }

  lemma {:induction false} MachineRunsOn(m: Machine, a: seq<Action>, b: seq<Action>)
    requires RunPossible(m, a) && RunPossible(RunMachine(m, a), b)
    ensures RunPossible(m, a + b) && RunMachine(m, a + b) == RunMachine(RunMachine(m, a), b)
    ensures NobodyReranked(m, a) && NobodyReranked(RunMachine(m, a), b) ==> NobodyReranked(m, a + b)
    ensures NoSwitchMissed(m, a) && NoSwitchMissed(RunMachine(m, a), b) ==> NoSwitchMissed(m, a + b)
    decreases a
  {
    hide Possible, Do, Reranks, Misses;
    if a == [] {
      assert a + b == b;
    } else {
      MachineRunsOn(Do(m, a[0]), a[1..], b);
      assert (a + b)[0] == a[0] && (a + b)[1..] == a[1..] + b;
    }
  }

  lemma OneAction(m: Machine, a: Action)
    requires Possible(m, a)
    ensures RunPossible(m, [a]) && RunMachine(m, [a]) == Do(m, a)
    ensures !Reranks(m, a) ==> NobodyReranked(m, [a])
    ensures !Misses(m, a) ==> NoSwitchMissed(m, [a])
  {
    hide Possible, Do, Reranks, Misses;
    assert [a][1..] == [];
    assert RunPossible(Do(m, a), []) && RunMachine(Do(m, a), []) == Do(m, a);
    assert NobodyReranked(Do(m, a), []) && NoSwitchMissed(Do(m, a), []);
  }

  /** A regular step, made on the machine. */
  lemma StepAsActions(m: Machine, e: Step)
    requires Enabled(m.s, e) && Regular(m.s, e)
    ensures RunPossible(m, AsActions([e])) && RunMachine(m, AsActions([e])).s == Apply(m.s, e)
    ensures NobodyReranked(m, AsActions([e])) && NoSwitchMissed(m, AsActions([e]))
  {
    hide Apply, RunPossible, RunMachine, Disturbs, NobodyReranked, NoSwitchMissed, MissesSwitch;
    assert [e][1..] == [];
    if EndsWait(e) {
      OneAction(m, FromOutside(e));
      assert AsActions([e]) == [FromOutside(e)];
    } else {
      var m1 := Machine(m.s, e.t, false);
      assert Possible(m, SwitchTo(e.t)) && Do(m, SwitchTo(e.t)) == m1;
      OneAction(m, SwitchTo(e.t));
      OneAction(m1, Act(e));
      MachineRunsOn(m, [SwitchTo(e.t)], [Act(e)]);
      assert AsActions([e]) == [SwitchTo(e.t)] + [Act(e)];
    }
  }

  lemma {:induction false} RegularRunOnMachine(m: Machine, es: seq<Step>, s': State)
    requires Leads(m.s, es, s')
    ensures RunPossible(m, AsActions(es)) && RunMachine(m, AsActions(es)).s == s'
    ensures NobodyReranked(m, AsActions(es)) && NoSwitchMissed(m, AsActions(es))
    decreases es
  {
    if es == [] {
      NoActions(m);
    } else {
      FirstActions(es);
      hide Possible, Do, Enabled, Apply, Regular, AsActions, RunPossible, RunMachine, NobodyReranked, NoSwitchMissed;
      StepAsActions(m, es[0]);
      RegularRunOnMachine(RunMachine(m, AsActions([es[0]])), es[1..], s');
      MachineRunsOn(m, AsActions([es[0]]), AsActions(es[1..]));
    }
  }

  lemma NoActions(m: Machine)
    ensures AsActions([]) == [] && RunPossible(m, []) && RunMachine(m, []) == m
    ensures NobodyReranked(m, []) && NoSwitchMissed(m, [])
  {
  }

  lemma FirstActions(es: seq<Step>)
    requires es != []
    ensures AsActions(es) == AsActions([es[0]]) + AsActions(es[1..])
  {
    assert [es[0]][1..] == [];
  }

  function LateTake(): seq<Action> {
    [SwitchTo(LOW)] + ([Act(Give(LOW, SECOND))] + ([Act(BeginTake(LOW, FIRST))] + [Act(TryTake(LOW))]))
  }

  /** From the machine in which the first mutex has been given, the low task gives the second and takes the first. */
  lemma LateTakeRuns(m: Machine)
    requires m.s == FirstGiven()
    ensures RunPossible(m, LateTake()) && NobodyReranked(m, LateTake())
    ensures RunMachine(m, LateTake()).s == ApplyTryTake(SetMode(SecondGiven(), LOW, Trying(FIRST, false)), LOW)
  {
    SecondGive();
    TakenAgain();
    var m1, m2 := Machine(FirstGiven(), LOW, false), Machine(SecondGiven(), LOW, false);
    var m3 := Machine(SetMode(SecondGiven(), LOW, Trying(FIRST, false)), LOW, false);
    hide RunPossible, RunMachine, Scheduled, SwitchRequested, ApplyGive, ApplyTryTake, FirstGiven, NoInversion, NobodyReranked;
    OneAction(m, SwitchTo(LOW));
    assert Possible(m1, Act(Give(LOW, SECOND))) && Do(m1, Act(Give(LOW, SECOND))) == m2;
    OneAction(m1, Act(Give(LOW, SECOND)));
    assert Possible(m2, Act(BeginTake(LOW, FIRST))) && Do(m2, Act(BeginTake(LOW, FIRST))) == m3;
    OneAction(m2, Act(BeginTake(LOW, FIRST)));
    TakePossible(m3);
    OneAction(m3, Act(TryTake(LOW)));
    MachineRunsOn(m2, [Act(BeginTake(LOW, FIRST))], [Act(TryTake(LOW))]);
    MachineRunsOn(m1, [Act(Give(LOW, SECOND))], [Act(BeginTake(LOW, FIRST))] + [Act(TryTake(LOW))]);
    MachineRunsOn(m, [SwitchTo(LOW)], [Act(Give(LOW, SECOND))] + ([Act(BeginTake(LOW, FIRST))] + [Act(TryTake(LOW))]));
  }

  lemma TakePossible(m: Machine)
    requires m == Machine(SetMode(SecondGiven(), LOW, Trying(FIRST, false)), LOW, false)
    ensures Possible(m, Act(TryTake(LOW)))
  {
  }

  /** The exception in NoInversionWithoutLateTake is needed: a run of the machine, from the start, that ends with the low
      task holding the first mutex below a task that waits for it. */
  lemma LateTakeInverts()
    ensures var m, acts := Machine(Start(), HIGH, false), AsActions(LowTakesBoth() + OthersWaitForFirst()) + LateTake();
            && InitialMachine(m) && RunPossible(m, acts) && NobodyReranked(m, acts)
            && FIRST in RunMachine(m, acts).s.mutexes && !NoInversion(RunMachine(m, acts).s, FIRST)
  {
    SwitchMissed();
    StartIsInitial();
    SecondGive();
    TakenAgain();
    var m := Machine(Start(), HIGH, false);
    hide RunPossible, RunMachine, Leads, Scheduled, InitialMachine, ApplyGive, ApplyTryTake, FirstGiven, SecondGiven, NoInversion,
         LowTakesBoth, OthersWaitForFirst, LateTake, AsActions, NobodyReranked;
    var es := LowTakesBoth() + OthersWaitForFirst();
    RegularRunOnMachine(m, es, FirstGiven());
    LateTakeRuns(RunMachine(m, AsActions(es)));
    MachineRunsOn(m, AsActions(es), LateTake());
  }

  lemma StartIsInitial()
    ensures InitialMachine(Machine(Start(), HIGH, false))
  {
  }
}
