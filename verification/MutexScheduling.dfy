/** The mutex protocol on one processor: a running task, a switch that may be pending, and a scheduler that picks a most
    urgent task. Nothing is assumed about which task takes a mutex. */

module MutexScheduling {
  import opened Basics
  import opened PriorityInheritance
  import opened MutexBookkeeping
  import opened InheritanceRuns

  datatype Machine = Machine(s: State, running: TaskId, pending: bool)

  /** The running task makes a step; the tick or an interrupt ends a wait or a sleep; the scheduler picks a task. */
  datatype Action = Act(e: Step) | FromOutside(e: Step) | SwitchTo(t: TaskId)

  predicate EndsWait(e: Step) {
    e.Wake? || e.WaitEnds?
  }

  ghost predicate Possible(m: Machine, a: Action) {
    match a
    case Act(e) => !m.pending && e.t == m.running && !EndsWait(e) && Enabled(m.s, e)
    case FromOutside(e) => EndsWait(e) && Enabled(m.s, e)
    case SwitchTo(t) => Scheduled(m.s, t)
  }

  /** Whether a step of the running task asks for a switch: it blocks, or the give path does. */
  predicate Requests(s: State, e: Step)
    requires e.Give? ==> e.t in s.tasks && e.m in s.mutexes && s.tasks[e.t].mutexesHeld > 0
  {
    match e
    case EnterWait(_) => true
    case Sleep(_) => true
    case Give(t, mx) => SwitchRequested(s, t, mx)
    case _ => false
  }

  /** A task made ready preempts the running one when it is above it. */
  predicate Preempts(m: Machine, t: TaskId) {
    t in m.s.tasks && m.running in m.s.tasks && m.s.tasks[t].priority > m.s.tasks[m.running].priority
  }

  ghost function Do(m: Machine, a: Action): Machine
    requires Possible(m, a)
  {
    match a
    case Act(e) => Machine(Apply(m.s, e), m.running, Requests(m.s, e))
    case FromOutside(e) => Machine(Apply(m.s, e), m.running, m.pending || Preempts(m, e.t))
    case SwitchTo(t) => Machine(m.s, t, false)
  }

  /** A give that leaves its switch out: it wakes a waiter that does not exceed what the giver drops to, while some other
      task that can run does. */
  ghost predicate MissesSwitch(s: State, t: TaskId, m: MutexId)
    requires t in s.tasks && m in s.mutexes && s.tasks[t].mutexesHeld > 0
  {
    var ws, now := s.mutexes[m].waiters, Lowered(s.tasks[t]).priority;
    && ws != [] && ws[0] in s.tasks && s.tasks[ws[0]].priority <= now
    && exists u :: u in s.tasks && u != t && CanRun(s.tasks[u]) && s.tasks[u].priority > now
  }

  /** A running task that gives a mutex runs on as one the scheduler could have picked, or a switch is requested, if and
      only if its give is not one that leaves the switch out. */
  lemma GiveLeavesScheduled(s: State, t: TaskId, m: MutexId)
    requires Inv(s) && Scheduled(s, t) && Enabled(s, Give(t, m))
    ensures Scheduled(ApplyGive(s, t, m), t) || SwitchRequested(s, t, m) <==> !MissesSwitch(s, t, m)
  {
    hide TaskOk, Descending, HasHeir, NoInversion, NoDup;
    var s', ws, now := ApplyGive(s, t, m), s.mutexes[m].waiters, Lowered(s.tasks[t]).priority;
    assert MutexOk(s, m) && (ws != [] ==> WaitsFor(s, ws[0], m));
    hide MutexOk;
    forall u | u in s.tasks && u != t && (ws == [] || u != ws[0]) ensures u in s'.tasks && s'.tasks[u] == s.tasks[u] {}
    assert s'.tasks[t] == Lowered(s.tasks[t]);
    if ws != [] {
      var w := ws[0];
      assert s'.tasks[w].priority == s.tasks[w].priority && !CanRun(s.tasks[w]);
    }
  }

  // ---- Invariant ----

  /** Unless a switch is pending, the running task is one the scheduler could have picked. */
  ghost predicate RunningIsScheduled(m: Machine) {
    m.pending || Scheduled(m.s, m.running)
  }

  /** `stale` says that a give has left its switch out and no switch has happened since. */
  ghost predicate MachineInv(m: Machine, stale: bool) {
    Inv(m.s) && m.running in m.s.tasks && (stale || RunningIsScheduled(m))
  }

  // ---- Steps ----

  lemma TasksStay(s: State, e: Step)
    requires Booked(s) && Enabled(s, e)
    ensures Apply(s, e).tasks.Keys == s.tasks.Keys
  {
    match e
    case Give(t, m) => assert MutexOk(s, m);
    case EnterWait(t) => assert MutexOk(s, s.tasks[t].mode.m);
    case UndoInheritance(t) => assert MutexOk(s, s.tasks[t].mode.m);
    case _ =>
  }

  /** Undoing lowers at most another task, because a task does not take what it holds. */
  lemma UndoKeepsScheduled(s: State, t: TaskId)
    requires Inv(s) && Scheduled(s, t)
    requires s.tasks[t].mode.GivingUp? && s.tasks[t].mode.m in s.mutexes
    ensures Scheduled(ApplyUndo(s, t), t)
  {
    var m, s' := s.tasks[t].mode.m, ApplyUndo(s, t);
    assert MutexOk(s, m) && TaskOk(s, t);
    if s.mutexes[m].holder.Some? { LoweredIsNotAbove(s, m); }
    hide Inv, LoweredAfterTimeout, HighestWaiting;
    assert s'.tasks.Keys == s.tasks.Keys && CanRun(s'.tasks[t]) && s'.tasks[t].priority == s.tasks[t].priority;
    forall u | u in s'.tasks && CanRun(s'.tasks[u]) && u != t ensures s'.tasks[u].priority <= s.tasks[t].priority {
      assert CanRun(s.tasks[u]) && s'.tasks[u].priority <= s.tasks[u].priority;
    }
  }

  lemma LoweredIsNotAbove(s: State, m: MutexId)
    requires Inv(s) && m in s.mutexes && s.mutexes[m].holder.Some?
    ensures var h := s.mutexes[m].holder.value;
            h in s.tasks &&
            var r := LoweredAfterTimeout(s.tasks[h], HighestWaiting(s.tasks, s.mutexes[m].waiters));
            r.mode == s.tasks[h].mode && r.priority <= s.tasks[h].priority
  {
    var h, ws := s.mutexes[m].holder.value, s.mutexes[m].waiters;
    assert MutexOk(s, m) && NoInversion(s, m);
    assert TaskOk(s, h);
    if ws != [] {
      assert WaitsFor(s, ws[0], m);
    }
  }

  /** Moving on inside a take without blocking changes nobody's priority. */
  lemma OwnMoveKeepsScheduled(s: State, e: Step)
    requires Scheduled(s, e.t) && Enabled(s, e)
    requires e.BeginTake? || e.TryTake? || e.ReturnEmpty? || e.Retry? || e.TimeOut? || e.FinishExpired?
    ensures Scheduled(Apply(s, e), e.t)
  {
    var t, s' := e.t, Apply(s, e);
    assert CanRun(s'.tasks[t]) && s'.tasks[t].priority == s.tasks[t].priority;
    forall u | u in s'.tasks && u != t ensures u in s.tasks && s'.tasks[u] == s.tasks[u] {}
  }

  /** The running task's steps leave it scheduled or ask for a switch, with exactly one exception. */
  lemma ActKeepsScheduled(m: Machine, e: Step)
    requires MachineInv(m, false) && Possible(m, Act(e))
    ensures RunningIsScheduled(Do(m, Act(e))) <==> !(e.Give? && MissesSwitch(m.s, e.t, e.m))
  {
    hide Inv, Scheduled, MissesSwitch, SwitchRequested, ApplyGive, ApplyUndo, ApplyTryTake, ApplyEnterWait;
    if e.Give? {
      GiveLeavesScheduled(m.s, m.running, e.m);
    } else if e.UndoInheritance? {
      UndoKeepsScheduled(m.s, m.running);
    } else if !e.EnterWait? && !e.Sleep? {
      OwnMoveKeepsScheduled(m.s, e);
    }
  }

  /** A wait or a sleep that ends leaves the running task scheduled, or the task made ready preempts it. */
  lemma OutsideKeepsScheduled(m: Machine, e: Step)
    requires MachineInv(m, false) && Possible(m, FromOutside(e))
    ensures RunningIsScheduled(Do(m, FromOutside(e)))
  {
    var s' := Apply(m.s, e);
    forall u | u in s'.tasks ensures s'.tasks[u].priority == m.s.tasks[u].priority {}
    forall u | u in s'.tasks && u != e.t ensures s'.tasks[u] == m.s.tasks[u] {}
  }

  ghost predicate Misses(m: Machine, a: Action)
    requires Possible(m, a)
  {
    a.Act? && a.e.Give? && MissesSwitch(m.s, a.e.t, a.e.m)
  }

  /** The running task takes a mutex that is free. */
  ghost predicate TakesFree(m: Machine, a: Action)
    requires Possible(m, a)
  {
    a.Act? && a.e.TryTake? && m.s.mutexes[m.s.tasks[a.e.t].mode.m].available
  }

  /** The running task changes the priority of one that is in line for a mutex. */
  ghost predicate Reranks(m: Machine, a: Action)
    requires Possible(m, a)
  {
    a.Act? && Disturbs(m.s, a.e)
  }

  ghost predicate StaleAfter(m: Machine, a: Action, stale: bool)
    requires Possible(m, a)
  {
    !a.SwitchTo? && (stale || Misses(m, a))
  }

  /** Every step keeps the mutex invariant, but for a take behind a missed switch. */
  lemma ActionKeepsMutexInv(m: Machine, e: Step, stale: bool)
    requires MachineInv(m, stale) && Enabled(m.s, e)
    requires e.TryTake? ==> Possible(m, Act(e)) && !(stale && TakesFree(m, Act(e)))
    requires !Disturbs(m.s, e)
    ensures Inv(Apply(m.s, e))
  {
    hide Inv, Scheduled, ApplyTryTake;
    if e.TryTake? && !m.s.mutexes[m.s.tasks[e.t].mode.m].available {
      FailedTakeKeepsInv(m.s, e.t);
    } else {
      StepKeepsInv(m.s, e);
    }
  }

  lemma FailedTakeKeepsInv(s: State, t: TaskId)
    requires Inv(s) && Enabled(s, TryTake(t)) && !s.mutexes[s.tasks[t].mode.m].available
    ensures Inv(ApplyTryTake(s, t))
  {
    assert TaskOk(s, t);
    ModeKeepsInv(s, t, Checked(s.tasks[t].mode.m, s.tasks[t].mode.inherited));
  }

  lemma ActionKeepsInv(m: Machine, a: Action, stale: bool)
    requires MachineInv(m, stale) && Possible(m, a) && !(stale && TakesFree(m, a)) && !Reranks(m, a)
    ensures MachineInv(Do(m, a), StaleAfter(m, a, stale))
  {
    hide Inv, Apply, Scheduled, MissesSwitch, Enabled;
    if a.SwitchTo? {
      ScheduledIsTask(m.s, a.t);
    } else {
      EnabledEither(m, a);
      InvIsBooked(m.s);
      if a.FromOutside? { OutsideDisturbsNobody(m.s, a.e); }
      ActionKeepsMutexInv(m, a.e, stale);
      TasksStay(m.s, a.e);
      if !stale && a.Act? { ActKeepsScheduled(m, a.e); }
      if !stale && a.FromOutside? { OutsideKeepsScheduled(m, a.e); }
    }
  }

  lemma OutsideDisturbsNobody(s: State, e: Step)
    requires Enabled(s, e) && EndsWait(e)
    ensures !Disturbs(s, e)
  {
  }

  lemma EnabledEither(m: Machine, a: Action)
    requires Possible(m, a) && !a.SwitchTo?
    ensures Enabled(m.s, a.e)
  {
  }

  lemma InvIsBooked(s: State)
    requires Inv(s)
    ensures Booked(s)
  {
  }

  lemma ScheduledIsTask(s: State, t: TaskId)
    requires Scheduled(s, t)
    ensures t in s.tasks
  {
  }

  // ---- Every run ----

  ghost predicate RunPossible(m: Machine, acts: seq<Action>)
    decreases acts
  {
    acts != [] ==> Possible(m, acts[0]) && RunPossible(Do(m, acts[0]), acts[1..])
  }

  ghost function RunMachine(m: Machine, acts: seq<Action>): Machine
    requires RunPossible(m, acts)
    decreases acts
  {
    if acts == [] then m else RunMachine(Do(m, acts[0]), acts[1..])
  }

  /** No free mutex is taken between a give that leaves its switch out and the next switch. */
  ghost predicate NoTakeBehindMissedSwitch(m: Machine, acts: seq<Action>, stale: bool)
    requires RunPossible(m, acts)
    decreases acts
  {
    acts != [] ==>
      && !(stale && TakesFree(m, acts[0]))
      && NoTakeBehindMissedSwitch(Do(m, acts[0]), acts[1..], StaleAfter(m, acts[0], stale))
  }

  /** No give of the run leaves its switch out. */
  ghost predicate NoSwitchMissed(m: Machine, acts: seq<Action>)
    requires RunPossible(m, acts)
    decreases acts
  {
    acts != [] ==> !Misses(m, acts[0]) && NoSwitchMissed(Do(m, acts[0]), acts[1..])
  }

  /** No step of the run changes the priority of a task in line for a mutex. */
  ghost predicate NobodyReranked(m: Machine, acts: seq<Action>)
    requires RunPossible(m, acts)
    decreases acts
  {
    acts != [] ==> !Reranks(m, acts[0]) && NobodyReranked(Do(m, acts[0]), acts[1..])
  }

  lemma {:induction false} NoneMissedNoneTaken(m: Machine, acts: seq<Action>)
    requires RunPossible(m, acts) && NoSwitchMissed(m, acts)
    ensures NoTakeBehindMissedSwitch(m, acts, false)
    decreases acts
  {
    hide Possible, Do, Misses, TakesFree;
    if acts != [] {
      NoneMissedNoneTaken(Do(m, acts[0]), acts[1..]);
    }
  }

  lemma {:induction false} RunKeepsMachineInv(m: Machine, acts: seq<Action>, stale: bool)
    requires MachineInv(m, stale) && RunPossible(m, acts)
    requires NoTakeBehindMissedSwitch(m, acts, stale) && NobodyReranked(m, acts)
    ensures Inv(RunMachine(m, acts).s)
    decreases acts
  {
    hide Possible, Do, TakesFree, StaleAfter, Inv, RunningIsScheduled, Reranks;
    if acts != [] {
      ActionKeepsInv(m, acts[0], stale);
      RunKeepsMachineInv(Do(m, acts[0]), acts[1..], StaleAfter(m, acts[0], stale));
    }
  }

  /** All tasks at their own priority, and a most urgent one running. */
  ghost predicate InitialMachine(m: Machine) {
    Initial(m.s) && Scheduled(m.s, m.running) && !m.pending
  }

  /** Whoever takes and whenever, and however takes are nested: in every run, at all times, a mutex holder is at least as
      urgent as every task waiting for that mutex, unless a give has left its switch out and its task has gone on to take
      a free mutex before the next switch, or the priority of a task in line for a mutex has been changed. */
  lemma NoInversionWithoutLateTake(m: Machine, acts: seq<Action>, mx: MutexId, w: TaskId)
    requires InitialMachine(m) && RunPossible(m, acts)
    requires NoTakeBehindMissedSwitch(m, acts, false) && NobodyReranked(m, acts)
    requires mx in RunMachine(m, acts).s.mutexes && WaitsFor(RunMachine(m, acts).s, w, mx)
    ensures var s := RunMachine(m, acts).s; var h := s.mutexes[mx].holder;
            h.Some? ==> h.value in s.tasks && s.tasks[w].priority <= s.tasks[h.value].priority
  {
    InitialInv(m.s);
    RunKeepsMachineInv(m, acts, false);
    var s := RunMachine(m, acts).s;
    assert MutexOk(s, mx) && NoInversion(s, mx);
  }

  /** No priority inversion, in every run in which no give leaves its switch out and nobody in line is reranked. */
  lemma NoPriorityInversion(m: Machine, acts: seq<Action>, mx: MutexId, w: TaskId)
    requires InitialMachine(m) && RunPossible(m, acts) && NoSwitchMissed(m, acts) && NobodyReranked(m, acts)
    requires mx in RunMachine(m, acts).s.mutexes && WaitsFor(RunMachine(m, acts).s, w, mx)
    ensures var s := RunMachine(m, acts).s; var h := s.mutexes[mx].holder;
            h.Some? ==> h.value in s.tasks && s.tasks[w].priority <= s.tasks[h.value].priority
  {
    NoneMissedNoneTaken(m, acts);
    NoInversionWithoutLateTake(m, acts, mx, w);
  }
}
