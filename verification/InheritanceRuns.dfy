/** What keeps every holder of a mutex at least as urgent as the tasks waiting for it: each step of the protocol does,
    when a free mutex is taken only by a task that nothing runnable is above, and no step changes the priority of a task
    that is itself in line for a mutex. */

module InheritanceRuns {
  import opened Basics
  import opened PriorityInheritance
  import opened MutexBookkeeping

  // ---- A change of one task ----

  /** With the record r, t is as urgent as whatever waits for the mutexes it holds. */
  ghost predicate UrgentEnough(s: State, t: TaskId, r: Task) {
    forall m, w :: m in HeldBy(s, t) && WaitsFor(s, w, m) ==> s.tasks[w].priority <= r.priority
  }

  /** t may become r: it is not on an event list, and it is not needed to take a free mutex. */
  ghost predicate KeepsItsPlace(s: State, t: TaskId, r: Task)
    requires t in s.tasks
  {
    !s.tasks[t].mode.Waiting? && !LosesHeir(s, t, r)
  }

  /** Heirs survive a step that leaves them, and the waiters they beat, alone. */
  lemma HeirSurvives(s: State, s': State, m: MutexId, w: TaskId)
    requires Heir(s, m, w) && w in s'.tasks && s'.tasks[w].mode == s.tasks[w].mode
    requires s'.tasks[w].priority >= s.tasks[w].priority
    requires forall u :: WaitsFor(s', u, m) ==> WaitsFor(s, u, m) && s'.tasks[u].priority == s.tasks[u].priority
    ensures Heir(s', m, w)
  {
  }

  /** Lists of tasks that are left alone stay in order. */
  lemma ListKeepsOrder(s: State, s': State, m: MutexId, t: TaskId)
    requires Core(s) && m in s.mutexes && t !in s.mutexes[m].waiters
    requires forall u :: u in s.tasks && u != t ==> u in s'.tasks && s'.tasks[u].priority == s.tasks[u].priority
    ensures Descending(s.mutexes[m].waiters, s'.tasks)
  {
    assert MutexOk(s, m);
    forall w | w in s.mutexes[m].waiters ensures PriorityOf(s'.tasks, w) == PriorityOf(s.tasks, w) {
      assert WaitsFor(s, w, m);
    }
    DescendingFrame(s.mutexes[m].waiters, s.tasks, s'.tasks);
  }

  /** A task that becomes no less urgent, or does not go on to take a free mutex, is not missed as an heir. */
  lemma RaisedKeepsHeir(s: State, t: TaskId, r: Task)
    requires Inv(s) && t in s.tasks && !s.tasks[t].mode.Waiting?
    requires r.mode == s.tasks[t].mode && r.priority >= s.tasks[t].priority
    ensures !LosesHeir(s, t, r)
  {
    var mode, s' := s.tasks[t].mode, SetTask(s, t, r);
    if mode.Trying? && mode.m in s.mutexes && s.mutexes[mode.m].available && s.mutexes[mode.m].waiters != [] {
      assert HasHeir(s, mode.m);
      var w :| Heir(s, mode.m, w);
      forall u | WaitsFor(s', u, mode.m) ensures WaitsFor(s, u, mode.m) && s'.tasks[u] == s.tasks[u] {}
      HeirSurvives(s, s', mode.m, w);
    }
  }

  lemma NotListed(s: State, t: TaskId, m: MutexId)
    requires Booked(s) && m in s.mutexes && !WaitsFor(s, t, m)
    ensures t !in s.mutexes[m].waiters
  {
    assert MutexOk(s, m);
  }

  lemma ChangeKeepsMutex(s: State, t: TaskId, r: Task, m: MutexId)
    requires Inv(s) && t in s.tasks && CanBecome(s, t, r) && UrgentEnough(s, t, r) && KeepsItsPlace(s, t, r)
    requires m in s.mutexes
    ensures var s' := SetTask(s, t, r);
            NoInversion(s', m) && Descending(s'.mutexes[m].waiters, s'.tasks) && HasHeir(s', m)
  {
    var s' := SetTask(s, t, r);
    assert NoInversion(s, m) && HasHeir(s, m);
    forall w | WaitsFor(s', w, m) ensures WaitsFor(s, w, m) && s'.tasks[w] == s.tasks[w] {}
    if s.mutexes[m].holder == Some(t) { assert m in HeldBy(s, t); }
    NotListed(s, t, m);
    ListKeepsOrder(s, s', m, t);
    if s.mutexes[m].available && s.mutexes[m].waiters != [] && !(s.tasks[t].mode.Trying? && s.tasks[t].mode.m == m) {
      var w :| Heir(s, m, w);
      HeirSurvives(s, s', m, w);
    }
  }

  lemma ChangeKeepsInv(s: State, t: TaskId, r: Task)
    requires Inv(s) && t in s.tasks && CanBecome(s, t, r) && UrgentEnough(s, t, r) && KeepsItsPlace(s, t, r)
    ensures Inv(SetTask(s, t, r))
  {
    var s' := SetTask(s, t, r);
    ChangeKeepsBooked(s, t, r);
    forall m | m in s'.mutexes
      ensures NoInversion(s', m) && Descending(s'.mutexes[m].waiters, s'.tasks) && HasHeir(s', m)
    {
      ChangeKeepsMutex(s, t, r, m);
    }
  }

  lemma HolderIsUrgentEnough(s: State, t: TaskId, r: Task)
    requires Inv(s) && t in s.tasks && r.priority >= s.tasks[t].priority
    ensures UrgentEnough(s, t, r)
  {
    forall m, w | m in HeldBy(s, t) && WaitsFor(s, w, m) ensures s.tasks[w].priority <= r.priority {
      assert NoInversion(s, m);
    }
  }

  /** Moving on inside xQueueSemaphoreTake, going to sleep and waking up. */
  lemma ModeKeepsInv(s: State, t: TaskId, mode: Mode)
    requires Inv(s) && t in s.tasks && !s.tasks[t].mode.Waiting? && !mode.Waiting?
    requires !mode.Idle? && !mode.Asleep? ==> mode.m in s.mutexes && s.mutexes[mode.m].holder != Some(t)
    requires KeepsItsPlace(s, t, s.tasks[t].(mode := mode))
    ensures Inv(SetMode(s, t, mode))
  {
    assert TaskOk(s, t);
    HolderIsUrgentEnough(s, t, s.tasks[t].(mode := mode));
    ChangeKeepsInv(s, t, s.tasks[t].(mode := mode));
  }

  // ---- Taking ----

  /** A free mutex goes to a scheduled task: nobody waiting for it can be above that task, because the heir would
      have been scheduled first. */
  lemma TakeIsSafe(s: State, t: TaskId)
    requires Inv(s) && Scheduled(s, t) && s.tasks[t].mode.Trying? && s.tasks[t].mode.m in s.mutexes
    requires s.mutexes[s.tasks[t].mode.m].available
    ensures forall w :: WaitsFor(s, w, s.tasks[t].mode.m) ==> s.tasks[w].priority <= s.tasks[t].priority
  {
    var m := s.tasks[t].mode.m;
    assert MutexOk(s, m) && HasHeir(s, m);
    forall w | WaitsFor(s, w, m) ensures s.tasks[w].priority <= s.tasks[t].priority {
      assert TaskOk(s, w);
      var h :| Heir(s, m, h);
      assert CanRun(s.tasks[h]);
    }
  }

  lemma TakeKeepsMutex(s: State, t: TaskId, s': State, m': MutexId)
    requires Inv(s) && Scheduled(s, t) && s.tasks[t].mode.Trying? && s.tasks[t].mode.m in s.mutexes && m' in s.mutexes
    requires s.mutexes[s.tasks[t].mode.m].available && s' == ApplyTryTake(s, t)
    ensures NoInversion(s', m') && Descending(s'.mutexes[m'].waiters, s'.tasks) && HasHeir(s', m')
  {
    var m := s.tasks[t].mode.m;
    assert MutexOk(s, m') && NoInversion(s, m') && HasHeir(s, m');
    TakeIsSafe(s, t);
    forall w | WaitsFor(s', w, m') ensures WaitsFor(s, w, m') && s'.tasks[w] == s.tasks[w] {}
    NotListed(s, t, m');
    ListKeepsOrder(s, s', m', t);
    if m' != m && s.mutexes[m'].available && s.mutexes[m'].waiters != [] {
      var w :| Heir(s, m', w);
      HeirSurvives(s, s', m', w);
    }
  }

  lemma TryTakeKeepsInv(s: State, t: TaskId)
    requires Inv(s) && Scheduled(s, t) && s.tasks[t].mode.Trying? && s.tasks[t].mode.m in s.mutexes
    ensures Inv(ApplyTryTake(s, t))
  {
    var m, s' := s.tasks[t].mode.m, ApplyTryTake(s, t);
    if s.mutexes[m].available {
      TryTakeKeepsBooked(s, t);
      forall m' | m' in s'.mutexes
        ensures NoInversion(s', m') && Descending(s'.mutexes[m'].waiters, s'.tasks) && HasHeir(s', m')
      {
        TakeKeepsMutex(s, t, s', m');
      }
    } else {
      assert TaskOk(s, t);
      ModeKeepsInv(s, t, Checked(m, s.tasks[t].mode.inherited));
    }
  }

  // ---- Waiting ----

  /** The holder of a mutex is raised to a waiter's priority, unless it is itself waiting. */
  lemma RaiseKeepsInv(s: State, m: MutexId, caller: nat)
    requires Inv(s) && m in s.mutexes && s.mutexes[m].holder.Some? && caller < MAX_PRIORITIES
    requires var h := s.mutexes[m].holder.value;
             h in s.tasks && s.tasks[h].mode.Waiting? ==> Raised(s.tasks[h], caller) == s.tasks[h]
    ensures var h := s.mutexes[m].holder.value;
            h in s.tasks && s.tasks[h].mutexesHeld > 0 && Inv(SetTask(s, h, Raised(s.tasks[h], caller)))
  {
    RaiseKeepsBooked(s, m, caller);
    var h := s.mutexes[m].holder.value;
    var r := Raised(s.tasks[h], caller);
    if r == s.tasks[h] {
      assert SetTask(s, h, r) == s;
    } else {
      HolderIsUrgentEnough(s, h, r);
      RaisedKeepsHeir(s, h, r);
      ChangeKeepsInv(s, h, r);
    }
  }

  lemma JoinKeepsMutex(s: State, t: TaskId, m: MutexId, inherited: bool, m': MutexId)
    requires Inv(s) && t in s.tasks && s.tasks[t].mode.Checked? && s.tasks[t].mode.m == m && m in s.mutexes
    requires m' in s.mutexes
    requires s.mutexes[m].holder.Some? && s.mutexes[m].holder.value in s.tasks
    requires s.tasks[t].priority <= s.tasks[s.mutexes[m].holder.value].priority
    ensures var s' := WithWaiter(s, t, m, inherited);
            NoInversion(s', m') && Descending(s'.mutexes[m'].waiters, s'.tasks) && HasHeir(s', m')
  {
    hide TaskOk, InsertByPriority, NoDup;
    var s', ws := WithWaiter(s, t, m, inherited), s.mutexes[m'].waiters;
    assert MutexOk(s, m') && MutexOk(s, m) && NoInversion(s, m') && HasHeir(s, m');
    forall w | WaitsFor(s', w, m') && w != t ensures WaitsFor(s, w, m') && s'.tasks[w] == s.tasks[w] {}
    InsertKeepsDescending(ws, s.tasks, t);
    forall w ensures PriorityOf(s'.tasks, w) == PriorityOf(s.tasks, w) {}
    DescendingFrame(s'.mutexes[m'].waiters, s.tasks, s'.tasks);
    if m' != m && s.mutexes[m'].available && ws != [] {
      var w :| Heir(s, m', w);
      HeirSurvives(s, s', m', w);
    }
  }

  lemma JoinKeepsInv(s: State, t: TaskId, m: MutexId, inherited: bool)
    requires Inv(s) && t in s.tasks && s.tasks[t].mode.Checked? && s.tasks[t].mode.m == m && m in s.mutexes
    requires s.mutexes[m].holder.Some? && s.mutexes[m].holder.value in s.tasks
    requires s.tasks[t].priority <= s.tasks[s.mutexes[m].holder.value].priority
    ensures Inv(WithWaiter(s, t, m, inherited))
  {
    var s' := WithWaiter(s, t, m, inherited);
    JoinKeepsBooked(s, t, m, inherited);
    forall m' | m' in s'.mutexes
      ensures NoInversion(s', m') && Descending(s'.mutexes[m'].waiters, s'.tasks) && HasHeir(s', m')
    {
      JoinKeepsMutex(s, t, m, inherited, m');
    }
  }

  lemma EnterWaitKeepsInv(s: State, t: TaskId)
    requires Inv(s) && Enabled(s, EnterWait(t)) && !Disturbs(s, EnterWait(t))
    ensures Inv(ApplyEnterWait(s, t))
  {
    var m, p := s.tasks[t].mode.m, s.tasks[t].priority;
    assert TaskOk(s, t) && MutexOk(s, m);
    RaiseKeepsInv(s, m, p);
    var h := s.mutexes[m].holder.value;
    JoinKeepsInv(SetTask(s, h, Raised(s.tasks[h], p)), t, m, InheritanceOccurred(s.tasks[h], p));
  }

  lemma LeaveKeepsMutex(s: State, t: TaskId, m: MutexId, inherited: bool, m': MutexId)
    requires Core(s) && WaitsFor(s, t, m) && m in s.mutexes && m' in s.mutexes
    ensures var s' := WithoutWaiter(s, t, m, inherited);
            && NoInversion(s', m') && Descending(s'.mutexes[m'].waiters, s'.tasks)
            && (HasHeir(s, m') ==> HasHeir(s', m'))
  {
    hide MutexOk, Without;
    var s', ws := WithoutWaiter(s, t, m, inherited), s.mutexes[m'].waiters;
    assert NoInversion(s, m');
    forall w | WaitsFor(s', w, m') ensures WaitsFor(s, w, m') && s'.tasks[w] == s.tasks[w] {}
    NoneLeft(ws, t);
    RemoveKeepsDescending(ws, s.tasks, t);
    forall w ensures PriorityOf(s'.tasks, w) == PriorityOf(s.tasks, w) {}
    DescendingFrame(s'.mutexes[m'].waiters, s.tasks, s'.tasks);
    if HasHeir(s, m') && s.mutexes[m'].available && ws != [] {
      var w :| Heir(s, m', w);
      HeirSurvives(s, s', m', w);
    }
  }

  lemma NoneLeft(ws: seq<TaskId>, t: TaskId)
    ensures ws == [] ==> Without(ws, t) == []
  {
  }

  lemma LeaveKeepsCore(s: State, t: TaskId, m: MutexId, inherited: bool)
    requires Core(s) && WaitsFor(s, t, m) && m in s.mutexes
    ensures Core(WithoutWaiter(s, t, m, inherited))
    ensures forall m' :: m' in s.mutexes && HasHeir(s, m') ==> HasHeir(WithoutWaiter(s, t, m, inherited), m')
  {
    var s' := WithoutWaiter(s, t, m, inherited);
    LeaveKeepsBooked(s, t, m, inherited);
    forall m' | m' in s'.mutexes
      ensures NoInversion(s', m') && Descending(s'.mutexes[m'].waiters, s'.tasks) && (HasHeir(s, m') ==> HasHeir(s', m'))
    {
      LeaveKeepsMutex(s, t, m, inherited, m');
    }
  }

  // ---- Giving ----

  lemma FreedKeepsMutex(s: State, t: TaskId, m: MutexId, m': MutexId)
    requires Inv(s) && t in s.tasks && m in s.mutexes && s.mutexes[m].holder == Some(t) && s.tasks[t].mode.Idle?
    requires s.tasks[t].mutexesHeld > 0 && m' in s.mutexes
    ensures var s' := Freed(s, t, m);
            && NoInversion(s', m') && Descending(s'.mutexes[m'].waiters, s'.tasks)
            && (m' != m ==> HasHeir(s', m'))
  {
    hide MutexOk, Descending;
    var s', ws := Freed(s, t, m), s.mutexes[m'].waiters;
    assert NoInversion(s, m') && HasHeir(s, m') && TaskOk(s, t);
    forall w | WaitsFor(s', w, m') ensures WaitsFor(s, w, m') && s'.tasks[w] == s.tasks[w] {}
    if m' != m && s.mutexes[m'].holder == Some(t) {
      TwoMutexesHeld(s, t, m, m');
    }
    NotListed(s, t, m');
    ListKeepsOrder(s, s', m', t);
    if m' != m && s.mutexes[m'].available && ws != [] {
      var w :| Heir(s, m', w);
      HeirSurvives(s, s', m', w);
    }
  }

  lemma FreedKeepsCore(s: State, t: TaskId, m: MutexId)
    requires Inv(s) && t in s.tasks && m in s.mutexes && s.mutexes[m].holder == Some(t) && s.tasks[t].mode.Idle?
    ensures s.tasks[t].mutexesHeld > 0 && Core(Freed(s, t, m))
    ensures forall m' :: m' in s.mutexes && m' != m ==> HasHeir(Freed(s, t, m), m')
  {
    FreedKeepsBooked(s, t, m);
    var s' := Freed(s, t, m);
    forall m' | m' in s'.mutexes
      ensures NoInversion(s', m') && Descending(s'.mutexes[m'].waiters, s'.tasks) && (m' != m ==> HasHeir(s', m'))
    {
      FreedKeepsMutex(s, t, m, m');
    }
  }

  /** The head of the event list, once woken, is the heir. */
  lemma HeadBecomesHeir(s: State, m: MutexId)
    requires Core(s) && m in s.mutexes && s.mutexes[m].waiters != []
    ensures var w := s.mutexes[m].waiters[0];
            WaitsFor(s, w, m) && WakeFirst(s, m) == WithoutWaiter(s, w, m, s.tasks[w].mode.inherited) &&
            Heir(WakeFirst(s, m), m, w)
  {
    FirstLeaves(s, m);
    assert MutexOk(s, m);
    var w := s.mutexes[m].waiters[0];
    var s' := WakeFirst(s, m);
    forall u | WaitsFor(s', u, m) ensures s'.tasks[u].priority <= s'.tasks[w].priority {
      assert TaskOk(s, u);
      HeadIsMostUrgent(s.mutexes[m].waiters, s.tasks, u);
    }
  }

  lemma GiveKeepsInv(s: State, t: TaskId, m: MutexId)
    requires Inv(s) && t in s.tasks && m in s.mutexes && s.mutexes[m].holder == Some(t) && s.tasks[t].mode.Idle?
    ensures s.tasks[t].mutexesHeld > 0 && Inv(ApplyGive(s, t, m))
  {
    FreedKeepsCore(s, t, m);
    var s1 := Freed(s, t, m);
    if s1.mutexes[m].waiters != [] {
      HeadBecomesHeir(s1, m);
      var w := s1.mutexes[m].waiters[0];
      LeaveKeepsCore(s1, w, m, s1.tasks[w].mode.inherited);
    }
  }

  // ---- Giving up ----

  /** After a timeout the holder may drop, but never below a task still waiting for a mutex it holds. */
  lemma LoweredIsUrgentEnough(s: State, m: MutexId)
    requires Inv(s) && m in s.mutexes && s.mutexes[m].holder.Some? && s.mutexes[m].holder.value in s.tasks
    ensures var h := s.mutexes[m].holder.value;
            UrgentEnough(s, h, LoweredAfterTimeout(s.tasks[h], HighestWaiting(s.tasks, s.mutexes[m].waiters)))
  {
    assert MutexOk(s, m) && NoInversion(s, m);
    var h, ws := s.mutexes[m].holder.value, s.mutexes[m].waiters;
    assert TaskOk(s, h);
    var r := LoweredAfterTimeout(s.tasks[h], HighestWaiting(s.tasks, ws));
    forall m', w | m' in HeldBy(s, h) && WaitsFor(s, w, m') ensures s.tasks[w].priority <= r.priority {
      assert NoInversion(s, m') && TaskOk(s, w);
      if m' != m {
        HolderHoldsOne(s, m);
        TwoMutexesHeld(s, h, m, m');
      } else {
        HeadIsMostUrgent(ws, s.tasks, w);
      }
    }
  }

  lemma LowerKeepsInv(s: State, m: MutexId)
    requires Inv(s) && m in s.mutexes && s.mutexes[m].holder.Some?
    requires var h := s.mutexes[m].holder.value;
             h in s.tasks ==>
               var r := LoweredAfterTimeout(s.tasks[h], HighestWaiting(s.tasks, s.mutexes[m].waiters));
               r == s.tasks[h] || KeepsItsPlace(s, h, r)
    ensures var h := s.mutexes[m].holder.value;
            h in s.tasks &&
            Inv(SetTask(s, h, LoweredAfterTimeout(s.tasks[h], HighestWaiting(s.tasks, s.mutexes[m].waiters))))
  {
    LowerKeepsBooked(s, m);
    var h := s.mutexes[m].holder.value;
    var r := LoweredAfterTimeout(s.tasks[h], HighestWaiting(s.tasks, s.mutexes[m].waiters));
    if r == s.tasks[h] {
      assert SetTask(s, h, r) == s;
    } else {
      LoweredIsUrgentEnough(s, m);
      ChangeKeepsInv(s, h, r);
    }
  }

  lemma UndoKeepsInv(s: State, t: TaskId)
    requires Inv(s) && Enabled(s, UndoInheritance(t)) && !Disturbs(s, UndoInheritance(t))
    ensures Inv(ApplyUndo(s, t))
  {
    var m := s.tasks[t].mode.m;
    assert MutexOk(s, m) && TaskOk(s, t);
    if s.mutexes[m].holder.Some? {
      LowerKeepsInv(s, m);
      var h := s.mutexes[m].holder.value;
      ModeKeepsInv(SetTask(s, h, LoweredAfterTimeout(s.tasks[h], HighestWaiting(s.tasks, s.mutexes[m].waiters))), t, Idle);
    } else {
      ModeKeepsInv(s, t, Idle);
    }
  }

  // ---- Every step ----

  lemma StepKeepsInv(s: State, e: Step)
    requires Inv(s) && Enabled(s, e) && !Disturbs(s, e) && (e.TryTake? ==> Scheduled(s, e.t))
    ensures Inv(Apply(s, e))
  {
    assert TaskOk(s, e.t);
    var mode := s.tasks[e.t].mode;
    match e
    case TryTake(t) => TryTakeKeepsInv(s, t);
    case EnterWait(t) => EnterWaitKeepsInv(s, t);
    case WaitEnds(t) => LeaveKeepsCore(s, t, mode.m, mode.inherited);
    case Give(t, m) => GiveKeepsInv(s, t, m);
    case UndoInheritance(t) => UndoKeepsInv(s, t);
    case BeginTake(t, m) => ModeKeepsInv(s, t, Trying(m, false));
    case ReturnEmpty(t) => ModeKeepsInv(s, t, Idle);
    case Retry(t) => ModeKeepsInv(s, t, Trying(mode.m, mode.inherited));
    case TimeOut(t) => ModeKeepsInv(s, t, Expired(mode.m, mode.inherited));
    case FinishExpired(t) => ModeKeepsInv(s, t, Apply(s, e).tasks[t].mode);
    case Sleep(t) => ModeKeepsInv(s, t, Asleep);
    case Wake(t) => ModeKeepsInv(s, t, Idle);
  }

  lemma InitialInv(s: State)
    requires Initial(s)
    ensures Inv(s)
  {
    InitialBooked(s);
  }

  // ---- Chains of waits ----

  /** What happens when the raised holder itself waits: its new priority is not passed on, so the holder of the mutex it
      waits for keeps up with it exactly when it was as urgent as the task that now waits. */
  lemma ChainIsNotFollowed(s: State, t: TaskId, h: TaskId)
    requires Inv(s) && Enabled(s, EnterWait(t)) && Disturbs(s, EnterWait(t))
    requires s.mutexes[s.tasks[t].mode.m].holder == Some(h) && s.mutexes[s.tasks[h].mode.m].holder.Some?
    ensures var m2 := s.tasks[h].mode.m; var h2 := s.mutexes[m2].holder.value;
            && h2 in s.tasks && m2 in Apply(s, EnterWait(t)).mutexes
            && (NoInversion(Apply(s, EnterWait(t)), m2) <==> s.tasks[t].priority <= s.tasks[h2].priority)
  {
    var m, m2, s' := s.tasks[t].mode.m, s.tasks[h].mode.m, Apply(s, EnterWait(t));
    assert TaskOk(s, h) && TaskOk(s, t) && MutexOk(s, m2) && NoInversion(s, m2);
    var h2 := s.mutexes[m2].holder.value;
    assert h != t && h2 != h && m2 != m;
    assert WaitsFor(s', h, m2) && s'.tasks[h].priority == s.tasks[t].priority;
    assert s'.mutexes[m2].holder == Some(h2) && s'.tasks[h2].priority == s.tasks[h2].priority;
    forall w | WaitsFor(s', w, m2) && w != h ensures WaitsFor(s, w, m2) && s'.tasks[w].priority == s.tasks[w].priority {}
  }
}
