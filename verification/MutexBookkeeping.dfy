/** What every step of the mutex protocol keeps whoever makes it: held counts, base priorities and event lists. */

module MutexBookkeeping {
  import opened Basics
  import opened PriorityInheritance

  // ---- A change of one task ----

  /** r is an acceptable new record for a task: it holds as many mutexes as before and stays on its event list, if any. */
  ghost predicate CanBecome(s: State, t: TaskId, r: Task)
    requires t in s.tasks
  {
    var k := s.tasks[t];
    && r.basePriority == k.basePriority && r.mutexesHeld == k.mutexesHeld
    && r.basePriority <= r.priority < MAX_PRIORITIES
    && (r.mutexesHeld == 0 ==> r.priority == r.basePriority)
    && (k.mode.Waiting? || r.mode.Waiting? ==> r.mode == k.mode)
    && (!r.mode.Idle? && !r.mode.Asleep? ==> r.mode.m in s.mutexes && s.mutexes[r.mode.m].holder != Some(t))
  }

  lemma ChangeKeepsBooked(s: State, t: TaskId, r: Task)
    requires Booked(s) && t in s.tasks && CanBecome(s, t, r)
    ensures Booked(SetTask(s, t, r))
  {
    var s' := SetTask(s, t, r);
    forall u | u in s'.tasks ensures TaskOk(s', u) {
      assert TaskOk(s, u);
      assert HeldBy(s', u) == HeldBy(s, u);
    }
    forall m | m in s'.mutexes ensures MutexOk(s', m) {
      assert MutexOk(s, m);
      forall w | w in s'.mutexes[m].waiters ensures WaitsFor(s', w, m) { assert WaitsFor(s, w, m); }
    }
  }

  /** Moving on inside xQueueSemaphoreTake, going to sleep and waking up. */
  lemma ModeKeepsBooked(s: State, t: TaskId, mode: Mode)
    requires Booked(s) && t in s.tasks && !s.tasks[t].mode.Waiting? && !mode.Waiting?
    requires !mode.Idle? && !mode.Asleep? ==> mode.m in s.mutexes && s.mutexes[mode.m].holder != Some(t)
    ensures Booked(SetMode(s, t, mode))
  {
    assert TaskOk(s, t);
    ChangeKeepsBooked(s, t, s.tasks[t].(mode := mode));
  }

  // ---- Taking ----

  lemma TakeCounts(s: State, t: TaskId, m: MutexId, u: TaskId)
    requires m in s.mutexes && s.mutexes[m].holder.None?
    ensures var s' := SetMutex(s, m, s.mutexes[m].(available := false, holder := Some(t)));
            |HeldBy(s', u)| == |HeldBy(s, u)| + (if u == t then 1 else 0)
  {
    var s' := SetMutex(s, m, s.mutexes[m].(available := false, holder := Some(t)));
    assert HeldBy(s', u) == if u == t then HeldBy(s, u) + {m} else HeldBy(s, u);
  }

  lemma TakeKeepsTask(s: State, t: TaskId, s': State, u: TaskId)
    requires Booked(s) && t in s.tasks && s.tasks[t].mode.Trying? && s.tasks[t].mode.m in s.mutexes && u in s.tasks
    requires s.mutexes[s.tasks[t].mode.m].available && s' == ApplyTryTake(s, t)
    ensures TaskOk(s', u)
  {
    var m := s.tasks[t].mode.m;
    assert TaskOk(s, u) && TaskOk(s, t) && MutexOk(s, m);
    TakeCounts(s, t, m, u);
    assert HeldBy(s', u) == HeldBy(SetMutex(s, m, s.mutexes[m].(available := false, holder := Some(t))), u);
  }

  lemma TryTakeKeepsBooked(s: State, t: TaskId)
    requires Booked(s) && t in s.tasks && s.tasks[t].mode.Trying? && s.tasks[t].mode.m in s.mutexes
    ensures Booked(ApplyTryTake(s, t))
  {
    var m, s' := s.tasks[t].mode.m, ApplyTryTake(s, t);
    if s.mutexes[m].available {
      forall u | u in s'.tasks ensures TaskOk(s', u) { TakeKeepsTask(s, t, s', u); }
      forall m' | m' in s'.mutexes ensures MutexOk(s', m') {
        assert MutexOk(s, m');
        forall w | w in s'.mutexes[m'].waiters ensures WaitsFor(s', w, m') { assert WaitsFor(s, w, m'); }
      }
    } else {
      assert TaskOk(s, t);
      ModeKeepsBooked(s, t, Checked(m, s.tasks[t].mode.inherited));
    }
  }

  // ---- Waiting ----

  /** The holder of a mutex holds one, and can be raised. */
  lemma RaiseKeepsBooked(s: State, m: MutexId, caller: nat)
    requires Booked(s) && m in s.mutexes && s.mutexes[m].holder.Some? && caller < MAX_PRIORITIES
    ensures var h := s.mutexes[m].holder.value;
            && h in s.tasks && s.tasks[h].mutexesHeld > 0 && CanBecome(s, h, Raised(s.tasks[h], caller))
            && Booked(SetTask(s, h, Raised(s.tasks[h], caller)))
  {
    assert MutexOk(s, m);
    var h := s.mutexes[m].holder.value;
    assert TaskOk(s, h);
    HolderHoldsOne(s, m);
    ChangeKeepsBooked(s, h, Raised(s.tasks[h], caller));
  }

  /** A task at the point of waiting for m: it is on no event list and does not hold m. */
  lemma AboutToWait(s: State, t: TaskId, m: MutexId, m': MutexId)
    requires Booked(s) && t in s.tasks && s.tasks[t].mode.Checked? && s.tasks[t].mode.m == m && m' in s.mutexes
    ensures m in s.mutexes && s.mutexes[m].holder != Some(t) && t !in s.mutexes[m'].waiters
  {
    assert TaskOk(s, t) && MutexOk(s, m');
    assert t in s.mutexes[m'].waiters ==> WaitsFor(s, t, m');
  }

  lemma JoinKeepsTask(s: State, t: TaskId, m: MutexId, inherited: bool, u: TaskId)
    requires Booked(s) && t in s.tasks && s.tasks[t].mode.Checked? && s.tasks[t].mode.m == m && m in s.mutexes
    requires u in s.tasks
    ensures TaskOk(WithWaiter(s, t, m, inherited), u)
  {
    var s' := WithWaiter(s, t, m, inherited);
    assert TaskOk(s, u) && TaskOk(s, t) && MutexOk(s, m);
    assert HeldBy(s', u) == HeldBy(s, u);
    AboutToWait(s, t, m, m);
    InsertMembers(s.mutexes[m].waiters, s.tasks, t);
  }

  lemma JoinKeepsList(s: State, t: TaskId, m: MutexId, inherited: bool, m': MutexId)
    requires Booked(s) && t in s.tasks && s.tasks[t].mode.Checked? && s.tasks[t].mode.m == m && m in s.mutexes
    requires m' in s.mutexes
    ensures MutexOk(WithWaiter(s, t, m, inherited), m')
  {
    var s', ws := WithWaiter(s, t, m, inherited), s.mutexes[m'].waiters;
    assert MutexOk(s, m');
    AboutToWait(s, t, m, m');
    InsertMembers(ws, s.tasks, t);
    forall w | w in s'.mutexes[m'].waiters ensures WaitsFor(s', w, m') {
      if w != t { assert WaitsFor(s, w, m'); }
    }
  }

  lemma JoinKeepsBooked(s: State, t: TaskId, m: MutexId, inherited: bool)
    requires Booked(s) && t in s.tasks && s.tasks[t].mode.Checked? && s.tasks[t].mode.m == m && m in s.mutexes
    ensures Booked(WithWaiter(s, t, m, inherited))
  {
    var s' := WithWaiter(s, t, m, inherited);
    forall u | u in s'.tasks ensures TaskOk(s', u) { JoinKeepsTask(s, t, m, inherited, u); }
    forall m' | m' in s'.mutexes ensures MutexOk(s', m') { JoinKeepsList(s, t, m, inherited, m'); }
  }

  lemma EnterWaitKeepsBooked(s: State, t: TaskId)
    requires Booked(s) && t in s.tasks && s.tasks[t].mode.Checked? && s.tasks[t].mode.m in s.mutexes
    requires !s.mutexes[s.tasks[t].mode.m].available
    ensures Booked(ApplyEnterWait(s, t))
  {
    var m, p := s.tasks[t].mode.m, s.tasks[t].priority;
    assert TaskOk(s, t) && MutexOk(s, m);
    RaiseKeepsBooked(s, m, p);
    var h := s.mutexes[m].holder.value;
    JoinKeepsBooked(SetTask(s, h, Raised(s.tasks[h], p)), t, m, InheritanceOccurred(s.tasks[h], p));
  }

  lemma LeaveKeepsList(s: State, t: TaskId, m: MutexId, inherited: bool, m': MutexId)
    requires Booked(s) && WaitsFor(s, t, m) && m in s.mutexes && m' in s.mutexes
    ensures MutexOk(WithoutWaiter(s, t, m, inherited), m')
  {
    var s' := WithoutWaiter(s, t, m, inherited);
    assert MutexOk(s, m');
    WithoutMembers(s.mutexes[m'].waiters, t);
    forall w | w in s'.mutexes[m'].waiters ensures WaitsFor(s', w, m') { assert WaitsFor(s, w, m'); }
  }

  lemma LeaveKeepsTask(s: State, t: TaskId, m: MutexId, inherited: bool, u: TaskId)
    requires Booked(s) && WaitsFor(s, t, m) && m in s.mutexes && u in s.tasks
    ensures TaskOk(WithoutWaiter(s, t, m, inherited), u)
  {
    var s' := WithoutWaiter(s, t, m, inherited);
    assert TaskOk(s, u) && TaskOk(s, t) && MutexOk(s, m);
    assert HeldBy(s', u) == HeldBy(s, u);
    WithoutMembers(s.mutexes[m].waiters, t);
  }

  lemma LeaveKeepsBooked(s: State, t: TaskId, m: MutexId, inherited: bool)
    requires Booked(s) && WaitsFor(s, t, m) && m in s.mutexes
    ensures Booked(WithoutWaiter(s, t, m, inherited))
  {
    var s' := WithoutWaiter(s, t, m, inherited);
    forall u | u in s'.tasks ensures TaskOk(s', u) { LeaveKeepsTask(s, t, m, inherited, u); }
    forall m' | m' in s'.mutexes ensures MutexOk(s', m') { LeaveKeepsList(s, t, m, inherited, m'); }
  }

  // ---- Giving ----

  lemma FreedCounts(s: State, t: TaskId, m: MutexId, u: TaskId)
    requires t in s.tasks && m in s.mutexes && s.mutexes[m].holder == Some(t) && s.tasks[t].mutexesHeld > 0
    ensures |HeldBy(Freed(s, t, m), u)| == |HeldBy(s, u)| - if u == t then 1 else 0
  {
    assert m in HeldBy(s, t);
    assert HeldBy(Freed(s, t, m), u) == if u == t then HeldBy(s, u) - {m} else HeldBy(s, u);
  }

  lemma FreedKeepsTask(s: State, t: TaskId, m: MutexId, u: TaskId)
    requires Booked(s) && t in s.tasks && m in s.mutexes && s.mutexes[m].holder == Some(t) && s.tasks[t].mode.Idle?
    requires u in s.tasks
    ensures s.tasks[t].mutexesHeld > 0 && TaskOk(Freed(s, t, m), u)
  {
    assert TaskOk(s, u) && TaskOk(s, t);
    HolderHoldsOne(s, m);
    FreedCounts(s, t, m, u);
    hide HeldBy;
  }

  lemma FreedKeepsList(s: State, t: TaskId, m: MutexId, m': MutexId)
    requires Booked(s) && t in s.tasks && m in s.mutexes && s.mutexes[m].holder == Some(t) && s.tasks[t].mode.Idle?
    requires s.tasks[t].mutexesHeld > 0 && m' in s.mutexes
    ensures MutexOk(Freed(s, t, m), m')
  {
    var s' := Freed(s, t, m);
    assert MutexOk(s, m');
    forall w | w in s'.mutexes[m'].waiters ensures WaitsFor(s', w, m') { assert WaitsFor(s, w, m'); }
  }

  lemma FreedKeepsBooked(s: State, t: TaskId, m: MutexId)
    requires Booked(s) && t in s.tasks && m in s.mutexes && s.mutexes[m].holder == Some(t) && s.tasks[t].mode.Idle?
    ensures s.tasks[t].mutexesHeld > 0 && Booked(Freed(s, t, m))
  {
    FreedKeepsTask(s, t, m, t);
    var s' := Freed(s, t, m);
    forall u | u in s'.tasks ensures TaskOk(s', u) { FreedKeepsTask(s, t, m, u); }
    forall m' | m' in s'.mutexes ensures MutexOk(s', m') { FreedKeepsList(s, t, m, m'); }
  }

  /** Waking the first waiter is its leaving the event list. */
  lemma FirstLeaves(s: State, m: MutexId)
    requires Booked(s) && m in s.mutexes && s.mutexes[m].waiters != []
    ensures var w := s.mutexes[m].waiters[0];
            WaitsFor(s, w, m) && WakeFirst(s, m) == WithoutWaiter(s, w, m, s.tasks[w].mode.inherited)
  {
    assert MutexOk(s, m);
    assert WaitsFor(s, s.mutexes[m].waiters[0], m);
  }

  lemma GiveKeepsBooked(s: State, t: TaskId, m: MutexId)
    requires Booked(s) && t in s.tasks && m in s.mutexes && s.mutexes[m].holder == Some(t) && s.tasks[t].mode.Idle?
    ensures s.tasks[t].mutexesHeld > 0 && Booked(ApplyGive(s, t, m))
  {
    FreedKeepsBooked(s, t, m);
    var s1 := Freed(s, t, m);
    if s1.mutexes[m].waiters != [] {
      FirstLeaves(s1, m);
      var w := s1.mutexes[m].waiters[0];
      LeaveKeepsBooked(s1, w, m, s1.tasks[w].mode.inherited);
    }
  }

  // ---- Giving up ----

  lemma LowerKeepsBooked(s: State, m: MutexId)
    requires Booked(s) && m in s.mutexes && s.mutexes[m].holder.Some?
    ensures var h := s.mutexes[m].holder.value;
            h in s.tasks &&
            var r := LoweredAfterTimeout(s.tasks[h], HighestWaiting(s.tasks, s.mutexes[m].waiters));
            s.tasks[h].mutexesHeld > 0 && CanBecome(s, h, r) && Booked(SetTask(s, h, r))
  {
    assert MutexOk(s, m);
    var h, ws := s.mutexes[m].holder.value, s.mutexes[m].waiters;
    assert TaskOk(s, h);
    HolderHoldsOne(s, m);
    if ws != [] {
      assert WaitsFor(s, ws[0], m);
      assert TaskOk(s, ws[0]);
    }
    ChangeKeepsBooked(s, h, LoweredAfterTimeout(s.tasks[h], HighestWaiting(s.tasks, ws)));
  }

  lemma UndoKeepsBooked(s: State, t: TaskId)
    requires Booked(s) && t in s.tasks && s.tasks[t].mode.GivingUp? && s.tasks[t].mode.m in s.mutexes
    ensures Booked(ApplyUndo(s, t))
  {
    var m := s.tasks[t].mode.m;
    assert MutexOk(s, m) && TaskOk(s, t);
    if s.mutexes[m].holder.Some? {
      LowerKeepsBooked(s, m);
      var h := s.mutexes[m].holder.value;
      ModeKeepsBooked(SetTask(s, h, LoweredAfterTimeout(s.tasks[h], HighestWaiting(s.tasks, s.mutexes[m].waiters))), t, Idle);
    } else {
      ModeKeepsBooked(s, t, Idle);
    }
  }

  // ---- Every run ----

  lemma StepKeepsBooked(s: State, e: Step)
    requires Booked(s) && Enabled(s, e)
    ensures Booked(Apply(s, e))
  {
    assert TaskOk(s, e.t);
    var mode := s.tasks[e.t].mode;
    match e
    case TryTake(t) => TryTakeKeepsBooked(s, t);
    case EnterWait(t) => EnterWaitKeepsBooked(s, t);
    case WaitEnds(t) => LeaveKeepsBooked(s, t, mode.m, mode.inherited);
    case Give(t, m) => GiveKeepsBooked(s, t, m);
    case UndoInheritance(t) => UndoKeepsBooked(s, t);
    case BeginTake(t, m) => ModeKeepsBooked(s, t, Trying(m, false));
    case ReturnEmpty(t) => ModeKeepsBooked(s, t, Idle);
    case Retry(t) => ModeKeepsBooked(s, t, Trying(mode.m, mode.inherited));
    case TimeOut(t) => ModeKeepsBooked(s, t, Expired(mode.m, mode.inherited));
    case FinishExpired(t) => ModeKeepsBooked(s, t, Apply(s, e).tasks[t].mode);
    case Sleep(t) => ModeKeepsBooked(s, t, Asleep);
    case Wake(t) => ModeKeepsBooked(s, t, Idle);
  }

  lemma {:induction false} RunKeepsBooked(s: State, es: seq<Step>)
    requires Booked(s) && RunEnabled(s, es)
    ensures Booked(Run(s, es))
    decreases es
  {
    if es != [] {
      StepKeepsBooked(s, es[0]);
      RunKeepsBooked(Apply(s, es[0]), es[1..]);
    }
  }

  lemma InitialBooked(s: State)
    requires Initial(s)
    ensures Booked(s)
  {
    forall t | t in s.tasks ensures TaskOk(s, t) {
      assert HeldBy(s, t) == {};
    }
  }

  /** In every reachable state, however the tasks were scheduled, uxMutexesHeld counts the mutexes that name the task as
      their holder, and a task holding none is at its base priority. */
  lemma HeldCountsAndBasePriority(s: State, es: seq<Step>, t: TaskId)
    requires Initial(s) && RunEnabled(s, es) && t in Run(s, es).tasks
    ensures var s' := Run(s, es);
            s'.tasks[t].mutexesHeld == |HeldBy(s', t)| &&
            (s'.tasks[t].mutexesHeld == 0 ==> s'.tasks[t].priority == s'.tasks[t].basePriority)
  {
    InitialBooked(s);
    RunKeepsBooked(s, es);
    assert TaskOk(Run(s, es), t);
  }
}
