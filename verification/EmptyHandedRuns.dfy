/** Tasks that never wait while they hold a mutex: nobody in line for a mutex is ever reranked, so priority inheritance needs
    nothing of its runs but that no give leaves its switch out. */

module EmptyHandedRuns {
  import opened Basics
  import opened PriorityInheritance
  import opened MutexBookkeeping
  import opened InheritanceRuns
  import opened MutexScheduling

  /** Every task that goes on an event list does so holding nothing. Takes may be nested, as long as the inner ones succeed
      at once or return empty. */
  ghost predicate WaitsEmptyHanded(m: Machine, acts: seq<Action>)
    requires RunPossible(m, acts)
    decreases acts
  {
    acts != [] ==>
      && (acts[0].Act? && acts[0].e.EnterWait? ==> MayWait(m.s, acts[0].e.t))
      && WaitsEmptyHanded(Do(m, acts[0]), acts[1..])
  }

  predicate MayWait(s: State, t: TaskId) {
    t in s.tasks && s.tasks[t].mutexesHeld == 0
  }

  // ---- Invariant ----

  /** A free mutex that is waited for has an heir that holds nothing, so that no raise and no undo reaches it. */
  ghost predicate HasFreeHeir(s: State, m: MutexId)
    requires m in s.mutexes
  {
    s.mutexes[m].available && s.mutexes[m].waiters != [] ==> exists w :: Heir(s, m, w) && s.tasks[w].mutexesHeld == 0
  }

  ghost predicate EmptyHanded(s: State) {
    && (forall t :: t in s.tasks && s.tasks[t].mode.Waiting? ==> s.tasks[t].mutexesHeld == 0)
    && (forall m :: m in s.mutexes ==> HasFreeHeir(s, m))
  }

  lemma NobodyInLineHolds(s: State, e: Step)
    requires Inv(s) && EmptyHanded(s) && Enabled(s, e)
    ensures !Disturbs(s, e)
  {
    if e.EnterWait? || e.UndoInheritance? {
      var m := s.tasks[e.t].mode.m;
      assert MutexOk(s, m);
      if s.mutexes[m].holder.Some? {
        var h := s.mutexes[m].holder.value;
        assert TaskOk(s, h);
        HolderHoldsOne(s, m);
        if e.UndoInheritance? {
          KeepsFreeHeir(s, h, LoweredAfterTimeout(s.tasks[h], HighestWaiting(s.tasks, s.mutexes[m].waiters)));
        }
      }
    }
  }

  lemma KeepsFreeHeir(s: State, h: TaskId, r: Task)
    requires Inv(s) && EmptyHanded(s) && h in s.tasks && s.tasks[h].mutexesHeld > 0 && r.mode == s.tasks[h].mode
    ensures !LosesHeir(s, h, r)
  {
    var mode, s' := s.tasks[h].mode, SetTask(s, h, r);
    if mode.Trying? && mode.m in s.mutexes && s.mutexes[mode.m].available && s.mutexes[mode.m].waiters != [] {
      assert HasFreeHeir(s, mode.m);
      var w :| Heir(s, mode.m, w) && s.tasks[w].mutexesHeld == 0;
      forall u | WaitsFor(s', u, mode.m) ensures WaitsFor(s, u, mode.m) && s'.tasks[u] == s.tasks[u] {}
      HeirSurvives(s, s', mode.m, w);
    }
  }

  // ---- Steps ----

  /** Not inside a take. */
  predicate Outside(mode: Mode) {
    mode.Idle? || mode.Asleep?
  }

  /** What a step makes of the record of a task. */
  ghost predicate Effect(e: Step, u: TaskId, k: Task, k': Task) {
    && (k'.mutexesHeld > k.mutexesHeld ==> u == e.t && k'.mode.Idle?)
    && (k'.mode.Waiting? && k'.mode != k.mode ==>
          e == EnterWait(u) && k'.mutexesHeld == k.mutexesHeld && k.mode.Checked? && k.mode.m == k'.mode.m)
    && (u != e.t ==>
          && k'.mutexesHeld == k.mutexesHeld && (k'.priority != k.priority ==> k.mutexesHeld > 0)
          && (k.mode.Waiting? || k'.mode == k.mode))
    && (Outside(k.mode) && !(u == e.t && e.BeginTake?) ==> Outside(k'.mode))
  }

  lemma GiveEffect(s: State, t: TaskId, m: MutexId, u: TaskId)
    requires Booked(s) && Enabled(s, Give(t, m)) && u in s.tasks
    ensures u in ApplyGive(s, t, m).tasks && Effect(Give(t, m), u, s.tasks[u], ApplyGive(s, t, m).tasks[u])
  {
    assert MutexOk(s, m);
    if s.mutexes[m].waiters != [] { assert WaitsFor(s, s.mutexes[m].waiters[0], m); }
  }

  lemma EnterWaitEffect(s: State, t: TaskId, u: TaskId)
    requires Booked(s) && Enabled(s, EnterWait(t)) && u in s.tasks
    ensures u in ApplyEnterWait(s, t).tasks && Effect(EnterWait(t), u, s.tasks[u], ApplyEnterWait(s, t).tasks[u])
  {
    var m := s.tasks[t].mode.m;
    assert MutexOk(s, m) && TaskOk(s, u);
    if s.mutexes[m].holder == Some(u) { HolderHoldsOne(s, m); }
  }

  lemma UndoEffect(s: State, t: TaskId, u: TaskId)
    requires Booked(s) && Enabled(s, UndoInheritance(t)) && u in s.tasks
    ensures u in ApplyUndo(s, t).tasks && Effect(UndoInheritance(t), u, s.tasks[u], ApplyUndo(s, t).tasks[u])
  {
    var m := s.tasks[t].mode.m;
    assert MutexOk(s, m) && TaskOk(s, u);
    if s.mutexes[m].holder == Some(u) { HolderHoldsOne(s, m); }
  }

  lemma StepEffect(s: State, e: Step, u: TaskId)
    requires Booked(s) && Enabled(s, e) && u in s.tasks
    ensures u in Apply(s, e).tasks && Effect(e, u, s.tasks[u], Apply(s, e).tasks[u])
  {
    hide ApplyGive, ApplyEnterWait, ApplyUndo, Booked;
    match e
    case Give(t, m) => GiveEffect(s, t, m, u);
    case EnterWait(t) => EnterWaitEffect(s, t, u);
    case UndoInheritance(t) => UndoEffect(s, t, u);
    case _ =>
  }

  /** Only a give frees a mutex, and nobody joins the list of a free one. */
  lemma StaysFree(s: State, e: Step, m: MutexId)
    requires Booked(s) && Enabled(s, e) && m in s.mutexes && !(e.Give? && e.m == m)
    requires m in Apply(s, e).mutexes && Apply(s, e).mutexes[m].available
    ensures s.mutexes[m].available && (s.mutexes[m].waiters == [] ==> Apply(s, e).mutexes[m].waiters == [])
    ensures e.EnterWait? || e.TryTake? ==> s.tasks[e.t].mode.m != m
  {
  }

  lemma GiveKeepsFreeHeir(s: State, t: TaskId, m: MutexId)
    requires Inv(s) && EmptyHanded(s) && Enabled(s, Give(t, m))
    ensures m in ApplyGive(s, t, m).mutexes && HasFreeHeir(ApplyGive(s, t, m), m)
  {
    FreedKeepsCore(s, t, m);
    var s1 := Freed(s, t, m);
    if s1.mutexes[m].waiters != [] {
      var w := s1.mutexes[m].waiters[0];
      HeadBecomesHeir(s1, m);
      assert s1.tasks[w] == s.tasks[w];
    }
  }

  /** A task on an event list makes no step of its own but leaving it. */
  lemma WaiterOnlyLeaves(s: State, e: Step)
    requires Enabled(s, e) && s.tasks[e.t].mode.Waiting?
    ensures e.WaitEnds? && e.t in Apply(s, e).tasks && !Apply(s, e).tasks[e.t].mode.Waiting?
  {
  }

  /** Who waits for a mutex that a step leaves free waited for it before, at the same priority. */
  lemma WaitedBefore(s: State, e: Step, m: MutexId, u: TaskId)
    requires Booked(s) && EmptyHanded(s) && Enabled(s, e) && WaitsFor(Apply(s, e), u, m)
    requires e.EnterWait? ==> s.tasks[e.t].mode.m != m
    ensures WaitsFor(s, u, m) && Apply(s, e).tasks[u].priority == s.tasks[u].priority
  {
    TasksStay(s, e);
    StepEffect(s, e, u);
    if u == e.t && s.tasks[u].mode.Waiting? { WaiterOnlyLeaves(s, e); }
    hide Apply, Booked, HasFreeHeir;
  }

  lemma StepKeepsFreeHeir(s: State, e: Step, m: MutexId)
    requires Inv(s) && EmptyHanded(s) && Enabled(s, e) && !(e.Give? && e.m == m)
    requires m in s.mutexes && m in Apply(s, e).mutexes
    ensures HasFreeHeir(Apply(s, e), m)
  {
    var s' := Apply(s, e);
    if s'.mutexes[m].available && s'.mutexes[m].waiters != [] {
      StaysFree(s, e, m);
      assert HasFreeHeir(s, m);
      var w :| Heir(s, m, w) && s.tasks[w].mutexesHeld == 0;
      assert w != e.t;
      StepEffect(s, e, w);
      TasksStay(s, e);
      forall u | WaitsFor(s', u, m) ensures WaitsFor(s, u, m) && s'.tasks[u].priority == s.tasks[u].priority {
        WaitedBefore(s, e, m, u);
      }
      hide Apply, Inv, Enabled, HasFreeHeir, Effect;
      HeirSurvives(s, s', m, w);
    }
  }

  lemma MutexesStay(s: State, e: Step)
    requires Booked(s) && Enabled(s, e)
    ensures Apply(s, e).mutexes.Keys == s.mutexes.Keys
  {
    assert e.Give? ==> MutexOk(s, e.m);
  }

  lemma WaiterHoldsNothing(s: State, e: Step, t: TaskId)
    requires Booked(s) && EmptyHanded(s) && Enabled(s, e) && (e.EnterWait? ==> MayWait(s, e.t)) && t in s.tasks
    ensures t in Apply(s, e).tasks
    ensures Apply(s, e).tasks[t].mode.Waiting? ==> Apply(s, e).tasks[t].mutexesHeld == 0
  {
    StepEffect(s, e, t);
    hide Apply, Booked, HasFreeHeir, Enabled;
  }

  lemma StepKeepsEmptyHanded(s: State, e: Step)
    requires Inv(s) && EmptyHanded(s) && Enabled(s, e) && (e.EnterWait? ==> MayWait(s, e.t))
    ensures EmptyHanded(Apply(s, e))
  {
    var s' := Apply(s, e);
    TasksStay(s, e);
    MutexesStay(s, e);
    InvIsBooked(s);
    hide Apply, Inv, Enabled, HasFreeHeir, Effect;
    forall t | t in s'.tasks && s'.tasks[t].mode.Waiting? ensures s'.tasks[t].mutexesHeld == 0 {
      WaiterHoldsNothing(s, e, t);
    }
    forall m | m in s'.mutexes ensures HasFreeHeir(s', m) {
      if e.Give? && e.m == m { GiveKeepsFreeHeir(s, e.t, m); } else { StepKeepsFreeHeir(s, e, m); }
    }
  }

  // ---- Every run ----

  /** Where nobody waits while holding a mutex, nobody in line is ever reranked. */
  lemma {:induction false} EmptyHandedReranksNobody(m: Machine, acts: seq<Action>, stale: bool)
    requires MachineInv(m, stale) && EmptyHanded(m.s) && RunPossible(m, acts)
    requires WaitsEmptyHanded(m, acts) && NoTakeBehindMissedSwitch(m, acts, stale)
    ensures NobodyReranked(m, acts)
    decreases acts
  {
    hide Inv, EmptyHanded, Enabled, Apply, Scheduled, Disturbs, MissesSwitch, Requests;
    if acts != [] {
      var a := acts[0];
      if !a.SwitchTo? {
        EnabledEither(m, a);
        NobodyInLineHolds(m.s, a.e);
        if a.FromOutside? { assert !a.e.EnterWait?; }
        StepKeepsEmptyHanded(m.s, a.e);
      }
      ActionKeepsInv(m, a, stale);
      EmptyHandedReranksNobody(Do(m, a), acts[1..], StaleAfter(m, a, stale));
    }
  }

  /** No inversion among tasks that never wait while they hold a mutex, in every run in which no give leaves its switch
      out, or in which at least no free mutex is taken behind such a give before the next switch. */
  lemma NoInversionEmptyHanded(m: Machine, acts: seq<Action>, mx: MutexId, w: TaskId)
    requires InitialMachine(m) && RunPossible(m, acts)
    requires WaitsEmptyHanded(m, acts) && NoTakeBehindMissedSwitch(m, acts, false)
    requires mx in RunMachine(m, acts).s.mutexes && WaitsFor(RunMachine(m, acts).s, w, mx)
    ensures var s := RunMachine(m, acts).s; var h := s.mutexes[mx].holder;
            h.Some? ==> h.value in s.tasks && s.tasks[w].priority <= s.tasks[h.value].priority
  {
    InitialInv(m.s);
    EmptyHandedReranksNobody(m, acts, false);
    NoInversionWithoutLateTake(m, acts, mx, w);
  }

  // ---- One mutex at a time ----

  /** Every take of the run is begun by a task that holds nothing. */
  ghost predicate OneAtATime(m: Machine, acts: seq<Action>)
    requires RunPossible(m, acts)
    decreases acts
  {
    acts != [] ==>
      && (acts[0].Act? && acts[0].e.BeginTake? ==> MayWait(m.s, acts[0].e.t))
      && OneAtATime(Do(m, acts[0]), acts[1..])
  }

  ghost predicate HoldersAreOutside(s: State) {
    forall t :: t in s.tasks && s.tasks[t].mutexesHeld > 0 ==> Outside(s.tasks[t].mode)
  }

  lemma StepKeepsHoldersOutside(s: State, e: Step)
    requires Booked(s) && Enabled(s, e) && HoldersAreOutside(s) && (e.BeginTake? ==> MayWait(s, e.t))
    ensures HoldersAreOutside(Apply(s, e)) && (e.EnterWait? ==> MayWait(s, e.t))
  {
    var s' := Apply(s, e);
    TasksStay(s, e);
    forall u | u in s'.tasks && s'.tasks[u].mutexesHeld > 0 ensures Outside(s'.tasks[u].mode) {
      StepEffect(s, e, u);
    }
  }

  /** Taking one mutex at a time is one way never to wait with anything in hand. */
  lemma {:induction false} OneAtATimeWaitsEmptyHanded(m: Machine, acts: seq<Action>)
    requires Booked(m.s) && HoldersAreOutside(m.s) && RunPossible(m, acts) && OneAtATime(m, acts)
    ensures WaitsEmptyHanded(m, acts)
    decreases acts
  {
    hide Apply, Booked, HoldersAreOutside;
    if acts != [] {
      if !acts[0].SwitchTo? {
        StepKeepsHoldersOutside(m.s, acts[0].e);
        StepKeepsBooked(m.s, acts[0].e);
      }
      OneAtATimeWaitsEmptyHanded(Do(m, acts[0]), acts[1..]);
    }
  }

  lemma NoInversionOneAtATime(m: Machine, acts: seq<Action>, mx: MutexId, w: TaskId)
    requires InitialMachine(m) && RunPossible(m, acts)
    requires OneAtATime(m, acts) && NoTakeBehindMissedSwitch(m, acts, false)
    requires mx in RunMachine(m, acts).s.mutexes && WaitsFor(RunMachine(m, acts).s, w, mx)
    ensures var s := RunMachine(m, acts).s; var h := s.mutexes[mx].holder;
            h.Some? ==> h.value in s.tasks && s.tasks[w].priority <= s.tasks[h.value].priority
  {
    InitialBooked(m.s);
    OneAtATimeWaitsEmptyHanded(m, acts);
    NoInversionEmptyHanded(m, acts, mx, w);
  }
}
