/** What bounds an inherited priority from above: each change is to exactly the priority that asks for it, and a task that
    runs above its base priority has the priority of another task that made it inherit and has not undone it. */

module InheritedPriorities {
  import opened Basics
  import opened PriorityInheritance
  import opened MutexBookkeeping
  import opened InheritanceRuns
  import opened MutexScheduling
  import opened EmptyHandedRuns

  // ---- Each change is exact ----

  /** A holder that is raised gets the priority of the task that goes on to wait, and no other. */
  lemma RaisedExactly(s: State, t: TaskId, u: TaskId)
    requires Booked(s) && Enabled(s, EnterWait(t)) && u in s.tasks
    ensures u in ApplyEnterWait(s, t).tasks
    ensures var holds, p := s.mutexes[s.tasks[t].mode.m].holder == Some(u), s.tasks[t].priority;
            ApplyEnterWait(s, t).tasks[u].priority
            == if holds && s.tasks[u].priority < p then p else s.tasks[u].priority
  {
    assert MutexOk(s, s.tasks[t].mode.m) && TaskOk(s, t);
  }

  /** The flag of the waiting task says whether the holder runs on its account, or on one at least as urgent. */
  lemma FlagIsRight(s: State, t: TaskId)
    requires Booked(s) && Enabled(s, EnterWait(t))
    ensures var m, s' := s.tasks[t].mode.m, ApplyEnterWait(s, t);
            var h := s.mutexes[m].holder;
            && h.Some? && h.value in s.tasks && WaitsFor(s', t, m)
            && (s'.tasks[t].mode.inherited <==>
                  s'.tasks[h.value].basePriority < s.tasks[t].priority <= s'.tasks[h.value].priority)
  {
    var m := s.tasks[t].mode.m;
    assert MutexOk(s, m) && TaskOk(s, t) && TaskOk(s, s.mutexes[m].holder.value);
  }

  /** A task is back at its base priority with the last mutex it gives, and as it was before that. */
  lemma GivenExactly(s: State, t: TaskId, m: MutexId, u: TaskId)
    requires Booked(s) && Enabled(s, Give(t, m)) && u in s.tasks
    ensures u in ApplyGive(s, t, m).tasks
    ensures ApplyGive(s, t, m).tasks[u].priority
            == if u == t && s.tasks[u].mutexesHeld == 1 then s.tasks[u].basePriority else s.tasks[u].priority
  {
    assert MutexOk(s, m);
  }

  /** A mutex that is given has no holder, and only the head of its event list is woken, to try again; no other mutex and no
      other task's place changes. */
  lemma GiveWakesHead(s: State, t: TaskId, m: MutexId, u: TaskId)
    requires Booked(s) && Enabled(s, Give(t, m)) && u in s.tasks
    ensures var s', ws := ApplyGive(s, t, m), s.mutexes[m].waiters;
            && s'.mutexes == s.mutexes[m := Mutex(true, None, if ws == [] then [] else ws[1..])]
            && u in s'.tasks
            && if ws != [] && u == ws[0] then s'.tasks[u].mode == Trying(m, s.tasks[u].mode.Waiting? && s.tasks[u].mode.inherited)
               else s'.tasks[u].mode == s.tasks[u].mode
  {
    assert MutexOk(s, m);
    if s.mutexes[m].waiters != [] { assert WaitsFor(s, s.mutexes[m].waiters[0], m); }
  }

  /** Nobody but the holder of that mutex changes priority when a wait has been given up, and nobody joins a list. */
  lemma UndoneTo(s: State, t: TaskId, u: TaskId)
    requires Booked(s) && Enabled(s, UndoInheritance(t)) && u in s.tasks
    ensures u in ApplyUndo(s, t).tasks
    ensures var m, k := s.tasks[t].mode.m, s.tasks[u];
            var highest := HighestWaiting(s.tasks, s.mutexes[m].waiters);
            ApplyUndo(s, t).tasks[u].priority
            == if s.mutexes[m].holder == Some(u) && k.mutexesHeld == 1 then
                 if k.basePriority < highest then highest else k.basePriority
               else k.priority
    ensures ApplyUndo(s, t).tasks[u].basePriority == s.tasks[u].basePriority
    ensures ApplyUndo(s, t).tasks[u].mode == if u == t then Idle else s.tasks[u].mode
  {
    assert MutexOk(s, s.tasks[t].mode.m) && TaskOk(s, t);
  }

  /** When a wait has been given up the holder of that mutex, if it holds no other, runs at the larger of its base priority
      and the highest priority still waiting: at one of them, and not below any. */
  lemma UndoneExactly(s: State, t: TaskId, u: TaskId)
    requires Inv(s) && Enabled(s, UndoInheritance(t)) && u in s.tasks
    ensures u in ApplyUndo(s, t).tasks
    ensures var m, s' := s.tasks[t].mode.m, ApplyUndo(s, t);
            if s.mutexes[m].holder == Some(u) && s.tasks[u].mutexesHeld == 1 then
              && (|| s'.tasks[u].priority == s.tasks[u].basePriority
                  || exists w :: WaitsFor(s', w, m) && s'.tasks[w].priority == s'.tasks[u].priority)
              && s.tasks[u].basePriority <= s'.tasks[u].priority <= s.tasks[u].priority
              && forall w :: WaitsFor(s', w, m) ==> s'.tasks[w].priority <= s'.tasks[u].priority
            else s'.tasks[u].priority == s.tasks[u].priority
  {
    var m, s' := s.tasks[t].mode.m, ApplyUndo(s, t);
    InvIsBooked(s);
    UndoneTo(s, t, u);
    if s.mutexes[m].holder == Some(u) && s.tasks[u].mutexesHeld == 1 {
      var ws := s.mutexes[m].waiters;
      HeadBounds(s, m);
      TasksStay(s, UndoInheritance(t));
      hide Inv, Booked, LoweredAfterTimeout;
      if ws != [] {
        UndoneTo(s, t, ws[0]);
        hide ApplyUndo;
        assert WaitsFor(s, ws[0], m) && WaitsFor(s', ws[0], m);
      }
      hide ApplyUndo;
      forall w | WaitsFor(s', w, m) ensures s'.tasks[w].priority <= s'.tasks[u].priority {
        UndoneTo(s, t, w);
      }
    }
  }

  /** The head of an event list bounds everybody that waits, and a holder is not below it. */
  lemma HeadBounds(s: State, m: MutexId)
    requires Inv(s) && m in s.mutexes
    ensures var ws := s.mutexes[m].waiters; var h := s.mutexes[m].holder;
            && (forall w :: WaitsFor(s, w, m) ==> s.tasks[w].priority <= HighestWaiting(s.tasks, ws))
            && (ws != [] ==> WaitsFor(s, ws[0], m) && HighestWaiting(s.tasks, ws) == s.tasks[ws[0]].priority)
            && (h.Some? ==> h.value in s.tasks && s.tasks[h.value].basePriority <= s.tasks[h.value].priority
                            && HighestWaiting(s.tasks, ws) <= s.tasks[h.value].priority)
  {
    var ws := s.mutexes[m].waiters;
    assert MutexOk(s, m) && NoInversion(s, m);
    if ws != [] { assert WaitsFor(s, ws[0], m); }
    if s.mutexes[m].holder.Some? { assert TaskOk(s, s.mutexes[m].holder.value); }
    forall w | WaitsFor(s, w, m) ensures s.tasks[w].priority <= HighestWaiting(s.tasks, ws) {
      assert TaskOk(s, w);
      HeadIsMostUrgent(ws, s.tasks, w);
    }
  }

  /** A task goes on the event list behind everybody as urgent and in front of everybody less urgent. */
  lemma {:induction false} BehindItsEquals(ws: seq<TaskId>, tasks: map<TaskId, Task>, t: TaskId) returns (p: nat)
    ensures p <= |ws| && InsertByPriority(ws, tasks, t) == ws[..p] + [t] + ws[p..]
    ensures forall k :: 0 <= k < p ==> PriorityOf(tasks, ws[k]) >= PriorityOf(tasks, t)
    ensures p < |ws| ==> PriorityOf(tasks, ws[p]) < PriorityOf(tasks, t)
    decreases ws
  {
    if ws == [] || PriorityOf(tasks, ws[0]) < PriorityOf(tasks, t) {
      p := 0;
      assert ws[..0] + [t] + ws[0..] == [t] + ws;
    } else {
      var q := BehindItsEquals(ws[1..], tasks, t);
      p := q + 1;
      assert [ws[0]] + (ws[1..][..q] + [t] + ws[1..][q..]) == ws[..p] + [t] + ws[p..];
    }
  }

  // ---- Who runs above its base priority ----

  /** Inside a take of m, with the inheritance that it caused still to be undone. */
  predicate Engaged(mode: Mode, m: MutexId) {
    match mode
    case Trying(m', inherited) => m' == m && inherited
    case Checked(m', inherited) => m' == m && inherited
    case Waiting(m', inherited) => m' == m && inherited
    case Expired(m', inherited) => m' == m && inherited
    case GivingUp(m') => m' == m
    case _ => false
  }

  /** The tasks whose time is up and that have seen the mutex free since: they try once more, without a time to wait, and
      what they made a former holder inherit is undone. */
  function LateAfter(s: State, e: Step, late: set<TaskId>): set<TaskId> {
    match e
    case FinishExpired(t) =>
      if t in s.tasks && s.tasks[t].mode.Expired? && s.tasks[t].mode.m in s.mutexes
         && s.mutexes[s.tasks[t].mode.m].available then late + {t} else late
    case BeginTake(t, _) => late - {t}
    case EnterWait(t) => late - {t}
    case _ => late
  }

  predicate Raises(s: State, late: set<TaskId>, w: TaskId, m: MutexId, p: nat) {
    w in s.tasks && Engaged(s.tasks[w].mode, m) && w !in late && s.tasks[w].priority == p
  }

  /** A holder above its base priority has exactly that of a task engaged with the mutex. */
  ghost predicate Justified(s: State, late: set<TaskId>, m: MutexId)
    requires m in s.mutexes
  {
    var h := s.mutexes[m].holder;
    h.Some? && h.value in s.tasks && s.tasks[h.value].priority > s.tasks[h.value].basePriority ==>
      exists w :: Raises(s, late, w, m, s.tasks[h.value].priority)
  }

  /** Whoever waits at more than the holder's base priority is engaged. */
  ghost predicate Flagged(s: State, late: set<TaskId>, m: MutexId)
    requires m in s.mutexes
  {
    var h := s.mutexes[m].holder;
    h.Some? && h.value in s.tasks ==>
      forall w :: WaitsFor(s, w, m) && s.tasks[w].priority > s.tasks[h.value].basePriority ==>
        Engaged(s.tasks[w].mode, m) && w !in late
  }

  ghost predicate AtMostOne(s: State) {
    forall t :: t in s.tasks ==> s.tasks[t].mutexesHeld <= 1
  }

  ghost predicate Excused(s: State, late: set<TaskId>) {
    AtMostOne(s) && HoldersAreOutside(s) && forall m :: m in s.mutexes ==> Justified(s, late, m) && Flagged(s, late, m)
  }

  /** The rules of the run: a take is begun with nothing in hand, and one returns empty for want of time to wait: when it
      has caused no inheritance, or at its last try. */
  predicate Keeps(s: State, e: Step, late: set<TaskId>) {
    && (e.BeginTake? ==> MayWait(s, e.t))
    && (e.ReturnEmpty? ==> e.t in s.tasks && s.tasks[e.t].mode.Checked? && (!s.tasks[e.t].mode.inherited || e.t in late))
  }

  // ---- Steps ----

  /** A mutex is none of the step's business: same holder at the same priority, nobody new waits, and nobody engaged with
      it loses that or its priority. */
  lemma Untouched(s: State, late: set<TaskId>, s': State, late': set<TaskId>, m: MutexId)
    requires m in s.mutexes && m in s'.mutexes && s'.mutexes[m].holder == s.mutexes[m].holder
    requires Justified(s, late, m) && Flagged(s, late, m) && s'.tasks.Keys == s.tasks.Keys
    requires s.mutexes[m].holder.Some? && s.mutexes[m].holder.value in s.tasks ==>
               var k, k' := s.tasks[s.mutexes[m].holder.value], s'.tasks[s.mutexes[m].holder.value];
               k'.priority == k.priority && k'.basePriority == k.basePriority
    requires forall w :: w in s.tasks && Engaged(s.tasks[w].mode, m) && w !in late ==>
               Engaged(s'.tasks[w].mode, m) && w !in late' && s'.tasks[w].priority == s.tasks[w].priority
    requires forall w :: WaitsFor(s', w, m) ==>
               WaitsFor(s, w, m) && s'.tasks[w].mode == s.tasks[w].mode && s'.tasks[w].priority == s.tasks[w].priority
    ensures Justified(s', late', m) && Flagged(s', late', m)
  {
    var h := s.mutexes[m].holder;
    if h.Some? && h.value in s.tasks && s.tasks[h.value].priority > s.tasks[h.value].basePriority {
      var w :| Raises(s, late, w, m, s.tasks[h.value].priority);
      assert Raises(s', late', w, m, s'.tasks[h.value].priority);
    }
  }

  /** A step that moves only its own task, and no mutex but perhaps the list it leaves. */
  predicate OwnMove(s: State, e: Step) {
    && !e.EnterWait? && !e.UndoInheritance? && !e.Give?
    && (e.TryTake? ==> e.t in s.tasks && s.tasks[e.t].mode.Trying? && s.tasks[e.t].mode.m in s.mutexes
                       && !s.mutexes[s.tasks[e.t].mode.m].available)
  }

  lemma MoveEffect(s: State, late: set<TaskId>, e: Step, m: MutexId, u: TaskId)
    requires Enabled(s, e) && Keeps(s, e, late) && OwnMove(s, e) && m in s.mutexes && u in s.tasks
    requires e.FinishExpired? && s.tasks[e.t].mode.m == m ==> !s.mutexes[m].available
    ensures u in Apply(s, e).tasks
    ensures var k, k' := s.tasks[u], Apply(s, e).tasks[u];
            && k'.priority == k.priority && k'.basePriority == k.basePriority
            && (Engaged(k.mode, m) && u !in late ==> Engaged(k'.mode, m) && u !in LateAfter(s, e, late))
            && (k'.mode.Waiting? ==> k'.mode == k.mode)
  {
  }

  lemma MoveKeepsMutexes(s: State, e: Step, m: MutexId)
    requires Enabled(s, e) && OwnMove(s, e) && m in s.mutexes
    ensures Apply(s, e).tasks.Keys == s.tasks.Keys
    ensures m in Apply(s, e).mutexes && Apply(s, e).mutexes[m].holder == s.mutexes[m].holder
  {
  }

  lemma MoveKeepsExcused(s: State, late: set<TaskId>, e: Step, m: MutexId)
    requires Booked(s) && Excused(s, late) && Enabled(s, e) && Keeps(s, e, late) && m in s.mutexes && OwnMove(s, e)
    ensures m in Apply(s, e).mutexes
    ensures Justified(Apply(s, e), LateAfter(s, e, late), m) && Flagged(Apply(s, e), LateAfter(s, e, late), m)
  {
    var s', late' := Apply(s, e), LateAfter(s, e, late);
    assert Justified(s, late, m) && Flagged(s, late, m) && MutexOk(s, m);
    MoveKeepsMutexes(s, e, m);
    hide Booked, HoldersAreOutside, Justified, Flagged, Excused, MutexOk, Apply, Enabled, Keeps, OwnMove, LateAfter, Engaged;
    if e.FinishExpired? && s.tasks[e.t].mode.m == m && s.mutexes[m].available {
      assert s.mutexes[m].holder.None? by { assert MutexOk(s, m); }
      NobodyHolds(s', late', m);
    } else {
      forall w | WaitsFor(s', w, m)
        ensures WaitsFor(s, w, m) && s'.tasks[w].mode == s.tasks[w].mode && s'.tasks[w].priority == s.tasks[w].priority
      {
        MoveEffect(s, late, e, m, w);
      }
      forall w | w in s.tasks && Engaged(s.tasks[w].mode, m) && w !in late
        ensures Engaged(s'.tasks[w].mode, m) && w !in late' && s'.tasks[w].priority == s.tasks[w].priority
      {
        MoveEffect(s, late, e, m, w);
      }
      if s.mutexes[m].holder.Some? && s.mutexes[m].holder.value in s.tasks {
        MoveEffect(s, late, e, m, s.mutexes[m].holder.value);
      }
      Untouched(s, late, s', late', m);
    }
  }

  /** The taker of a free mutex runs at its base priority, and nobody that waits is above that. */
  lemma TakeKeepsExcused(s: State, late: set<TaskId>, t: TaskId, m: MutexId)
    requires Booked(s) && Excused(s, late) && Enabled(s, TryTake(t)) && s.mutexes[s.tasks[t].mode.m].available && m in s.mutexes
    requires Inv(ApplyTryTake(s, t))
    ensures m in ApplyTryTake(s, t).mutexes && Justified(ApplyTryTake(s, t), late, m) && Flagged(ApplyTryTake(s, t), late, m)
  {
    var s', late' := ApplyTryTake(s, t), late;
    assert TaskOk(s, t);
    assert s.tasks[t].mutexesHeld == 0;
    if m == s.tasks[t].mode.m {
      assert NoInversion(s', m);
      hide Inv, Booked;
    } else {
      assert Justified(s, late, m) && Flagged(s, late, m);
      if s.mutexes[m].holder == Some(t) { HolderHoldsOne(s, m); }
      hide Inv, Booked, Justified, Flagged;
      Untouched(s, late, s', late', m);
    }
  }

  /** The holder of a mutex that a task waits or is about to wait for is outside and holds nothing else. */
  lemma HolderIsOutside(s: State, late: set<TaskId>, m: MutexId)
    requires Booked(s) && Excused(s, late) && m in s.mutexes && s.mutexes[m].holder.Some?
    ensures var h := s.mutexes[m].holder.value;
            h in s.tasks && s.tasks[h].mutexesHeld == 1 && Outside(s.tasks[h].mode)
            && forall m' :: m' in s.mutexes && s.mutexes[m'].holder == Some(h) ==> m' == m
  {
    var h := s.mutexes[m].holder.value;
    assert MutexOk(s, m) && TaskOk(s, h);
    HolderHoldsOne(s, m);
    forall m' | m' in s.mutexes && s.mutexes[m'].holder == Some(h) ensures m' == m {
      if m' != m { TwoMutexesHeld(s, h, m, m'); }
    }
  }

  /** Going on to wait changes only the holder and the task itself. */
  lemma OthersStay(s: State, t: TaskId, h: TaskId)
    requires Booked(s) && Enabled(s, EnterWait(t)) && s.mutexes[s.tasks[t].mode.m].holder == Some(h)
    ensures var m, s' := s.tasks[t].mode.m, ApplyEnterWait(s, t);
            && h in s.tasks && h != t && s'.tasks.Keys == s.tasks.Keys && s'.mutexes.Keys == s.mutexes.Keys
            && (forall u :: u in s.tasks && u != t && u != h ==> s'.tasks[u] == s.tasks[u])
            && (forall m' :: m' in s.mutexes && m' != m ==> s'.mutexes[m'] == s.mutexes[m'])
            && s'.mutexes[m].holder == Some(h)
            && s'.tasks[t].priority == s.tasks[t].priority && s'.tasks[t].mode.Waiting? && s'.tasks[t].mode.m == m
            && s'.tasks[h].mode == s.tasks[h].mode && s'.tasks[h].basePriority == s.tasks[h].basePriority
  {
    assert MutexOk(s, s.tasks[t].mode.m) && TaskOk(s, t);
  }

  lemma OwnWaitKeepsExcused(s: State, late: set<TaskId>, t: TaskId)
    requires Booked(s) && Excused(s, late) && Enabled(s, EnterWait(t))
    ensures var m, s', late' := s.tasks[t].mode.m, ApplyEnterWait(s, t), late - {t}; m in s'.mutexes && Justified(s', late', m) && Flagged(s', late', m)
  {
    var m, s', late' := s.tasks[t].mode.m, ApplyEnterWait(s, t), late - {t};
    assert MutexOk(s, m) && Justified(s, late, m) && Flagged(s, late, m);
    var h := s.mutexes[m].holder.value;
    HolderIsOutside(s, late, m);
    FlagIsRight(s, t);
    RaisedExactly(s, t, h);
    OthersStay(s, t, h);
    hide Booked, HoldersAreOutside, Excused, ApplyEnterWait, Engaged;
    OwnWaitFlagged(s, late, s', m, t, h);
    hide Flagged;
    if s.tasks[h].priority >= s.tasks[t].priority {
      if s.tasks[h].priority > s.tasks[h].basePriority {
        var w :| Raises(s, late, w, m, s.tasks[h].priority);
        if w == t { assert Engaged(s'.tasks[t].mode, m); }
        assert Raises(s', late', w, m, s'.tasks[h].priority);
      }
    } else {
      assert Engaged(s'.tasks[t].mode, m);
      assert Raises(s', late', t, m, s'.tasks[h].priority);
    }
  }

  lemma OwnWaitFlagged(s: State, late: set<TaskId>, s': State, m: MutexId, t: TaskId, h: TaskId)
    requires m in s.mutexes && m in s'.mutexes && s.mutexes[m].holder == Some(h) == s'.mutexes[m].holder
    requires h in s.tasks && t in s.tasks && t != h && s'.tasks.Keys == s.tasks.Keys && Flagged(s, late, m)
    requires s'.tasks[h].basePriority == s.tasks[h].basePriority && !s'.tasks[h].mode.Waiting?
    requires forall u :: u in s.tasks && u != t && u != h ==> s'.tasks[u] == s.tasks[u]
    requires s'.tasks[t].priority > s'.tasks[h].basePriority ==> Engaged(s'.tasks[t].mode, m)
    ensures Flagged(s', late - {t}, m)
  {
    hide Engaged;
    forall w | WaitsFor(s', w, m) && s'.tasks[w].priority > s'.tasks[h].basePriority
      ensures Engaged(s'.tasks[w].mode, m) && w !in late - {t}
    {
      if w != t { assert WaitsFor(s, w, m); }
    }
  }

  lemma OtherWaitKeepsExcused(s: State, late: set<TaskId>, t: TaskId, m: MutexId)
    requires Booked(s) && Excused(s, late) && Enabled(s, EnterWait(t)) && m in s.mutexes && m != s.tasks[t].mode.m
    ensures m in ApplyEnterWait(s, t).mutexes
    ensures Justified(ApplyEnterWait(s, t), late - {t}, m) && Flagged(ApplyEnterWait(s, t), late - {t}, m)
  {
    var m0, s', late' := s.tasks[t].mode.m, ApplyEnterWait(s, t), late - {t};
    assert MutexOk(s, m0) && MutexOk(s, m) && TaskOk(s, t) && Justified(s, late, m) && Flagged(s, late, m);
    HolderIsOutside(s, late, m0);
    OthersStay(s, t, s.mutexes[m0].holder.value);
    if s.mutexes[m].holder == Some(t) { HolderHoldsOne(s, m); }
    assert s.mutexes[m].holder != Some(t) by { assert HoldersAreOutside(s); }
    hide Booked, HoldersAreOutside, Excused, Justified, Flagged, ApplyEnterWait;
    Untouched(s, late, s', late', m);
  }

  lemma OthersKeep(s: State, t: TaskId)
    requires Booked(s) && Enabled(s, UndoInheritance(t))
    ensures var m, s' := s.tasks[t].mode.m, ApplyUndo(s, t);
            && s'.tasks.Keys == s.tasks.Keys && s'.mutexes == s.mutexes
            && (forall u :: u in s.tasks && s.mutexes[m].holder != Some(u) ==> s'.tasks[u].priority == s.tasks[u].priority)
            && (forall u :: u in s.tasks ==> s'.tasks[u].basePriority == s.tasks[u].basePriority)
            && (forall u :: u in s.tasks ==> s'.tasks[u].mode == if u == t then Idle else s.tasks[u].mode)
  {
    TasksStay(s, UndoInheritance(t));
    forall u | u in s.tasks
      ensures s.mutexes[s.tasks[t].mode.m].holder != Some(u) ==> ApplyUndo(s, t).tasks[u].priority == s.tasks[u].priority
      ensures ApplyUndo(s, t).tasks[u].basePriority == s.tasks[u].basePriority
      ensures ApplyUndo(s, t).tasks[u].mode == if u == t then Idle else s.tasks[u].mode
    {
      UndoneTo(s, t, u);
    }
  }

  lemma ExcusedHas(s: State, late: set<TaskId>, m: MutexId)
    requires Excused(s, late) && m in s.mutexes
    ensures Justified(s, late, m) && Flagged(s, late, m)
  {
  }

  /** A holder brought down to its base priority or to that of a task still waiting for the mutex is justified. */
  lemma Redressed(s: State, late: set<TaskId>, s': State, m: MutexId, h: TaskId)
    requires m in s.mutexes && s'.mutexes == s.mutexes && s.mutexes[m].holder == Some(h) && Flagged(s, late, m)
    requires h in s.tasks && s'.tasks.Keys == s.tasks.Keys && s'.tasks[h].basePriority == s.tasks[h].basePriority
    requires forall w :: WaitsFor(s', w, m) ==>
               WaitsFor(s, w, m) && s'.tasks[w].mode == s.tasks[w].mode && s'.tasks[w].priority == s.tasks[w].priority
    requires || s'.tasks[h].priority == s'.tasks[h].basePriority
             || exists w :: WaitsFor(s', w, m) && s'.tasks[w].priority == s'.tasks[h].priority
    ensures Justified(s', late, m) && Flagged(s', late, m)
  {
    if s'.tasks[h].priority > s'.tasks[h].basePriority {
      var w :| WaitsFor(s', w, m) && s'.tasks[w].priority == s'.tasks[h].priority;
      FlaggedIsEngaged(s, late, m, w);
      assert Raises(s', late, w, m, s'.tasks[h].priority);
    }
  }

  /** Giving up an inheritance leaves the holder at its base priority or on another task's account. */
  lemma OwnUndoKeepsExcused(s: State, late: set<TaskId>, t: TaskId, h: TaskId)
    requires Inv(s) && Excused(s, late) && Enabled(s, UndoInheritance(t)) && s.mutexes[s.tasks[t].mode.m].holder == Some(h)
    ensures var m, s', late' := s.tasks[t].mode.m, ApplyUndo(s, t), late; m in s'.mutexes && Justified(s', late', m) && Flagged(s', late', m)
  {
    hide Booked, HoldersAreOutside, AtMostOne, Excused, Inv, ApplyUndo, Justified, Flagged;
    var m, s' := s.tasks[t].mode.m, ApplyUndo(s, t);
    InvIsBooked(s);
    ExcusedHas(s, late, m);
    HolderIsOutside(s, late, m);
    UndoneExactly(s, t, h);
    OthersKeep(s, t);
    forall w | WaitsFor(s', w, m)
      ensures WaitsFor(s, w, m) && s'.tasks[w].mode == s.tasks[w].mode && s'.tasks[w].priority == s.tasks[w].priority {}
    Redressed(s, late, s', m, h);
  }

  lemma FlaggedIsEngaged(s: State, late: set<TaskId>, m: MutexId, w: TaskId)
    requires m in s.mutexes && Flagged(s, late, m) && s.mutexes[m].holder.Some? && s.mutexes[m].holder.value in s.tasks
    requires WaitsFor(s, w, m) && s.tasks[w].priority > s.tasks[s.mutexes[m].holder.value].basePriority
    ensures Engaged(s.tasks[w].mode, m) && w !in late
  {
  }

  lemma UndoKeepsExcused(s: State, late: set<TaskId>, t: TaskId, m: MutexId)
    requires Inv(s) && Excused(s, late) && Enabled(s, UndoInheritance(t)) && m in s.mutexes
    ensures m in ApplyUndo(s, t).mutexes && Justified(ApplyUndo(s, t), late, m) && Flagged(ApplyUndo(s, t), late, m)
  {
    hide Booked, HoldersAreOutside, AtMostOne, Excused, Inv, ApplyUndo, Justified, Flagged;
    var m0, s' := s.tasks[t].mode.m, ApplyUndo(s, t);
    InvIsBooked(s);
    ExcusedHas(s, late, m);
    OthersKeep(s, t);
    if m == m0 && s.mutexes[m].holder.Some? {
      OwnUndoKeepsExcused(s, late, t, s.mutexes[m].holder.value);
    } else if m == m0 {
      NobodyHolds(s', late, m);
    } else {
      if s.mutexes[m0].holder.Some? { HolderIsOutside(s, late, m0); }
      Untouched(s, late, s', late, m);
    }
  }

  lemma NobodyHolds(s: State, late: set<TaskId>, m: MutexId)
    requires m in s.mutexes && s.mutexes[m].holder.None?
    ensures Justified(s, late, m) && Flagged(s, late, m)
  {
  }

  /** Giving changes the priority of the giver at most, and wakes one task, which stays engaged. */
  lemma GiveEffectOn(s: State, t: TaskId, m0: MutexId, m: MutexId, u: TaskId)
    requires Booked(s) && Enabled(s, Give(t, m0)) && u in s.tasks && m != m0
    ensures u in ApplyGive(s, t, m0).tasks
    ensures var k, k' := s.tasks[u], ApplyGive(s, t, m0).tasks[u];
            && (u != t ==> k'.priority == k.priority && k'.basePriority == k.basePriority)
            && (Engaged(k.mode, m) ==> Engaged(k'.mode, m) && u != t)
            && (k'.mode.Waiting? ==> k'.mode == k.mode && u != t)
  {
    assert MutexOk(s, m0);
    if s.mutexes[m0].waiters != [] { assert WaitsFor(s, s.mutexes[m0].waiters[0], m0); }
  }

  lemma GiveKeepsMutexes(s: State, t: TaskId, m0: MutexId, m: MutexId)
    requires Booked(s) && Enabled(s, Give(t, m0)) && m in s.mutexes
    ensures ApplyGive(s, t, m0).tasks.Keys == s.tasks.Keys && m in ApplyGive(s, t, m0).mutexes
    ensures ApplyGive(s, t, m0).mutexes[m].holder == if m == m0 then None else s.mutexes[m].holder
  {
    assert MutexOk(s, m0);
  }

  lemma GiveKeepsExcused(s: State, late: set<TaskId>, t: TaskId, m0: MutexId, m: MutexId)
    requires Booked(s) && Excused(s, late) && Enabled(s, Give(t, m0)) && m in s.mutexes
    ensures m in ApplyGive(s, t, m0).mutexes
    ensures Justified(ApplyGive(s, t, m0), late, m) && Flagged(ApplyGive(s, t, m0), late, m)
  {
    var s' := ApplyGive(s, t, m0);
    assert Justified(s, late, m) && Flagged(s, late, m);
    GiveKeepsMutexes(s, t, m0, m);
    HolderIsOutside(s, late, m0);
    hide Booked, HoldersAreOutside, Justified, Flagged, Excused, ApplyGive, Engaged;
    if m == m0 {
      NobodyHolds(s', late, m);
    } else {
      forall w | WaitsFor(s', w, m)
        ensures WaitsFor(s, w, m) && s'.tasks[w].mode == s.tasks[w].mode && s'.tasks[w].priority == s.tasks[w].priority
      {
        GiveEffectOn(s, t, m0, m, w);
      }
      forall w | w in s.tasks && Engaged(s.tasks[w].mode, m) && w !in late
        ensures Engaged(s'.tasks[w].mode, m) && s'.tasks[w].priority == s.tasks[w].priority
      {
        GiveEffectOn(s, t, m0, m, w);
      }
      if s.mutexes[m].holder.Some? && s.mutexes[m].holder.value in s.tasks {
        GiveEffectOn(s, t, m0, m, s.mutexes[m].holder.value);
      }
      Untouched(s, late, s', late, m);
    }
  }

  lemma StepKeepsAtMostOne(s: State, late: set<TaskId>, e: Step, u: TaskId)
    requires Booked(s) && Excused(s, late) && Enabled(s, e) && Keeps(s, e, late) && u in s.tasks
    ensures u in Apply(s, e).tasks && Apply(s, e).tasks[u].mutexesHeld <= 1
  {
    StepEffect(s, e, u);
    hide Booked, Justified, Flagged;
  }

  lemma StepKeepsExcused(s: State, late: set<TaskId>, e: Step)
    requires Inv(s) && Excused(s, late) && Enabled(s, e) && Keeps(s, e, late) && Inv(Apply(s, e))
    ensures Excused(Apply(s, e), LateAfter(s, e, late))
  {
    InvIsBooked(s);
    hide Inv, Booked, Apply, Enabled, Justified, Flagged;
    TasksStay(s, e);
    MutexesStay(s, e);
    StepKeepsHoldersOutside(s, e);
    forall u | u in Apply(s, e).tasks ensures Apply(s, e).tasks[u].mutexesHeld <= 1 { StepKeepsAtMostOne(s, late, e, u); }
    forall m | m in Apply(s, e).mutexes ensures Justified(Apply(s, e), LateAfter(s, e, late), m) && Flagged(Apply(s, e), LateAfter(s, e, late), m) {
      StepKeepsMutexExcused(s, late, e, m);
    }
  }

  lemma StepKeepsMutexExcused(s: State, late: set<TaskId>, e: Step, m: MutexId)
    requires Inv(s) && Booked(s) && Excused(s, late) && Enabled(s, e) && Keeps(s, e, late) && Inv(Apply(s, e)) && m in s.mutexes
    ensures m in Apply(s, e).mutexes
    ensures Justified(Apply(s, e), LateAfter(s, e, late), m) && Flagged(Apply(s, e), LateAfter(s, e, late), m)
  {
    hide Inv, Booked, Excused, Justified, Flagged, ApplyGive, ApplyEnterWait, ApplyUndo, ApplyTryTake;
    match e
    case Give(t, m0) => GiveKeepsExcused(s, late, t, m0, m);
    case EnterWait(t) =>
      if m == s.tasks[t].mode.m { OwnWaitKeepsExcused(s, late, t); } else { OtherWaitKeepsExcused(s, late, t, m); }
    case UndoInheritance(t) => UndoKeepsExcused(s, late, t, m);
    case TryTake(t) =>
      if s.mutexes[s.tasks[t].mode.m].available { TakeKeepsExcused(s, late, t, m); } else { MoveKeepsExcused(s, late, e, m); }
    case _ => MoveKeepsExcused(s, late, e, m);
  }

  // ---- Every run ----

  /** Every step of the run keeps these rules. */
  ghost predicate KeepsAll(m: Machine, acts: seq<Action>, late: set<TaskId>)
    requires RunPossible(m, acts)
    decreases acts
  {
    acts != [] ==>
      && (!acts[0].SwitchTo? ==> Keeps(m.s, acts[0].e, late))
      && KeepsAll(Do(m, acts[0]), acts[1..], Later(m, acts[0], late))
  }

  function Later(m: Machine, a: Action, late: set<TaskId>): set<TaskId> {
    if a.SwitchTo? then late else LateAfter(m.s, a.e, late)
  }

  ghost function LateAtEnd(m: Machine, acts: seq<Action>, late: set<TaskId>): set<TaskId>
    requires RunPossible(m, acts)
    decreases acts
  {
    if acts == [] then late else LateAtEnd(Do(m, acts[0]), acts[1..], Later(m, acts[0], late))
  }

  lemma {:induction false} KeepsAllIsOneAtATime(m: Machine, acts: seq<Action>, late: set<TaskId>)
    requires RunPossible(m, acts) && KeepsAll(m, acts, late)
    ensures OneAtATime(m, acts)
    decreases acts
  {
    hide Possible, Do;
    if acts != [] { KeepsAllIsOneAtATime(Do(m, acts[0]), acts[1..], Later(m, acts[0], late)); }
  }

  lemma {:induction false} RunKeepsExcused(m: Machine, acts: seq<Action>, stale: bool, late: set<TaskId>)
    requires MachineInv(m, stale) && Excused(m.s, late) && RunPossible(m, acts)
    requires NoTakeBehindMissedSwitch(m, acts, stale) && NobodyReranked(m, acts) && KeepsAll(m, acts, late)
    ensures Inv(RunMachine(m, acts).s) && Excused(RunMachine(m, acts).s, LateAtEnd(m, acts, late))
    decreases acts
  {
    hide Inv, Excused, Enabled, Apply, Scheduled, Disturbs, MissesSwitch, Requests, Keeps, LateAfter;
    if acts != [] {
      var a := acts[0];
      ActionKeepsInv(m, a, stale);
      if !a.SwitchTo? {
        EnabledEither(m, a);
        StepKeepsExcused(m.s, late, a.e);
      }
      RunKeepsExcused(Do(m, a), acts[1..], StaleAfter(m, a, stale), Later(m, a, late));
    }
  }

  lemma InitialIsExcused(s: State)
    requires Initial(s)
    ensures Excused(s, {})
  {
  }

  lemma RunIsExcused(m: Machine, acts: seq<Action>)
    requires InitialMachine(m) && RunPossible(m, acts) && KeepsAll(m, acts, {})
    requires NoTakeBehindMissedSwitch(m, acts, false)
    ensures Inv(RunMachine(m, acts).s) && Excused(RunMachine(m, acts).s, LateAtEnd(m, acts, {}))
  {
    InitialInv(m.s);
    InitialBooked(m.s);
    InitialIsExcused(m.s);
    KeepsAllIsOneAtATime(m, acts, {});
    OneAtATimeWaitsEmptyHanded(m, acts);
    EmptyHandedReranksNobody(m, acts, false);
    RunKeepsExcused(m, acts, false, {});
  }

  /** No priority without a reason: in every run of tasks that take one mutex at a time, a task above its base priority
      holds a mutex, and runs at exactly the priority of a task that is inside a take of that mutex and has yet to undo the
      inheritance it caused. */
  lemma NoUndueInheritance(m: Machine, acts: seq<Action>, h: TaskId)
    requires InitialMachine(m) && RunPossible(m, acts) && KeepsAll(m, acts, {})
    requires NoTakeBehindMissedSwitch(m, acts, false)
    requires h in RunMachine(m, acts).s.tasks
    ensures var s := RunMachine(m, acts).s;
            s.tasks[h].priority > s.tasks[h].basePriority ==>
              exists mx, w :: mx in s.mutexes && s.mutexes[mx].holder == Some(h)
                              && Raises(s, LateAtEnd(m, acts, {}), w, mx, s.tasks[h].priority)
  {
    RunIsExcused(m, acts);
    var s, late := RunMachine(m, acts).s, LateAtEnd(m, acts, {});
    assert TaskOk(s, h);
    if s.tasks[h].priority > s.tasks[h].basePriority {
      var mx :| mx in HeldBy(s, h);
      assert Justified(s, late, mx);
    }
  }

  /** When everybody who has caused an inheritance still waits, a holder runs at the larger of its base priority and the
      priority of its most urgent waiter: no less, and no more. */
  lemma HolderRunsAt(m: Machine, acts: seq<Action>, mx: MutexId, h: TaskId)
    requires InitialMachine(m) && RunPossible(m, acts) && KeepsAll(m, acts, {})
    requires NoTakeBehindMissedSwitch(m, acts, false)
    requires mx in RunMachine(m, acts).s.mutexes && RunMachine(m, acts).s.mutexes[mx].holder == Some(h)
    requires var s := RunMachine(m, acts).s; forall w :: w in s.tasks && Engaged(s.tasks[w].mode, mx) ==> WaitsFor(s, w, mx)
    ensures var s := RunMachine(m, acts).s; var highest := HighestWaiting(s.tasks, s.mutexes[mx].waiters);
            && h in s.tasks
            && s.tasks[h].priority == if highest > s.tasks[h].basePriority then highest else s.tasks[h].basePriority
  {
    RunIsExcused(m, acts);
    var s, late := RunMachine(m, acts).s, LateAtEnd(m, acts, {});
    HeadBounds(s, mx);
    assert Justified(s, late, mx);
    if s.tasks[h].priority > s.tasks[h].basePriority {
      var w :| Raises(s, late, w, mx, s.tasks[h].priority);
      assert WaitsFor(s, w, mx);
    }
  }
}
