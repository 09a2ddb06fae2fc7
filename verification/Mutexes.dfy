/** The in-place form of the mutex operations: task control blocks and mutexes are objects, the ready lists are moved
    together with the priorities, and every section is proved to do what PriorityInheritance.Apply* says. */

module Mutexes {
  import opened Basics
  import opened PriorityInheritance

  class Tcb {
    const id: TaskId
    var priority: nat
    var basePriority: nat
    var mutexesHeld: nat
    var eventItemValue: nat
    var mode: Mode

    constructor (id: TaskId, priority: nat)
      requires priority < MAX_PRIORITIES
      ensures this.id == id && Value() == Task(priority, priority, 0, Idle)
      ensures eventItemValue == MAX_PRIORITIES - priority
    {
      this.id := id;
      this.priority, basePriority, mutexesHeld, mode := priority, priority, 0, Idle;
      eventItemValue := MAX_PRIORITIES - priority;
    }

    function Value(): Task
      reads this
    {
      Task(priority, basePriority, mutexesHeld, mode)
    }

    /** The block of task t, with the value v and the event list item value that goes with its priority. */
    ghost predicate Holds(t: TaskId, v: Task)
      reads this
    {
      && id == t && Value() == v && priority < MAX_PRIORITIES && basePriority < MAX_PRIORITIES
      && eventItemValue == MAX_PRIORITIES - priority
    }
  }

  class MutexQueue {
    const id: MutexId
    var messagesWaiting: nat
    var holder: Option<TaskId>
    var waiters: seq<TaskId>

    constructor (id: MutexId)
      ensures this.id == id && Value() == Mutex(true, None, []) && messagesWaiting == 1
    {
      this.id := id;
      messagesWaiting, holder, waiters := 1, None, [];
    }

    function Value(): Mutex
      reads this
    {
      Mutex(messagesWaiting > 0, holder, waiters)
    }

    /** A mutex is a queue of length one: one message while nobody holds it, none while somebody does. */
    ghost predicate Holds(m: MutexId, v: Mutex)
      reads this
    {
      id == m && Value() == v && messagesWaiting == if holder.None? then 1 else 0
    }
  }

  // ---- Ready lists ----

  lemma {:induction false} AppendMembers(s: seq<TaskId>, t: TaskId)
    requires NoDup(s) && t !in s
    ensures NoDup(s + [t])
  {
    if s != [] {
      AppendMembers(s[1..], t);
      assert (s + [t])[1..] == s[1..] + [t];
    }
  }

  /** Every task that can run is on the ready list of its current priority, once, and on no other. */
  ghost predicate ReadyOk(ready: seq<seq<TaskId>>, tasks: map<TaskId, Task>) {
    && |ready| == MAX_PRIORITIES
    && (forall p :: 0 <= p < MAX_PRIORITIES ==> NoDup(ready[p]))
    && (forall p, t :: 0 <= p < MAX_PRIORITIES ==>
          (t in ready[p] <==> t in tasks && CanRun(tasks[t]) && tasks[t].priority == p))
  }

  function Unready(ready: seq<seq<TaskId>>, t: TaskId, p: nat): (r: seq<seq<TaskId>>)
    requires p < |ready|
    ensures |r| == |ready|
  {
    ready[p := Without(ready[p], t)]
  }

  function MakeReady(ready: seq<seq<TaskId>>, t: TaskId, p: nat): (r: seq<seq<TaskId>>)
    requires p < |ready|
    ensures |r| == |ready|
  {
    ready[p := ready[p] + [t]]
  }

  /** Moving a ready task to the list of its new priority. */
  lemma MoveKeepsReady(ready: seq<seq<TaskId>>, tasks: map<TaskId, Task>, t: TaskId, r: Task)
    requires ReadyOk(ready, tasks) && t in tasks && CanRun(tasks[t]) && CanRun(r)
    requires tasks[t].priority < MAX_PRIORITIES && r.priority < MAX_PRIORITIES
    ensures ReadyOk(MakeReady(Unready(ready, t, tasks[t].priority), t, r.priority), tasks[t := r])
  {
    WithoutMembers(ready[tasks[t].priority], t);
    AppendMembers(Unready(ready, t, tasks[t].priority)[r.priority], t);
  }

  lemma BlockKeepsReady(ready: seq<seq<TaskId>>, tasks: map<TaskId, Task>, t: TaskId, r: Task)
    requires ReadyOk(ready, tasks) && t in tasks && CanRun(tasks[t]) && !CanRun(r) && tasks[t].priority < MAX_PRIORITIES
    ensures ReadyOk(Unready(ready, t, tasks[t].priority), tasks[t := r])
  {
    WithoutMembers(ready[tasks[t].priority], t);
  }

  lemma WakeKeepsReady(ready: seq<seq<TaskId>>, tasks: map<TaskId, Task>, t: TaskId, r: Task)
    requires ReadyOk(ready, tasks) && t in tasks && !CanRun(tasks[t]) && CanRun(r) && r.priority < MAX_PRIORITIES
    ensures ReadyOk(MakeReady(ready, t, r.priority), tasks[t := r])
  {
    AppendMembers(ready[r.priority], t);
  }

  lemma StayKeepsReady(ready: seq<seq<TaskId>>, tasks: map<TaskId, Task>, t: TaskId, r: Task)
    requires ReadyOk(ready, tasks) && t in tasks
    requires CanRun(r) == CanRun(tasks[t]) && (CanRun(r) ==> r.priority == tasks[t].priority)
    ensures ReadyOk(ready, tasks[t := r])
  {
  }

  /** The ready lists after a task, ready or not, has been given another priority. */
  function Reprioritised(ready: seq<seq<TaskId>>, t: TaskId, from: nat, to: nat): seq<seq<TaskId>>
    requires from < |ready| && to < |ready|
  {
    if t in ready[from] then MakeReady(Unready(ready, t, from), t, to) else ready
  }

  lemma ReprioritisedIsReady(ready: seq<seq<TaskId>>, tasks: map<TaskId, Task>, t: TaskId, p: nat)
    requires ReadyOk(ready, tasks) && t in tasks && tasks[t].priority < MAX_PRIORITIES && p < MAX_PRIORITIES
    ensures |ready| == MAX_PRIORITIES
    ensures ReadyOk(Reprioritised(ready, t, tasks[t].priority, p), tasks[t := tasks[t].(priority := p)])
  {
    var r := tasks[t].(priority := p);
    if t in ready[tasks[t].priority] {
      MoveKeepsReady(ready, tasks, t, r);
    } else {
      StayKeepsReady(ready, tasks, t, r);
    }
  }

  /** The task, if it is ready, is last on the list of its new priority, and all others are in their places. */
  ghost predicate MovedToEnd(before: seq<seq<TaskId>>, after: seq<seq<TaskId>>, t: TaskId, p: nat, isReady: bool) {
    && |after| == |before|
    && (forall q :: 0 <= q < |before| && (q != p || !isReady) ==> after[q] == if isReady then Without(before[q], t) else before[q])
    && (isReady && p < |before| ==> after[p] == Without(before[p], t) + [t])
  }

  lemma {:induction false} WithoutAbsent(s: seq<TaskId>, t: TaskId)
    requires t !in s
    ensures Without(s, t) == s
    decreases s
  {
    if s != [] { WithoutAbsent(s[1..], t); }
  }

  lemma ReprioritisedOrder(ready: seq<seq<TaskId>>, tasks: map<TaskId, Task>, t: TaskId, p: nat)
    requires ReadyOk(ready, tasks) && t in tasks && tasks[t].priority < MAX_PRIORITIES && p < MAX_PRIORITIES
    ensures |ready| == MAX_PRIORITIES
    ensures MovedToEnd(ready, Reprioritised(ready, t, tasks[t].priority, p), t, p, CanRun(tasks[t]))
  {
    forall q | 0 <= q < |ready| && (q != tasks[t].priority || !CanRun(tasks[t])) ensures Without(ready[q], t) == ready[q] {
      WithoutAbsent(ready[q], t);
    }
  }

  /** Entering the wait is raising the holder and then joining the event list. */
  lemma EnterWaitInTwoSteps(s: State, t: TaskId, m: MutexId, s1: State)
    requires t in s.tasks && s.tasks[t].mode.Checked? && s.tasks[t].mode.m == m && m in s.mutexes
    requires s.mutexes[m].holder.Some? && s.mutexes[m].holder.value in s.tasks && s.mutexes[m].holder.value != t
    requires s1 == SetTask(s, s.mutexes[m].holder.value, Raised(s.tasks[s.mutexes[m].holder.value], s.tasks[t].priority))
    ensures s1.tasks[t] == s.tasks[t] && ApplyEnterWait(s, t) ==
            WithWaiter(s1, t, m, InheritanceOccurred(s.tasks[s.mutexes[m].holder.value], s.tasks[t].priority))
  {
  }

  lemma TryTakeInTwoSteps(s: State, t: TaskId, m: MutexId)
    requires t in s.tasks && s.tasks[t].mode.Trying? && s.tasks[t].mode.m == m && m in s.mutexes
    ensures ApplyTryTake(s, t) ==
            if s.mutexes[m].available then
              SetTask(SetMutex(s, m, Mutex(false, Some(t), s.mutexes[m].waiters)),
                      t, s.tasks[t].(mutexesHeld := s.tasks[t].mutexesHeld + 1, mode := Idle))
            else
              SetTask(s, t, s.tasks[t].(mutexesHeld := s.tasks[t].mutexesHeld, mode := Checked(m, s.tasks[t].mode.inherited)))
  {
  }

  lemma FreeInTwoSteps(s: State, t: TaskId, m: MutexId)
    requires t in s.tasks && m in s.mutexes && s.tasks[t].mutexesHeld > 0
    ensures Freed(s, t, m) == SetMutex(SetTask(s, t, Lowered(s.tasks[t])), m, Mutex(true, None, s.mutexes[m].waiters))
    ensures SetTask(s, t, Lowered(s.tasks[t])).mutexes == s.mutexes
  {
  }

  /** Giving is freeing the mutex and then waking its first waiter; the switch is decided by whichever came last. */
  lemma GiveInTwoSteps(s: State, t: TaskId, m: MutexId)
    requires t in s.tasks && m in s.mutexes && s.tasks[t].mutexesHeld > 0 && s.tasks[t].mode.Idle?
    requires s.mutexes[m].waiters != [] ==> WaitsFor(s, s.mutexes[m].waiters[0], m)
    ensures var s1, ws := Freed(s, t, m), s.mutexes[m].waiters;
            && s1.mutexes[m].waiters == ws && s1.tasks[t] == Lowered(s.tasks[t])
            && ApplyGive(s, t, m) == (if ws == [] then s1 else WakeFirst(s1, m))
            && (ws != [] ==> ws[0] in s1.tasks && s1.tasks[ws[0]] == s.tasks[ws[0]] && WaitsFor(s1, ws[0], m))
            && (SwitchRequested(s, t, m) <==>
                  if ws == [] then s1.tasks[t].priority != s.tasks[t].priority
                  else s1.tasks[ws[0]].priority > s1.tasks[t].priority)
  {
  }

  /** Giving up is lowering the holder, if there is one, and leaving. */
  lemma UndoInTwoSteps(s: State, t: TaskId, m: MutexId, s1: State)
    requires t in s.tasks && s.tasks[t].mode.GivingUp? && s.tasks[t].mode.m == m && m in s.mutexes
    requires s.mutexes[m].holder.Some? ==> s.mutexes[m].holder.value in s.tasks
    requires s1 == match s.mutexes[m].holder
                   case None => s
                   case Some(h) => SetTask(s, h, LoweredAfterTimeout(s.tasks[h], HighestWaiting(s.tasks, s.mutexes[m].waiters)))
    ensures t in s1.tasks && s1.tasks[t].mode.GivingUp?
    ensures ApplyUndo(s, t) == SetTask(s1, t, s1.tasks[t].(mutexesHeld := s1.tasks[t].mutexesHeld, mode := Idle))
  {
  }

  // ---- The kernel ----

  class Kernel {
    var tasks: map<TaskId, Tcb>
    var mutexes: map<MutexId, MutexQueue>
    var ready: seq<seq<TaskId>>
    var current: TaskId
    /** The control blocks and mutexes as one value. */
    ghost var state: State

    constructor ()
      ensures Valid() && state == State(map[], map[])
    {
      tasks, mutexes, current := map[], map[], 0;
      ready := seq(MAX_PRIORITIES, _ => []);
      state := State(map[], map[]);
    }

    /** The control blocks and mutexes are what `state` says. */
    ghost predicate Tables()
      reads `tasks, `mutexes, `state, tasks.Values, mutexes.Values
    {
      && tasks.Keys == state.tasks.Keys && mutexes.Keys == state.mutexes.Keys
      && (forall t :: t in tasks ==> tasks[t].Holds(t, state.tasks[t]))
      && (forall m :: m in mutexes ==> mutexes[m].Holds(m, state.mutexes[m]))
    }

    ghost predicate Valid()
      reads this, tasks.Values, mutexes.Values
    {
      Tables() && ReadyOk(ready, state.tasks)
    }

    /** Stores of a task's priority and of the event list item value that goes with it, unless that is in use. */
    method StorePriority(t: TaskId, p: nat)
      requires Tables() && t in tasks && p < MAX_PRIORITIES
      modifies this`state, tasks[t]
      ensures Tables() && state == SetTask(old(state), t, old(state).tasks[t].(priority := p))
    {
      var tcb := tasks[t];
      assert tcb.Holds(t, state.tasks[t]);
      if tcb.eventItemValue < ITEM_VALUE_IN_USE {
        tcb.eventItemValue := MAX_PRIORITIES - p;
      }
      tcb.priority := p;
      state := SetTask(state, t, state.tasks[t].(priority := p));
    }

    /** The tail the three inheritance functions share: give a task another priority, and move it between ready lists if
        it is on one. */
    method SetPriority(t: TaskId, p: nat)
      requires Valid() && t in tasks && p < MAX_PRIORITIES
      modifies this`ready, this`state, tasks[t]
      ensures Valid() && state == SetTask(old(state), t, old(state).tasks[t].(priority := p))
      ensures MovedToEnd(old(ready), ready, t, p, CanRun(old(state).tasks[t]))
    {
      assert tasks[t].Holds(t, state.tasks[t]);
      ReprioritisedOrder(ready, state.tasks, t, p);
      ReprioritisedIsReady(ready, state.tasks, t, p);
      ghost var s := SetTask(state, t, state.tasks[t].(priority := p));
      assert ReadyOk(Reprioritised(ready, t, tasks[t].priority, p), s.tasks);
      hide ReadyOk, SetTask, Unready, MakeReady, Tables, MovedToEnd;
      var from := tasks[t].priority;
      if t in ready[from] {
        ready := Unready(ready, t, from);
        StorePriority(t, p);
        ready := MakeReady(ready, t, p);
      } else {
        StorePriority(t, p);
      }
    }

    /** xTaskPriorityInherit */
    method PriorityInherit(holder: Option<TaskId>) returns (occurred: bool)
      requires Valid() && current in tasks && (holder.Some? ==> holder.value in tasks)
      modifies this`ready, this`state, if holder.Some? then {tasks[holder.value]} else {}
      ensures Valid()
      ensures holder.None? ==> state == old(state) && !occurred
      ensures holder.Some? ==>
        var h, p := old(state).tasks[holder.value], old(state).tasks[current].priority;
        && state == SetTask(old(state), holder.value, Raised(h, p)) && occurred == InheritanceOccurred(h, p)
        && state.tasks[holder.value].priority == (if h.priority < p then p else h.priority)
    {
      occurred := false;
      if holder.Some? {
        var t, p := tasks[holder.value], tasks[current].priority;
        assert tasks[holder.value].Holds(holder.value, state.tasks[holder.value])
               && tasks[current].Holds(current, state.tasks[current]);
        if t.priority < p {
          SetPriority(holder.value, p);
          occurred := true;
        } else {
          assert state == SetTask(state, holder.value, state.tasks[holder.value]);
          if t.basePriority < p {
            occurred := true;
          }
        }
      }
    }

    /** Stores of a task's count and of its position, which leave it as ready as it was. */
    method StoreTask(t: TaskId, mutexesHeld: nat, mode: Mode)
      requires Valid() && t in tasks && CanRun(state.tasks[t]) == CanRun(state.tasks[t].(mode := mode))
      modifies tasks[t], this`state
      ensures Valid() && state == SetTask(old(state), t, old(state).tasks[t].(mutexesHeld := mutexesHeld, mode := mode))
    {
      assert tasks[t].Holds(t, state.tasks[t]);
      ghost var r := state.tasks[t].(mutexesHeld := mutexesHeld, mode := mode);
      StayKeepsReady(ready, state.tasks, t, r);
      tasks[t].mutexesHeld, tasks[t].mode := mutexesHeld, mode;
      state := SetTask(state, t, r);
    }

    /** Stores of one mutex's fields. */
    method StoreMutex(m: MutexId, messagesWaiting: nat, holder: Option<TaskId>, waiters: seq<TaskId>)
      requires Valid() && m in mutexes && messagesWaiting == if holder.None? then 1 else 0
      modifies mutexes[m], this`state
      ensures Valid() && state == SetMutex(old(state), m, Mutex(messagesWaiting > 0, holder, waiters))
    {
      hide ReadyOk;
      var mx := mutexes[m];
      ghost var s := SetMutex(state, m, Mutex(messagesWaiting > 0, holder, waiters));
      assert mx.Holds(m, state.mutexes[m]);
      assert forall m' :: m' in mutexes && m' != m ==> mutexes[m'] != mx by {
        forall m' | m' in mutexes && m' != m ensures mutexes[m'] != mx {
          assert mutexes[m'].Holds(m', state.mutexes[m']);
        }
      }
      mx.messagesWaiting, mx.holder, mx.waiters := messagesWaiting, holder, waiters;
      state := s;
      forall t | t in tasks ensures tasks[t].Holds(t, s.tasks[t]) {
        assert old(tasks[t].Holds(t, state.tasks[t]));
      }
      forall m' | m' in mutexes ensures mutexes[m'].Holds(m', s.mutexes[m']) {
        assert old(mutexes[m'].Holds(m', state.mutexes[m']));
      }
    }

    /** Takes a task off its ready list, as it goes on an event list. */
    method Block(t: TaskId, mode: Mode)
      requires Valid() && t in tasks && CanRun(state.tasks[t]) && mode.Waiting?
      modifies this`ready, this`state, tasks[t]
      ensures Valid() && state == SetMode(old(state), t, mode)
    {
      assert tasks[t].Holds(t, state.tasks[t]);
      ghost var r := state.tasks[t].(mode := mode);
      BlockKeepsReady(ready, state.tasks, t, r);
      ready := Unready(ready, t, tasks[t].priority);
      tasks[t].mode := mode;
      state := SetTask(state, t, r);
    }

    /** prvAddTaskToReadyList on a task that comes off an event list. */
    method MakeTaskReady(t: TaskId, mode: Mode)
      requires Valid() && t in tasks && state.tasks[t].mode.Waiting? && mode.Trying?
      modifies this`ready, this`state, tasks[t]
      ensures Valid() && state == SetMode(old(state), t, mode)
      ensures var p := old(state).tasks[t].priority;
              p < |old(ready)| && ready == old(ready)[p := old(ready)[p] + [t]]
    {
      assert tasks[t].Holds(t, state.tasks[t]);
      ghost var r := state.tasks[t].(mode := mode);
      WakeKeepsReady(ready, state.tasks, t, r);
      tasks[t].mode := mode;
      ready := MakeReady(ready, t, tasks[t].priority);
      state := SetTask(state, t, r);
    }

    /** xTaskPriorityDisinherit; the result asks for a context switch. */
    method PriorityDisinherit(holder: Option<TaskId>) returns (yieldNow: bool)
      requires Valid() && (holder.Some? ==> holder.value in tasks && tasks[holder.value].mutexesHeld > 0)
      modifies this`ready, this`state, if holder.Some? then {tasks[holder.value]} else {}
      ensures Valid()
      ensures holder.None? ==> state == old(state) && !yieldNow
      ensures holder.Some? ==>
        var h := old(state).tasks[holder.value];
        h.mutexesHeld > 0 && state == SetTask(old(state), holder.value, Lowered(h)) &&
        (yieldNow <==> Lowered(h).priority != h.priority) &&
        state.tasks[holder.value].priority == if h.mutexesHeld == 1 then h.basePriority else h.priority
    {
      yieldNow := false;
      if holder.Some? {
        var t := tasks[holder.value];
        assert tasks[holder.value].Holds(holder.value, state.tasks[holder.value]);
        StoreTask(holder.value, t.mutexesHeld - 1, t.mode);
        if t.priority != t.basePriority {
          if t.mutexesHeld == 0 {
            SetPriority(holder.value, t.basePriority);
            yieldNow := true;
          }
        }
      }
    }

    /** vTaskPriorityDisinheritAfterTimeout */
    method PriorityDisinheritAfterTimeout(holder: Option<TaskId>, highestWaiting: nat)
      requires Valid() && highestWaiting < MAX_PRIORITIES && (holder.Some? ==> holder.value in tasks)
      modifies this`ready, this`state, if holder.Some? then {tasks[holder.value]} else {}
      ensures Valid()
      ensures holder.None? ==> state == old(state)
      ensures holder.Some? ==>
        state == SetTask(old(state), holder.value, LoweredAfterTimeout(old(state).tasks[holder.value], highestWaiting))
      ensures holder.Some? ==>
        var h := old(state).tasks[holder.value];
        state.tasks[holder.value].priority ==
        if h.mutexesHeld != 1 then h.priority
        else if h.basePriority < highestWaiting then highestWaiting else h.basePriority
    {
      if holder.Some? {
        var t := tasks[holder.value];
        assert tasks[holder.value].Holds(holder.value, state.tasks[holder.value]);
        assert state == SetTask(state, holder.value, state.tasks[holder.value]);
        var use := if t.basePriority < highestWaiting then highestWaiting else t.basePriority;
        if t.priority != use {
          if t.mutexesHeld == 1 {
            SetPriority(holder.value, use);
          }
        }
      }
    }

    /** xTaskRemoveFromEventList, with the scheduler running; true when the woken task is above the running one. */
    method RemoveFromEventList(m: MutexId) returns (yieldNow: bool)
      requires Valid() && current in tasks && m in mutexes && mutexes[m].waiters != []
      requires WaitsFor(state, mutexes[m].waiters[0], m)
      modifies this`ready, this`state, mutexes[m], tasks[mutexes[m].waiters[0]]
      ensures Valid() && state == WakeFirst(old(state), m)
      ensures yieldNow <==> old(state.tasks[mutexes[m].waiters[0]].priority > state.tasks[current].priority)
    {
      var w := mutexes[m].waiters[0];
      assert tasks[w].Holds(w, state.tasks[w]) && tasks[current].Holds(current, state.tasks[current])
             && mutexes[m].Holds(m, state.mutexes[m]);
      yieldNow := tasks[w].priority > tasks[current].priority;
      StoreMutex(m, mutexes[m].messagesWaiting, mutexes[m].holder, mutexes[m].waiters[1..]);
      MakeTaskReady(w, Trying(m, tasks[w].mode.inherited));
    }

    /** The mutex is free: its count goes down and the running task becomes its holder. */
    method TakeFree(m: MutexId)
      requires Valid() && current in state.tasks && m in state.mutexes && state.mutexes[m].available
      requires CanRun(state.tasks[current])
      modifies this`state, tasks[current], mutexes[m]
      ensures Valid() && state == SetTask(SetMutex(old(state), m, Mutex(false, Some(current), old(state).mutexes[m].waiters)),
                current, old(state).tasks[current].(mutexesHeld := old(state).tasks[current].mutexesHeld + 1, mode := Idle))
    {
      hide ReadyOk, SetTask;
      assert tasks[current].Holds(current, state.tasks[current]) && mutexes[m].Holds(m, state.mutexes[m]);
      StoreMutex(m, mutexes[m].messagesWaiting - 1, Some(current), mutexes[m].waiters);
      assert tasks[current].Holds(current, state.tasks[current]);
      StoreTask(current, tasks[current].mutexesHeld + 1, Idle);
    }

    /** The critical section at the top of the loop of xQueueSemaphoreTake. */
    method TakeSection(m: MutexId) returns (taken: bool)
      requires Valid() && current in state.tasks && m in state.mutexes
      requires state.tasks[current].mode.Trying? && state.tasks[current].mode.m == m
      modifies this`state, tasks[current], mutexes[m]
      ensures Valid() && state == ApplyTryTake(old(state), current)
      ensures taken == old(state.mutexes[m].available)
    {
      hide ReadyOk, ApplyTryTake, SetTask, SetMutex;
      assert tasks[current].Holds(current, state.tasks[current]) && mutexes[m].Holds(m, state.mutexes[m]);
      TryTakeInTwoSteps(state, current, m);
      hide Tables;
      taken := mutexes[m].messagesWaiting > 0;
      if taken {
        TakeFree(m);
      } else {
        StoreTask(current, tasks[current].mutexesHeld, Checked(m, tasks[current].mode.inherited));
      }
    }

    /** vListInsert by the values of the event list items: in front of the first larger one. */
    function InsertItem(ws: seq<TaskId>, t: TaskId): seq<TaskId>
      requires t in tasks && forall w :: w in ws ==> w in tasks
      reads this, tasks.Values
    {
      if ws == [] || tasks[ws[0]].eventItemValue > tasks[t].eventItemValue then [t] + ws
      else [ws[0]] + InsertItem(ws[1..], t)
    }

    lemma {:induction false} InsertItemIsByPriority(ws: seq<TaskId>, t: TaskId)
      requires Tables() && t in tasks && forall w :: w in ws ==> w in tasks
      ensures InsertItem(ws, t) == InsertByPriority(ws, state.tasks, t)
      decreases ws
    {
      if ws != [] {
        assert tasks[ws[0]].Holds(ws[0], state.tasks[ws[0]]) && tasks[t].Holds(t, state.tasks[t]);
        InsertItemIsByPriority(ws[1..], t);
      }
    }

    /** vTaskPlaceOnEventList for the running task. */
    method PlaceOnEventList(m: MutexId, inherited: bool)
      requires Valid() && current in state.tasks && m in state.mutexes && CanRun(state.tasks[current])
      requires forall w :: w in state.mutexes[m].waiters ==> w in state.tasks
      modifies this`ready, this`state, tasks[current], mutexes[m]
      ensures Valid() && state == WithWaiter(old(state), current, m, inherited)
    {
      hide ReadyOk, InsertByPriority;
      assert tasks[current].Holds(current, state.tasks[current]) && mutexes[m].Holds(m, state.mutexes[m]);
      InsertItemIsByPriority(mutexes[m].waiters, current);
      StoreMutex(m, mutexes[m].messagesWaiting, mutexes[m].holder, InsertItem(mutexes[m].waiters, current));
      Block(current, Waiting(m, inherited));
    }

    /** Inheriting and going on the event list, with the scheduler suspended. */
    method WaitSection(m: MutexId)
      requires Valid() && current in state.tasks && m in state.mutexes
      requires state.tasks[current].mode.Checked? && state.tasks[current].mode.m == m
      requires state.mutexes[m].holder.Some? && state.mutexes[m].holder.value in state.tasks
      requires state.mutexes[m].holder.value != current
      requires forall w :: w in state.mutexes[m].waiters ==> w in state.tasks
      modifies this`ready, this`state, tasks[current], mutexes[m]
      modifies if mutexes[m].holder.Some? && mutexes[m].holder.value in tasks then {tasks[mutexes[m].holder.value]} else {}
      ensures Valid() && state == ApplyEnterWait(old(state), current)
    {
      hide ReadyOk, ApplyEnterWait, WithWaiter, Raised, InheritanceOccurred;
      assert mutexes[m].Holds(m, state.mutexes[m]) && tasks[current].Holds(current, state.tasks[current]);
      var occurred := PriorityInherit(mutexes[m].holder);
      EnterWaitInTwoSteps(old(state), current, m, state);
      PlaceOnEventList(m, occurred);
    }

    /** Handing the mutex back: prvCopyDataToQueue for a mutex. */
    method FreeMutex(m: MutexId) returns (yieldNow: bool)
      requires Valid() && current in state.tasks && m in state.mutexes && state.mutexes[m].holder == Some(current)
      requires state.tasks[current].mutexesHeld > 0
      modifies this`ready, this`state, tasks[current], mutexes[m]
      ensures Valid() && state == Freed(old(state), current, m)
      ensures yieldNow <==> Lowered(old(state).tasks[current]).priority != old(state).tasks[current].priority
    {
      hide ReadyOk, Freed, Lowered, SetTask, SetMutex;
      assert tasks[current].Holds(current, state.tasks[current]) && mutexes[m].Holds(m, state.mutexes[m]);
      FreeInTwoSteps(state, current, m);
      ghost var s0 := state;
      var holder := mutexes[m].holder;
      assert holder == Some(current);
      yieldNow := PriorityDisinherit(holder);
      ghost var s1 := SetTask(s0, current, Lowered(s0.tasks[current]));
      assert state == s1 && mutexes[m].Holds(m, s1.mutexes[m]);
      hide Tables;
      StoreMutex(m, mutexes[m].messagesWaiting + 1, None, mutexes[m].waiters);
      assert state == SetMutex(s1, m, Mutex(true, None, s0.mutexes[m].waiters));
    }

    /** The give path: the mutex is free again and its first waiter woken. */
    method GiveSection(m: MutexId) returns (yieldNow: bool)
      requires Valid() && current in state.tasks && m in state.mutexes && state.mutexes[m].holder == Some(current)
      requires state.tasks[current].mode.Idle? && state.tasks[current].mutexesHeld > 0
      requires state.mutexes[m].waiters != [] ==> WaitsFor(state, state.mutexes[m].waiters[0], m)
      modifies this`ready, this`state, tasks[current], mutexes[m]
      modifies if mutexes[m].waiters != [] && mutexes[m].waiters[0] in tasks then {tasks[mutexes[m].waiters[0]]} else {}
      ensures Valid() && state == ApplyGive(old(state), current, m)
      ensures yieldNow <==> SwitchRequested(old(state), current, m)
      ensures var s, ws := old(state), old(state).mutexes[m].waiters;
              current in state.tasks && (ws != [] ==> ws[0] in s.tasks) &&
              (yieldNow <==> if ws == [] then state.tasks[current].priority != s.tasks[current].priority
                             else s.tasks[ws[0]].priority > state.tasks[current].priority)
    {
      hide ReadyOk, Lowered, WakeFirst;
      assert mutexes[m].Holds(m, state.mutexes[m]);
      GiveInTwoSteps(state, current, m);
      yieldNow := FreeMutex(m);
      assert mutexes[m].Holds(m, state.mutexes[m]);
      if mutexes[m].waiters != [] {
        yieldNow := RemoveFromEventList(m);
      }
    }

    /** Undoing the inheritance after the wait has timed out, down to what the event list's head justifies. */
    method GiveUpSection(m: MutexId)
      requires Valid() && current in state.tasks && m in state.mutexes
      requires state.tasks[current].mode.GivingUp? && state.tasks[current].mode.m == m
      requires state.mutexes[m].holder.Some? ==> state.mutexes[m].holder.value in state.tasks
      requires state.mutexes[m].waiters != [] ==> state.mutexes[m].waiters[0] in state.tasks
      modifies this`ready, this`state, tasks[current]
      modifies if mutexes[m].holder.Some? && mutexes[m].holder.value in tasks then {tasks[mutexes[m].holder.value]} else {}
      ensures Valid() && state == ApplyUndo(old(state), current)
    {
      hide ReadyOk, ApplyUndo, LoweredAfterTimeout;
      assert mutexes[m].Holds(m, state.mutexes[m]);
      var mx := mutexes[m];
      if |mx.waiters| > 0 { assert tasks[mx.waiters[0]].Holds(mx.waiters[0], state.tasks[mx.waiters[0]]); }
      var highestWaiting := if |mx.waiters| > 0 then MAX_PRIORITIES - tasks[mx.waiters[0]].eventItemValue else 0;
      assert highestWaiting == HighestWaiting(state.tasks, state.mutexes[m].waiters);
      PriorityDisinheritAfterTimeout(mx.holder, highestWaiting);
      UndoInTwoSteps(old(state), current, m, state);
      assert tasks[current].Holds(current, state.tasks[current]);
      StoreTask(current, tasks[current].mutexesHeld, Idle);
    }
  }
}
