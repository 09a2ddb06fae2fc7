/** Mutexes with priority inheritance: xQueueSemaphoreTake and the give path of queue.c together with the three
    inheritance functions of tasks.c, as a state machine whose steps are the critical sections and
    scheduler-suspended sections of the source. */

module PriorityInheritance {
  import opened Basics

  datatype Option<+T> = None | Some(value: T)

  type MutexId = nat

  /** Where a task is inside (or outside) xQueueSemaphoreTake; `inherited` is its local xInheritanceOccurred. */
  datatype Mode =
    | Idle
    | Asleep
    | Trying(m: MutexId, inherited: bool)    // about to enter the critical section at the top of the loop
    | Checked(m: MutexId, inherited: bool)   // has seen the mutex taken, about to suspend the scheduler
    | Waiting(m: MutexId, inherited: bool)   // on the mutex's event list
    | Expired(m: MutexId, inherited: bool)   // timed out, about to look at the mutex once more
    | GivingUp(m: MutexId)                   // timed out for good, about to undo the inheritance

  datatype Task = Task(priority: nat, basePriority: nat, mutexesHeld: nat, mode: Mode)
  /** `waiters` is the event list, in list order. The item of a task is part of its control block and is valued by the
      task's priority of the moment, so a change of priority changes the value but not the place. */
  datatype Mutex = Mutex(available: bool, holder: Option<TaskId>, waiters: seq<TaskId>)
  datatype State = State(tasks: map<TaskId, Task>, mutexes: map<MutexId, Mutex>)

  // ---- The three inheritance functions ----

  /** xTaskPriorityInherit: the holder is raised to the caller's priority. */
  function Raised(holder: Task, caller: nat): Task {
    if holder.priority < caller then holder.(priority := caller) else holder
  }

  /** Its result: whether the holder now runs on an inherited priority because of, or at least up to, the caller. */
  function InheritanceOccurred(holder: Task, caller: nat): bool {
    holder.priority < caller || holder.basePriority < caller
  }

  /** xTaskPriorityDisinherit: one mutex fewer, and back to the base priority once none is held. */
  function Lowered(t: Task): Task
    requires t.mutexesHeld > 0
  {
    var t1 := t.(mutexesHeld := t.mutexesHeld - 1);
    if t1.priority != t1.basePriority && t1.mutexesHeld == 0 then t1.(priority := t1.basePriority) else t1
  }

  /** vTaskPriorityDisinheritAfterTimeout: down to what the remaining waiters justify, but only with one mutex held. */
  function LoweredAfterTimeout(t: Task, highestWaiting: nat): Task {
    var use := if t.basePriority < highestWaiting then highestWaiting else t.basePriority;
    if t.priority != use && t.mutexesHeld == 1 then t.(priority := use) else t
  }

  function PriorityOf(tasks: map<TaskId, Task>, t: TaskId): nat {
    if t in tasks then tasks[t].priority else 0
  }

  /** vListInsert on an event list: in front of the first task that is less urgent. */
  function InsertByPriority(ws: seq<TaskId>, tasks: map<TaskId, Task>, t: TaskId): seq<TaskId> {
    if ws == [] || PriorityOf(tasks, ws[0]) < PriorityOf(tasks, t) then [t] + ws
    else [ws[0]] + InsertByPriority(ws[1..], tasks, t)
  }

  /** prvGetDisinheritPriorityAfterTimeout: read off the head of the event list. */
  function HighestWaiting(tasks: map<TaskId, Task>, waiters: seq<TaskId>): nat {
    if waiters == [] then 0 else PriorityOf(tasks, waiters[0])
  }

  // ---- Steps ----

  datatype Step =
    | BeginTake(t: TaskId, m: MutexId)
    | TryTake(t: TaskId)
    | ReturnEmpty(t: TaskId)
    | EnterWait(t: TaskId)
    | Retry(t: TaskId)
    | TimeOut(t: TaskId)
    | FinishExpired(t: TaskId)
    | UndoInheritance(t: TaskId)
    | WaitEnds(t: TaskId)
    | Give(t: TaskId, m: MutexId)
    | Sleep(t: TaskId)
    | Wake(t: TaskId)

  predicate CanRun(t: Task) {
    !t.mode.Waiting? && !t.mode.Asleep?
  }

  /** t is a task the scheduler could be running: nothing runnable is above it. */
  ghost predicate Scheduled(s: State, t: TaskId) {
    t in s.tasks && CanRun(s.tasks[t]) &&
    forall u :: u in s.tasks && CanRun(s.tasks[u]) ==> s.tasks[u].priority <= s.tasks[t].priority
  }

  /** When a step can happen, whoever is running. A task gives only what it holds and does not take what it holds; it may
      wait and sleep while it holds other mutexes. */
  ghost predicate Enabled(s: State, e: Step) {
    e.t in s.tasks &&
    var mode := s.tasks[e.t].mode;
    (mode.Trying? || mode.Checked? || mode.Waiting? || mode.Expired? || mode.GivingUp? ==> mode.m in s.mutexes) &&
    match e
    case BeginTake(t, m) => mode.Idle? && m in s.mutexes && s.mutexes[m].holder != Some(t)
    case TryTake(t) => mode.Trying?
    case ReturnEmpty(t) => mode.Checked?
    case EnterWait(t) => mode.Checked? && !s.mutexes[mode.m].available
    case Retry(t) => mode.Checked? && s.mutexes[mode.m].available
    case TimeOut(t) => mode.Checked?
    case FinishExpired(t) => mode.Expired?
    case UndoInheritance(t) => mode.GivingUp?
    case WaitEnds(t) => mode.Waiting?
    case Give(t, m) => mode.Idle? && m in s.mutexes && s.mutexes[m].holder == Some(t) && s.tasks[t].mutexesHeld > 0
    case Sleep(t) => mode.Idle?
    case Wake(t) => mode.Asleep?
  }

  function SetMode(s: State, t: TaskId, mode: Mode): State
    requires t in s.tasks
  {
    s.(tasks := s.tasks[t := s.tasks[t].(mode := mode)])
  }

  function SetTask(s: State, t: TaskId, r: Task): State {
    s.(tasks := s.tasks[t := r])
  }

  function SetMutex(s: State, m: MutexId, r: Mutex): State {
    s.(mutexes := s.mutexes[m := r])
  }

  /** The critical section at the top of the loop. */
  function ApplyTryTake(s: State, t: TaskId): State
    requires t in s.tasks && s.tasks[t].mode.Trying? && s.tasks[t].mode.m in s.mutexes
  {
    var m, inherited := s.tasks[t].mode.m, s.tasks[t].mode.inherited;
    if s.mutexes[m].available then
      SetMutex(SetTask(s, t, s.tasks[t].(mode := Idle, mutexesHeld := s.tasks[t].mutexesHeld + 1)),
               m, s.mutexes[m].(available := false, holder := Some(t)))
    else SetMode(s, t, Checked(m, inherited))
  }

  /** The section with the scheduler suspended in which the task inherits and goes on the event list. */
  function ApplyEnterWait(s: State, t: TaskId): State
    requires t in s.tasks && s.tasks[t].mode.Checked? && s.tasks[t].mode.m in s.mutexes
  {
    var m, p := s.tasks[t].mode.m, s.tasks[t].priority;
    var mx := s.mutexes[m];
    var known := mx.holder.Some? && mx.holder.value in s.tasks;
    var inherited := known && InheritanceOccurred(s.tasks[mx.holder.value], p);
    var s1 := if known then SetTask(s, mx.holder.value, Raised(s.tasks[mx.holder.value], p)) else s;
    SetMode(SetMutex(s1, m, mx.(waiters := InsertByPriority(mx.waiters, s1.tasks, t))), t, Waiting(m, inherited))
  }

  /** xTaskRemoveFromEventList on the mutex's list. */
  function WakeFirst(s: State, m: MutexId): State
    requires m in s.mutexes
  {
    var ws := s.mutexes[m].waiters;
    if ws == [] || ws[0] !in s.tasks then s
    else
      var w := ws[0];
      var inherited := s.tasks[w].mode.Waiting? && s.tasks[w].mode.inherited;
      SetMode(SetMutex(s, m, s.mutexes[m].(waiters := ws[1..])), w, Trying(m, inherited))
  }

  /** Giving the mutex: disinherit, clear the holder, wake the first waiter. */
  function ApplyGive(s: State, t: TaskId, m: MutexId): State
    requires t in s.tasks && m in s.mutexes && s.tasks[t].mutexesHeld > 0
  {
    var s1 := SetTask(s, t, Lowered(s.tasks[t]));
    WakeFirst(SetMutex(s1, m, s.mutexes[m].(available := true, holder := None)), m)
  }

  /** Whether the give path asks for a context switch: if a waiter was woken only its priority counts, and not that the
      giver has just dropped below others. */
  function SwitchRequested(s: State, t: TaskId, m: MutexId): bool
    requires t in s.tasks && m in s.mutexes && s.tasks[t].mutexesHeld > 0
  {
    var ws, now := s.mutexes[m].waiters, Lowered(s.tasks[t]).priority;
    if ws != [] && ws[0] in s.tasks then s.tasks[ws[0]].priority > now else now != s.tasks[t].priority
  }

  function ApplyUndo(s: State, t: TaskId): State
    requires t in s.tasks && s.tasks[t].mode.GivingUp? && s.tasks[t].mode.m in s.mutexes
  {
    var mx := s.mutexes[s.tasks[t].mode.m];
    var s1 := if mx.holder.Some? && mx.holder.value in s.tasks
              then SetTask(s, mx.holder.value, LoweredAfterTimeout(s.tasks[mx.holder.value], HighestWaiting(s.tasks, mx.waiters)))
              else s;
    SetMode(s1, t, Idle)
  }

  function Apply(s: State, e: Step): State
    requires Enabled(s, e)
  {
    var mode := s.tasks[e.t].mode;
    match e
    case BeginTake(t, m) => SetMode(s, t, Trying(m, false))
    case TryTake(t) => ApplyTryTake(s, t)
    case ReturnEmpty(t) => SetMode(s, t, Idle)
    case EnterWait(t) => ApplyEnterWait(s, t)
    case Retry(t) => SetMode(s, t, Trying(mode.m, mode.inherited))
    case TimeOut(t) => SetMode(s, t, Expired(mode.m, mode.inherited))
    case FinishExpired(t) =>
      if s.mutexes[mode.m].available then SetMode(s, t, Trying(mode.m, mode.inherited))
      else if mode.inherited then SetMode(s, t, GivingUp(mode.m))
      else SetMode(s, t, Idle)
    case UndoInheritance(t) => ApplyUndo(s, t)
    case WaitEnds(t) =>
      var mx := s.mutexes[mode.m];
      SetMode(SetMutex(s, mode.m, mx.(waiters := Without(mx.waiters, t))), t, Trying(mode.m, mode.inherited))
    case Give(t, m) => ApplyGive(s, t, m)
    case Sleep(t) => SetMode(s, t, Asleep)
    case Wake(t) => SetMode(s, t, Idle)
  }

  // ---- Parts of steps ----

  /** t joins the event list of m. */
  function WithWaiter(s: State, t: TaskId, m: MutexId, inherited: bool): State
    requires t in s.tasks && m in s.mutexes
  {
    SetMode(SetMutex(s, m, s.mutexes[m].(waiters := InsertByPriority(s.mutexes[m].waiters, s.tasks, t))), t, Waiting(m, inherited))
  }

  /** t leaves the event list of m, to try again. */
  function WithoutWaiter(s: State, t: TaskId, m: MutexId, inherited: bool): State
    requires t in s.tasks && m in s.mutexes
  {
    SetMode(SetMutex(s, m, s.mutexes[m].(waiters := Without(s.mutexes[m].waiters, t))), t, Trying(m, inherited))
  }

  /** The mutex is free and its giver has disinherited; nobody has been woken yet. */
  function Freed(s: State, t: TaskId, m: MutexId): State
    requires t in s.tasks && m in s.mutexes && s.tasks[t].mutexesHeld > 0
  {
    SetMutex(SetTask(s, t, Lowered(s.tasks[t])), m, s.mutexes[m].(available := true, holder := None))
  }

  // ---- Runs ----

  /** Nothing held, nothing waited for, every task at its own priority. */
  ghost predicate Initial(s: State) {
    && (forall t :: t in s.tasks ==> s.tasks[t].priority == s.tasks[t].basePriority < MAX_PRIORITIES
                                     && s.tasks[t].mutexesHeld == 0 && s.tasks[t].mode == Idle)
    && (forall m :: m in s.mutexes ==> s.mutexes[m] == Mutex(true, None, []))
  }

  ghost predicate RunEnabled(s: State, es: seq<Step>)
    decreases es
  {
    es != [] ==> Enabled(s, es[0]) && RunEnabled(Apply(s, es[0]), es[1..])
  }

  ghost function Run(s: State, es: seq<Step>): State
    requires RunEnabled(s, es)
    decreases es
  {
    if es == [] then s else Run(Apply(s, es[0]), es[1..])
  }

  // ---- Invariants ----

  /** The mutexes that name t as their holder. */
  function HeldBy(s: State, t: TaskId): set<MutexId> {
    set m | m in s.mutexes && s.mutexes[m].holder == Some(t)
  }

  ghost predicate TaskOk(s: State, t: TaskId)
    requires t in s.tasks
  {
    var k := s.tasks[t];
    && k.basePriority <= k.priority < MAX_PRIORITIES
    && k.mutexesHeld == |HeldBy(s, t)|
    && (k.mutexesHeld == 0 ==> k.priority == k.basePriority)
    && (!k.mode.Idle? && !k.mode.Asleep? ==> k.mode.m in s.mutexes && s.mutexes[k.mode.m].holder != Some(t))
    && (k.mode.Waiting? ==> t in s.mutexes[k.mode.m].waiters)
  }

  /** t waits for m. */
  predicate WaitsFor(s: State, t: TaskId, m: MutexId) {
    t in s.tasks && s.tasks[t].mode.Waiting? && s.tasks[t].mode.m == m
  }

  /** The event list of a mutex has its waiters on it, each once. */
  ghost predicate MutexOk(s: State, m: MutexId)
    requires m in s.mutexes
  {
    var mx := s.mutexes[m];
    && (mx.available <==> mx.holder.None?)
    && (mx.holder.Some? ==> mx.holder.value in s.tasks)
    && NoDup(mx.waiters) && forall w :: w in mx.waiters ==> WaitsFor(s, w, m)
  }

  /** An event list in order of priority. */
  ghost predicate Descending(ws: seq<TaskId>, tasks: map<TaskId, Task>) {
    |ws| > 1 ==> PriorityOf(tasks, ws[0]) >= PriorityOf(tasks, ws[1]) && Descending(ws[1..], tasks)
  }

  /** No inversion: whoever holds m runs at the priority of its most urgent waiter, or above. */
  ghost predicate NoInversion(s: State, m: MutexId)
    requires m in s.mutexes
  {
    var h := s.mutexes[m].holder;
    h.Some? && h.value in s.tasks ==> forall w :: WaitsFor(s, w, m) ==> s.tasks[w].priority <= s.tasks[h.value].priority
  }

  /** w can take m next and is as urgent as everything still waiting for it. */
  ghost predicate Heir(s: State, m: MutexId, w: TaskId) {
    && w in s.tasks && s.tasks[w].mode.Trying? && s.tasks[w].mode.m == m
    && forall u :: WaitsFor(s, u, m) ==> s.tasks[u].priority <= s.tasks[w].priority
  }

  /** While m is free and has waiters, a woken task stands ready to take it. */
  ghost predicate HasHeir(s: State, m: MutexId)
    requires m in s.mutexes
  {
    s.mutexes[m].available && s.mutexes[m].waiters != [] ==> exists w :: Heir(s, m, w)
  }

  /** The bookkeeping: counts, base priorities and who is on which event list. */
  ghost predicate Booked(s: State) {
    && (forall t :: t in s.tasks ==> TaskOk(s, t))
    && (forall m :: m in s.mutexes ==> MutexOk(s, m))
  }

  /** Everything but the heirs. */
  ghost predicate Core(s: State) {
    Booked(s) && forall m :: m in s.mutexes ==> NoInversion(s, m) && Descending(s.mutexes[m].waiters, s.tasks)
  }

  ghost predicate Inv(s: State) {
    Core(s) && forall m :: m in s.mutexes ==> HasHeir(s, m)
  }

  // ---- Changing the priority of a task in line ----

  /** A step that changes the priority of a task which is itself in line for a mutex: it raises one that waits on an event
      list, or it lowers one that does, or one that has been woken to take a free mutex and was the last to be as urgent
      as those still waiting for it. The source changes the priority and the item's value, but neither moves the item nor
      passes the change on. */
  ghost predicate Disturbs(s: State, e: Step)
    requires Enabled(s, e)
  {
    (e.EnterWait? || e.UndoInheritance?) &&
    var m := s.tasks[e.t].mode.m;
    var h := s.mutexes[m].holder;
    h.Some? && h.value in s.tasks &&
    var k := s.tasks[h.value];
    if e.EnterWait? then k.mode.Waiting? && Raised(k, s.tasks[e.t].priority) != k
    else
      var r := LoweredAfterTimeout(k, HighestWaiting(s.tasks, s.mutexes[m].waiters));
      r != k && (k.mode.Waiting? || LosesHeir(s, h.value, r))
  }

  /** Without t as it was, a free mutex that t is about to take is left to its waiters. */
  ghost predicate LosesHeir(s: State, t: TaskId, r: Task)
    requires t in s.tasks
  {
    var mode := s.tasks[t].mode;
    mode.Trying? && mode.m in s.mutexes && !HasHeir(SetTask(s, t, r), mode.m)
  }

  // ---- Event lists ----

  lemma {:induction false} InsertMembers(ws: seq<TaskId>, tasks: map<TaskId, Task>, t: TaskId)
    requires NoDup(ws) && t !in ws
    ensures NoDup(InsertByPriority(ws, tasks, t))
    ensures forall u :: u in InsertByPriority(ws, tasks, t) <==> u in ws || u == t
    decreases ws
  {
    if !(ws == [] || PriorityOf(tasks, ws[0]) < PriorityOf(tasks, t)) {
      InsertMembers(ws[1..], tasks, t);
    }
  }

  lemma {:induction false} InsertKeepsDescending(ws: seq<TaskId>, tasks: map<TaskId, Task>, t: TaskId)
    requires Descending(ws, tasks)
    ensures Descending(InsertByPriority(ws, tasks, t), tasks)
    ensures var r := InsertByPriority(ws, tasks, t);
            r != [] && r[0] == if ws == [] || PriorityOf(tasks, ws[0]) < PriorityOf(tasks, t) then t else ws[0]
    decreases ws
  {
    if !(ws == [] || PriorityOf(tasks, ws[0]) < PriorityOf(tasks, t)) {
      InsertKeepsDescending(ws[1..], tasks, t);
      assert InsertByPriority(ws, tasks, t)[1..] == InsertByPriority(ws[1..], tasks, t);
    }
  }

  lemma {:induction false} RemoveKeepsDescending(ws: seq<TaskId>, tasks: map<TaskId, Task>, t: TaskId)
    requires Descending(ws, tasks)
    ensures Descending(Without(ws, t), tasks)
    ensures Without(ws, t) != [] ==> ws != [] && PriorityOf(tasks, ws[0]) >= PriorityOf(tasks, Without(ws, t)[0])
    decreases ws
  {
    if ws != [] && ws[0] != t {
      RemoveKeepsDescending(ws[1..], tasks, t);
      assert Without(ws, t)[1..] == Without(ws[1..], t);
    }
  }

  /** The order depends only on the priorities of the tasks listed. */
  lemma {:induction false} DescendingFrame(ws: seq<TaskId>, tasks: map<TaskId, Task>, tasks': map<TaskId, Task>)
    requires Descending(ws, tasks) && forall w :: w in ws ==> PriorityOf(tasks', w) == PriorityOf(tasks, w)
    ensures Descending(ws, tasks')
    decreases ws
  {
    if ws != [] {
      DescendingFrame(ws[1..], tasks, tasks');
    }
  }

  lemma {:induction false} InsertFrame(ws: seq<TaskId>, tasks: map<TaskId, Task>, tasks': map<TaskId, Task>, t: TaskId)
    requires PriorityOf(tasks', t) == PriorityOf(tasks, t)
    requires forall w :: w in ws ==> PriorityOf(tasks', w) == PriorityOf(tasks, w)
    ensures InsertByPriority(ws, tasks', t) == InsertByPriority(ws, tasks, t)
    decreases ws
  {
    if ws != [] {
      InsertFrame(ws[1..], tasks, tasks', t);
    }
  }

  /** The head of the event list is a task of the highest priority among those waiting. */
  lemma {:induction false} HeadIsMostUrgent(ws: seq<TaskId>, tasks: map<TaskId, Task>, t: TaskId)
    requires Descending(ws, tasks) && t in ws
    ensures PriorityOf(tasks, t) <= PriorityOf(tasks, ws[0])
    decreases ws
  {
    if ws[0] != t {
      HeadIsMostUrgent(ws[1..], tasks, t);
    }
  }

  // ---- Counting mutexes ----

  lemma HolderHoldsOne(s: State, m: MutexId)
    requires m in s.mutexes && s.mutexes[m].holder.Some?
    ensures |HeldBy(s, s.mutexes[m].holder.value)| > 0
  {
    assert m in HeldBy(s, s.mutexes[m].holder.value);
  }

  lemma TwoMutexesHeld(s: State, t: TaskId, m: MutexId, m': MutexId)
    requires m in HeldBy(s, t) && m' in HeldBy(s, t) && m != m'
    ensures |HeldBy(s, t)| >= 2
  {
    assert |{m, m'}| <= |HeldBy(s, t)| by {
      SubsetIsSmaller({m, m'}, HeldBy(s, t));
    }
  }

  lemma {:induction false} SubsetIsSmaller(a: set<MutexId>, b: set<MutexId>)
    requires a <= b
    ensures |a| <= |b|
    decreases a
  {
    if x :| x in a {
      SubsetIsSmaller(a - {x}, b - {x});
    }
  }
}
