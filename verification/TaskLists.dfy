/** tasks.c: on which list a task's state list item is, from creation to clean-up. */

module TaskLists {
  import opened Basics
  import opened Ticks

  lemma {:induction false} WithoutItems(s: seq<TaskId>, t: TaskId)
    ensures multiset(Without(s, t)) == multiset(s) - multiset{t}
    ensures t in s ==> |Without(s, t)| == |s| - 1
    decreases s
  {
    if s != [] {
      assert s == [s[0]] + s[1..];
      if s[0] != t { WithoutItems(s[1..], t); }
    }
  }

  /** All items of several lists. */
  function All(lists: seq<seq<TaskId>>): multiset<TaskId> {
    if lists == [] then multiset{} else multiset(lists[0]) + All(lists[1..])
  }

  lemma {:induction false} AllUpdated(lists: seq<seq<TaskId>>, p: nat, s: seq<TaskId>)
    requires p < |lists|
    ensures multiset(lists[p]) <= All(lists)
    ensures All(lists[p := s]) == All(lists) - multiset(lists[p]) + multiset(s)
    decreases lists
  {
    if p > 0 {
      AllUpdated(lists[1..], p - 1, s);
      assert lists[p := s][1..] == lists[1..][p - 1 := s] && lists[p := s][0] == lists[0];
    } else {
      assert lists[p := s][1..] == lists[1..];
    }
  }

  lemma {:induction false} NoItems(lists: seq<seq<TaskId>>)
    requires forall p :: 0 <= p < |lists| ==> lists[p] == []
    ensures All(lists) == multiset{}
    decreases lists
  {
    if lists != [] { NoItems(lists[1..]); }
  }

  lemma {:induction false} InSome(lists: seq<seq<TaskId>>, t: TaskId)
    requires t in All(lists)
    ensures exists p :: 0 <= p < |lists| && t in lists[p]
    decreases lists
  {
    if t in lists[0] {
    } else {
      InSome(lists[1..], t);
      var p :| 0 <= p < |lists| - 1 && t in lists[1..][p];
      assert t in lists[p + 1];
    }
  }

  // ---- The five kinds of list ----

  datatype Lists = Lists(ready: seq<seq<TaskId>>, delayed: seq<TaskId>, overflow: seq<TaskId>,
                         suspended: seq<TaskId>, terminated: seq<TaskId>)

  /** Every state list item on any of the lists. */
  function Items(l: Lists): multiset<TaskId> {
    All(l.ready) + multiset(l.delayed) + multiset(l.overflow) + multiset(l.suspended) + multiset(l.terminated)
  }

  ghost predicate ReadyByPriority(ready: seq<seq<TaskId>>, priority: map<TaskId, nat>) {
    && |ready| == MAX_PRIORITIES
    && (forall t :: t in priority ==> priority[t] < MAX_PRIORITIES)
    && (forall p, t :: 0 <= p < |ready| && t in ready[p] ==> t in priority && priority[t] == p)
  }

  /** Each live task's item is on exactly one list, and ready tasks are on that of their priority. */
  ghost predicate Placed(l: Lists, priority: map<TaskId, nat>) {
    ReadyByPriority(l.ready, priority) && Items(l) == multiset(priority.Keys)
  }

  /** No ready list above `top` has a task on it. */
  ghost predicate TopBounds(ready: seq<seq<TaskId>>, top: nat) {
    top < MAX_PRIORITIES == |ready| && forall p :: top < p < |ready| ==> ready[p] == []
  }

  /** The lists with every task placed but one, whose item is on no list. */
  ghost predicate PlacedBut(l: Lists, priority: map<TaskId, nat>, t: TaskId) {
    ReadyByPriority(l.ready, priority) && t in priority && Items(l) == multiset(priority.Keys - {t})
  }

  /** uxListRemove on a state list item, from whichever list it is on. */
  function Taken(l: Lists, priority: map<TaskId, nat>, t: TaskId): (r: Lists)
    requires t in priority && priority[t] < |l.ready|
    ensures |r.ready| == |l.ready|
  {
    var p := priority[t];
    if t in l.ready[p] then l.(ready := l.ready[p := Without(l.ready[p], t)])
    else if t in l.delayed then l.(delayed := Without(l.delayed, t))
    else if t in l.overflow then l.(overflow := Without(l.overflow, t))
    else l.(suspended := Without(l.suspended, t))
  }

  /** The value of a task's state list item. */
  function ValueOf(values: map<TaskId, TickType>, t: TaskId): TickType {
    if t in values then values[t] else 0
  }

  /** The place vListInsert finds: in front of the first larger value. */
  function PlaceFor(s: seq<TaskId>, values: map<TaskId, TickType>, value: TickType): (place: nat)
    ensures place <= |s|
    ensures forall k :: 0 <= k < place ==> ValueOf(values, s[k]) <= value
    ensures place < |s| ==> value < ValueOf(values, s[place])
  {
    if s == [] || value < ValueOf(values, s[0]) then 0 else 1 + PlaceFor(s[1..], values, value)
  }

  /** A task's item put on a list at a place. */
  function PutAt(s: seq<TaskId>, place: nat, t: TaskId): seq<TaskId>
    requires place <= |s|
  {
    s[..place] + [t] + s[place..]
  }

  lemma PutAtItems(s: seq<TaskId>, place: nat, t: TaskId)
    requires place <= |s|
    ensures multiset(PutAt(s, place, t)) == multiset(s) + multiset{t}
  {
    assert s == s[..place] + s[place..];
  }

  /** prvAddTaskToReadyList */
  function Readied(l: Lists, priority: map<TaskId, nat>, t: TaskId): Lists
    requires t in priority && priority[t] < |l.ready|
  {
    l.(ready := l.ready[priority[t] := l.ready[priority[t]] + [t]])
  }

  /** The item of a live task that has not been deleted is on a list that tasks can be taken from. */
  lemma OnSomeList(l: Lists, priority: map<TaskId, nat>, t: TaskId)
    requires Placed(l, priority) && t in priority && t !in l.terminated
    ensures t in l.ready[priority[t]] || t in l.delayed || t in l.overflow || t in l.suspended
  {
    if t !in l.delayed && t !in l.overflow && t !in l.suspended {
      assert t in multiset(priority.Keys);
      assert t in All(l.ready);
      InSome(l.ready, t);
    }
  }

  lemma {:induction false} WithoutKeeps(s: seq<TaskId>, t: TaskId)
    ensures forall u :: u in Without(s, t) ==> u in s
    decreases s
  {
    if s != [] && s[0] != t { WithoutKeeps(s[1..], t); }
  }

  lemma TakenKeepsReady(l: Lists, priority: map<TaskId, nat>, t: TaskId)
    requires ReadyByPriority(l.ready, priority) && t in priority
    ensures ReadyByPriority(Taken(l, priority, t).ready, priority)
  {
    hide Without;
    WithoutKeeps(l.ready[priority[t]], t);
  }

  lemma MinusOne(a: multiset<TaskId>, x: multiset<TaskId>, t: TaskId)
    requires t in x
    ensures a + (x - multiset{t}) == (a + x) - multiset{t}
  {
  }

  /** One item fewer on one of the lists is one fewer on all of them. */
  lemma ReadyItems(l: Lists, ready: seq<seq<TaskId>>, t: TaskId)
    requires t in All(l.ready) && All(ready) == All(l.ready) - multiset{t}
    ensures Items(l.(ready := ready)) == Items(l) - multiset{t}
  {
    hide All;
    MinusOne(multiset(l.delayed) + multiset(l.overflow) + multiset(l.suspended) + multiset(l.terminated), All(l.ready), t);
  }

  lemma DelayedItems(l: Lists, s: seq<TaskId>, t: TaskId)
    requires t in l.delayed && multiset(s) == multiset(l.delayed) - multiset{t}
    ensures Items(l.(delayed := s)) == Items(l) - multiset{t}
  {
    hide All;
    MinusOne(All(l.ready) + multiset(l.overflow) + multiset(l.suspended) + multiset(l.terminated), multiset(l.delayed), t);
  }

  lemma OverflowItems(l: Lists, s: seq<TaskId>, t: TaskId)
    requires t in l.overflow && multiset(s) == multiset(l.overflow) - multiset{t}
    ensures Items(l.(overflow := s)) == Items(l) - multiset{t}
  {
    hide All;
    MinusOne(All(l.ready) + multiset(l.delayed) + multiset(l.suspended) + multiset(l.terminated), multiset(l.overflow), t);
  }

  lemma SuspendedItems(l: Lists, s: seq<TaskId>, t: TaskId)
    requires t in l.suspended && multiset(s) == multiset(l.suspended) - multiset{t}
    ensures Items(l.(suspended := s)) == Items(l) - multiset{t}
  {
    hide All;
    MinusOne(All(l.ready) + multiset(l.delayed) + multiset(l.overflow) + multiset(l.terminated), multiset(l.suspended), t);
  }

  lemma TakenItems(l: Lists, priority: map<TaskId, nat>, t: TaskId)
    requires Placed(l, priority) && t in priority && t !in l.terminated
    ensures Items(Taken(l, priority, t)) == Items(l) - multiset{t}
  {
    OnSomeList(l, priority, t);
    hide Without, All, Items;
    var p := priority[t];
    if t in l.ready[p] {
      WithoutItems(l.ready[p], t);
      AllUpdated(l.ready, p, Without(l.ready[p], t));
      OneOfAll(All(l.ready), multiset(l.ready[p]), t);
      ReadyItems(l, l.ready[p := Without(l.ready[p], t)], t);
    } else if t in l.delayed {
      WithoutItems(l.delayed, t);
      DelayedItems(l, Without(l.delayed, t), t);
    } else if t in l.overflow {
      WithoutItems(l.overflow, t);
      OverflowItems(l, Without(l.overflow, t), t);
    } else {
      WithoutItems(l.suspended, t);
      SuspendedItems(l, Without(l.suspended, t), t);
    }
  }

  lemma OneOfAll(all: multiset<TaskId>, part: multiset<TaskId>, t: TaskId)
    requires part <= all && t in part
    ensures t in all && all - part + (part - multiset{t}) == all - multiset{t}
  {
  }

  lemma TakenIsPlacedBut(l: Lists, priority: map<TaskId, nat>, t: TaskId)
    requires Placed(l, priority) && t in priority && t !in l.terminated
    ensures PlacedBut(Taken(l, priority, t), priority, t)
  {
    TakenKeepsReady(l, priority, t);
    TakenItems(l, priority, t);
    hide Items, Taken, ReadyByPriority;
    OneFewer(priority.Keys, t);
  }

  lemma OneFewer(s: set<TaskId>, t: TaskId)
    requires t in s
    ensures multiset(s - {t}) == multiset(s) - multiset{t} && multiset(s) == multiset(s - {t}) + multiset{t}
  {
    assert s == (s - {t}) + {t};
  }

  lemma ReadiedPlaces(l: Lists, priority: map<TaskId, nat>, t: TaskId)
    requires PlacedBut(l, priority, t)
    ensures Placed(Readied(l, priority, t), priority)
  {
    hide All;
    AllUpdated(l.ready, priority[t], l.ready[priority[t]] + [t]);
    OneFewer(priority.Keys, t);
  }

  lemma AddedPlaces(l: Lists, priority: map<TaskId, nat>, t: TaskId)
    requires PlacedBut(l, priority, t)
    ensures Placed(l.(suspended := l.suspended + [t]), priority)
    ensures Placed(l.(terminated := l.terminated + [t]), priority)
  {
    hide All, ReadyByPriority;
    OneFewer(priority.Keys, t);
  }

  lemma PutPlaces(l: Lists, priority: map<TaskId, nat>, t: TaskId, place: nat)
    requires PlacedBut(l, priority, t)
    ensures place <= |l.delayed| ==> Placed(l.(delayed := PutAt(l.delayed, place, t)), priority)
    ensures place <= |l.overflow| ==> Placed(l.(overflow := PutAt(l.overflow, place, t)), priority)
  {
    hide All, ReadyByPriority, PutAt;
    OneFewer(priority.Keys, t);
    if place <= |l.delayed| { PutAtItems(l.delayed, place, t); }
    if place <= |l.overflow| { PutAtItems(l.overflow, place, t); }
  }

  lemma ReadyOnlyTaken(l: Lists, priority: map<TaskId, nat>, t: TaskId)
    requires t in priority && priority[t] < |l.ready| && t in l.ready[priority[t]]
    ensures var r := Taken(l, priority, t);
            r.delayed == l.delayed && r.overflow == l.overflow && r.suspended == l.suspended && r.terminated == l.terminated
  {
  }

  lemma TakenBounds(l: Lists, priority: map<TaskId, nat>, t: TaskId, top: nat)
    requires TopBounds(l.ready, top) && t in priority && priority[t] < |l.ready|
    ensures TopBounds(Taken(l, priority, t).ready, top)
  {
    WithoutKeeps(l.ready[priority[t]], t);
    if priority[t] > top { assert l.ready[priority[t]] == []; }
  }

  lemma ReadiedBounds(l: Lists, priority: map<TaskId, nat>, t: TaskId, top: nat)
    requires TopBounds(l.ready, top) && t in priority && priority[t] < |l.ready|
    ensures TopBounds(Readied(l, priority, t).ready, if priority[t] > top then priority[t] else top)
  {
  }

  /** A task whose item is on no list is on no ready list. */
  lemma NotReady(l: Lists, priority: map<TaskId, nat>, t: TaskId)
    requires PlacedBut(l, priority, t)
    ensures forall p :: 0 <= p < |l.ready| ==> t !in l.ready[p]
  {
    forall p | 0 <= p < |l.ready| ensures t !in l.ready[p] {
      AllUpdated(l.ready, p, []);
      assert Items(l)[t] == 0 && multiset(l.ready[p])[t] <= All(l.ready)[t] <= Items(l)[t];
    }
  }

  lemma ForgottenPlaces(l: Lists, priority: map<TaskId, nat>, t: TaskId)
    requires PlacedBut(l, priority, t)
    ensures Placed(l, priority - {t}) && |priority - {t}| == |priority| - 1
  {
    NotReady(l, priority, t);
    hide Items, All;
    assert (priority - {t}).Keys == priority.Keys - {t};
    CountKeys(priority);
    CountKeys(priority - {t});
  }

  lemma CountKeys(m: map<TaskId, nat>)
    ensures |m| == |m.Keys|
  {
  }

  lemma NewIsPlacedBut(l: Lists, priority: map<TaskId, nat>, t: TaskId, p: nat)
    requires Placed(l, priority) && t !in priority && p < MAX_PRIORITIES
    ensures PlacedBut(l, priority[t := p], t) && |priority[t := p]| == |priority| + 1
  {
    hide Items;
    assert priority[t := p].Keys - {t} == priority.Keys && priority[t := p].Keys == priority.Keys + {t};
    CountKeys(priority);
    CountKeys(priority[t := p]);
  }

  lemma FirstTerminated(l: Lists, priority: map<TaskId, nat>)
    requires Placed(l, priority) && l.terminated != []
    ensures l.terminated[0] in priority
    ensures PlacedBut(l.(terminated := l.terminated[1..]), priority, l.terminated[0])
    ensures l.terminated[0] !in l.terminated[1..]
  {
    hide All, ReadyByPriority;
    var t := l.terminated[0];
    assert l.terminated == [t] + l.terminated[1..];
    assert t in Items(l);
    assert multiset(priority.Keys)[t] == 1;
    OneFewer(priority.Keys, t);
  }

  lemma Reprioritised(l: Lists, priority: map<TaskId, nat>, t: TaskId, p: nat)
    requires Placed(l, priority) && t in priority && p < MAX_PRIORITIES
    ensures t in l.ready[priority[t]] ==>
              t !in l.terminated && PlacedBut(Taken(l, priority, t), priority[t := p], t)
    ensures t !in l.ready[priority[t]] ==> Placed(l, priority[t := p])
    ensures |priority[t := p]| == |priority| && priority[t := p].Keys == priority.Keys
  {
    assert priority[t := p].Keys == priority.Keys;
    CountKeys(priority);
    CountKeys(priority[t := p]);
    if t in l.ready[priority[t]] {
      NotTerminated(l, priority, t);
      TakenIsPlacedBut(l, priority, t);
      NotReady(Taken(l, priority, t), priority, t);
    }
  }

  lemma NotTerminated(l: Lists, priority: map<TaskId, nat>, t: TaskId)
    requires Placed(l, priority) && t in priority && t in l.ready[priority[t]]
    ensures t !in l.terminated
  {
    AllUpdated(l.ready, priority[t], []);
    hide All, ReadyByPriority;
    assert multiset(priority.Keys)[t] == 1;
    assert 1 <= multiset(l.ready[priority[t]])[t] <= All(l.ready)[t];
  }

  // ---- Priorities given by hand ----

  /** What vTaskPrioritySet makes of a task's base priority and its priority, which may be an inherited one. */
  datatype Ranks = Ranks(base: nat, used: nat)

  function Reranked(r: Ranks, newPriority: nat): Ranks {
    if r.base == newPriority then r
    else Ranks(newPriority, if r.base == r.used then newPriority else r.used)
  }

  /** No task runs below its base priority, as inheritance would have it: given that before, it is kept exactly when the
      task is not running on an inherited priority, or the new base priority is not above that. */
  lemma NotBelowBase(r: Ranks, newPriority: nat)
    requires r.base <= r.used
    ensures var r' := Reranked(r, newPriority);
            r'.base <= r'.used <==> r.base == r.used || newPriority <= r.used
  {
  }

  /** A holder of base priority 1 that has inherited 3 is given 5: it goes on at 3. */
  lemma RaisedButHeldBack()
    ensures Reranked(Ranks(1, 3), 5) == Ranks(5, 3)
  {
  }

  lemma PriorityInRange(l: Lists, priority: map<TaskId, nat>, t: TaskId)
    requires Placed(l, priority) && t in priority
    ensures |l.ready| == MAX_PRIORITIES && priority[t] < MAX_PRIORITIES
  {
  }

  /** No ready task is above the running one. */
  ghost predicate NothingAbove(ready: seq<seq<TaskId>>, priority: map<TaskId, nat>, current: TaskId) {
    current in priority && forall p :: priority[current] < p < |ready| ==> ready[p] == []
  }

  lemma MovedUnder(l: Lists, before: map<TaskId, nat>, t: TaskId, p: nat, bound: nat)
    requires t in before && before[t] < |l.ready| && p < |l.ready| && p <= bound
    requires forall q :: bound < q < |l.ready| ==> l.ready[q] == []
    ensures var r := Readied(Taken(l, before, t), before[t := p], t);
            forall q :: bound < q < |r.ready| ==> r.ready[q] == []
  {
    WithoutKeeps(l.ready[before[t]], t);
  }

  /** vTaskPrioritySet asks for a yield in every case in which the change can put a ready task above the running one. */
  lemma NoYieldNothingAbove(l: Lists, priority: map<TaskId, nat>, t: TaskId, base: nat, p: nat, current: TaskId, yielding: bool)
    requires t in priority && priority[t] < |l.ready| && p < |l.ready|
    requires current in priority && p != base
    requires yielding == if p > base then t != current && p >= priority[current] else t == current
    ensures var after := priority[t := Reranked(Ranks(base, priority[t]), p).used];
            var moved := if t in l.ready[priority[t]] then Readied(Taken(l, priority, t), after, t) else l;
            NothingAbove(l.ready, priority, current) && !yielding ==> NothingAbove(moved.ready, after, current)
  {
    if NothingAbove(l.ready, priority, current) && !yielding && t in l.ready[priority[t]] {
      var used := Reranked(Ranks(base, priority[t]), p).used;
      MovedUnder(l, priority, t, used, if t == current then used else priority[current]);
    }
  }

  class TaskTable {
    var ready: seq<seq<TaskId>>
    var delayed: seq<TaskId>
    var overflow: seq<TaskId>
    var suspended: seq<TaskId>
    var waitingTermination: seq<TaskId>
    var priority: map<TaskId, nat>
    var basePriority: map<TaskId, nat>
    /** The values of the state list items and of the event list items. */
    var stateItemValue: map<TaskId, TickType>
    var eventItemValue: map<TaskId, TickType>
    var topReadyPriority: nat
    var currentNumberOfTasks: nat
    var deletedTasksWaitingCleanUp: nat

    function View(): Lists
      reads this
    {
      Lists(ready, delayed, overflow, suspended, waitingTermination)
    }

    /** Every task has its base priority and its event list item. */
    ghost predicate Recorded()
      reads `priority, `basePriority, `eventItemValue
    {
      forall t :: t in priority ==> t in basePriority && t in eventItemValue
    }

    ghost predicate Valid()
      reads this
    {
      && Placed(View(), priority)
      && TopBounds(ready, topReadyPriority)
      && currentNumberOfTasks == |priority|
      && deletedTasksWaitingCleanUp == |waitingTermination|
      && Recorded()
    }

    constructor ()
      ensures Valid() && priority == map[]
    {
      ready := seq(MAX_PRIORITIES, _ => []);
      delayed, overflow, suspended, waitingTermination := [], [], [], [];
      priority, topReadyPriority, currentNumberOfTasks, deletedTasksWaitingCleanUp := map[], 0, 0, 0;
      basePriority, stateItemValue, eventItemValue := map[], map[], map[];
      new;
      NoItems(ready);
    }

    /** uxListRemove on a task's state list item: off the one list it is on. */
    method RemoveStateItem(t: TaskId)
      requires Placed(View(), priority) && TopBounds(ready, topReadyPriority) && t in priority
      requires t !in waitingTermination
      modifies this`ready, this`delayed, this`overflow, this`suspended
      ensures PlacedBut(View(), priority, t) && View() == Taken(old(View()), priority, t)
      ensures TopBounds(ready, topReadyPriority)
    {
      TakenIsPlacedBut(View(), priority, t);
      TakenBounds(View(), priority, t, topReadyPriority);
      hide Items, Without, PlacedBut, TopBounds;
      var p := priority[t];
      if t in ready[p] {
        ready := ready[p := Without(ready[p], t)];
      } else if t in delayed {
        delayed := Without(delayed, t);
      } else if t in overflow {
        overflow := Without(overflow, t);
      } else {
        suspended := Without(suspended, t);
      }
    }

    /** prvAddTaskToReadyList */
    method AddToReadyList(t: TaskId)
      requires PlacedBut(View(), priority, t) && TopBounds(ready, topReadyPriority)
      modifies this`ready, this`topReadyPriority
      ensures Placed(View(), priority) && View() == Readied(old(View()), priority, t)
              && TopBounds(ready, topReadyPriority)
      ensures priority[t] < |old(ready)| && ready == old(ready)[priority[t] := old(ready)[priority[t]] + [t]]
      ensures unchanged(`delayed, `overflow, `suspended, `waitingTermination)
    {
      ReadiedPlaces(View(), priority, t);
      ReadiedBounds(View(), priority, t, topReadyPriority);
      hide Items, Placed, TopBounds;
      if priority[t] > topReadyPriority {
        topReadyPriority := priority[t];
      }
      ready := ready[priority[t] := ready[priority[t]] + [t]];
    }

    /** The search of taskSELECT_HIGHEST_PRIORITY_TASK: down from uxTopReadyPriority to the first list with a task on it.
        That some task is ready, the source only asserts. */
    method SelectHighestPriority() returns (top: nat)
      requires Valid() && exists p :: 0 <= p < |ready| && ready[p] != []
      modifies this`topReadyPriority
      ensures Valid() && topReadyPriority == top < |ready| && ready[top] != []
      ensures forall p, t :: 0 <= p < |ready| && t in ready[p] ==> t in priority && priority[t] <= top
    {
      hide Items;
      top := topReadyPriority;
      while ready[top] == []
        invariant TopBounds(ready, top)
        decreases top
      {
        if top == 0 {
          assert false;
        }
        top := top - 1;
      }
      topReadyPriority := top;
    }

    /** A deleted task is no longer counted. */
    method Forget(t: TaskId)
      requires PlacedBut(View(), priority, t) && TopBounds(ready, topReadyPriority)
      requires currentNumberOfTasks == |priority| && Recorded()
      modifies this`currentNumberOfTasks, this`priority
      ensures Placed(View(), priority) && priority == old(priority) - {t} && currentNumberOfTasks == |priority|
      ensures Recorded()
    {
      ForgottenPlaces(View(), priority, t);
      hide Items, Placed, PlacedBut, TopBounds;
      currentNumberOfTasks := currentNumberOfTasks - 1;
      priority := priority - {t};
    }

    /** prvAddNewTaskToReadyList */
    method Create(t: TaskId, p: nat)
      requires Valid() && t !in priority && p < MAX_PRIORITIES
      modifies this
      ensures Valid() && priority == old(priority)[t := p] && View() == Readied(old(View()), priority, t)
      ensures p < |old(ready)| && ready == old(ready)[p := old(ready)[p] + [t]]
      ensures basePriority == old(basePriority)[t := p] && eventItemValue == old(eventItemValue)[t := MAX_PRIORITIES - p]
    {
      NewIsPlacedBut(View(), priority, t, p);
      hide Items, Placed, PlacedBut, TopBounds;
      currentNumberOfTasks := currentNumberOfTasks + 1;
      priority := priority[t := p];
      basePriority := basePriority[t := p];
      eventItemValue := eventItemValue[t := MAX_PRIORITIES - p];
      AddToReadyList(t);
    }

    /** vTaskDelete: the running task only joins the termination list; any other is gone at once. */
    method Delete(t: TaskId, current: TaskId)
      requires Valid() && t in priority && t !in waitingTermination
      modifies this
      ensures Valid() && priority == if t == current then old(priority) else old(priority) - {t}
      ensures priority.Keys <= old(priority).Keys && |old(View()).ready| == MAX_PRIORITIES
              && old(priority[t]) < MAX_PRIORITIES
      ensures var left := Taken(old(View()), old(priority), t);
              View() == if t == current then left.(terminated := left.terminated + [t]) else left
    {
      hide Items, PlacedBut, Taken, TopBounds;
      RemoveStateItem(t);
      hide Placed;
      if t == current {
        AddedPlaces(View(), priority, t);
        waitingTermination := waitingTermination + [t];
        deletedTasksWaitingCleanUp := deletedTasksWaitingCleanUp + 1;
      } else {
        Forget(t);
      }
    }

    /** The head of the termination list is freed. */
    method FreeFirst()
      requires Valid() && waitingTermination != []
      modifies this`waitingTermination, this`deletedTasksWaitingCleanUp, this`currentNumberOfTasks, this`priority
      ensures Valid() && waitingTermination == old(waitingTermination)[1..]
      ensures priority == old(priority) - {old(waitingTermination)[0]}
      ensures old(waitingTermination)[0] !in waitingTermination
    {
      hide Items, Placed, PlacedBut, TopBounds, Recorded;
      var t := waitingTermination[0];
      FirstTerminated(View(), priority);
      waitingTermination := waitingTermination[1..];
      deletedTasksWaitingCleanUp := deletedTasksWaitingCleanUp - 1;
      Forget(t);
    }

    /** prvCheckTasksWaitingTermination: the idle task frees what has been deleted. */
    method CheckTasksWaitingTermination()
      requires Valid()
      modifies this
      ensures Valid() && deletedTasksWaitingCleanUp == 0 && View() == old(View()).(terminated := [])
      ensures forall t :: t in priority <==> t in old(priority) && t !in old(waitingTermination)
    {
      hide Items, Placed, PlacedBut, TopBounds, Recorded;
      while deletedTasksWaitingCleanUp > 0
        invariant Valid() && View() == old(View()).(terminated := waitingTermination)
        invariant forall t :: t in waitingTermination ==> t in old(waitingTermination)
        invariant forall t :: t in priority <==> t in old(priority) && (t !in old(waitingTermination) || t in waitingTermination)
        decreases deletedTasksWaitingCleanUp
      {
        ghost var list := waitingTermination;
        assert list == [list[0]] + list[1..];
        FreeFirst();
      }
    }

    /** vTaskSuspend */
    method Suspend(t: TaskId)
      requires Valid() && t in priority && t !in waitingTermination
      modifies this
      ensures Valid() && priority == old(priority) && |old(View()).ready| == MAX_PRIORITIES
              && priority[t] < MAX_PRIORITIES
      ensures var left := Taken(old(View()), priority, t); View() == left.(suspended := left.suspended + [t])
    {
      hide Items, PlacedBut, Taken, TopBounds;
      RemoveStateItem(t);
      AddedPlaces(View(), priority, t);
      suspended := suspended + [t];
    }

    /** vTaskResume on a suspended task, and the unblocking of a delayed one. */
    method MakeReady(t: TaskId)
      requires Valid() && t in priority && t !in waitingTermination
      modifies this
      ensures Valid() && priority == old(priority) && |old(View()).ready| == MAX_PRIORITIES
              && priority[t] < MAX_PRIORITIES
      ensures var left := Taken(old(View()), priority, t); var p := priority[t];
              View() == left.(ready := left.ready[p := left.ready[p] + [t]])
    {
      hide Items, Taken, TopBounds;
      RemoveStateItem(t);
      AddToReadyList(t);
    }

    /** prvAddCurrentTaskToDelayedList, for the running task, which is ready: to the suspended list for an unlimited wait,
        else to the place of its wake time on the current delayed list or, when that has wrapped, on the other. */
    method Block(t: TaskId, ticksToWait: TickType, canBlockIndefinitely: bool, tickCount: TickType)
      requires Valid() && t in priority && priority[t] < |ready| && t in ready[priority[t]]
      modifies this
      ensures Valid() && priority == old(priority)
      ensures var left, wake := Taken(old(View()), priority, t), AddTicks(tickCount, ticksToWait);
              View() ==
              if ticksToWait == PORT_MAX_DELAY && canBlockIndefinitely then left.(suspended := left.suspended + [t])
              else if tickCount + ticksToWait < TICK_MODULUS
              then
                var place := PlaceFor(left.delayed, old(stateItemValue), wake);
                left.(delayed := left.delayed[..place] + [t] + left.delayed[place..])
              else
                var place := PlaceFor(left.overflow, old(stateItemValue), wake);
                left.(overflow := left.overflow[..place] + [t] + left.overflow[place..])
      ensures !(ticksToWait == PORT_MAX_DELAY && canBlockIndefinitely) ==>
                stateItemValue == old(stateItemValue)[t := AddTicks(tickCount, ticksToWait)]
    {
      AddTicksWraps(tickCount, ticksToWait);
      hide Items, PlacedBut, Placed, TopBounds, Taken, AddTicks;
      NotTerminated(View(), priority, t);
      ReadyOnlyTaken(View(), priority, t);
      RemoveStateItem(t);
      AddedPlaces(View(), priority, t);
      if ticksToWait == PORT_MAX_DELAY && canBlockIndefinitely {
        suspended := suspended + [t];
      } else {
        var timeToWake := AddTicks(tickCount, ticksToWait);
        if timeToWake < tickCount {
          var place := PlaceFor(overflow, stateItemValue, timeToWake);
          PutPlaces(View(), priority, t, place);
          overflow := PutAt(overflow, place, t);
        } else {
          var place := PlaceFor(delayed, stateItemValue, timeToWake);
          PutPlaces(View(), priority, t, place);
          delayed := PutAt(delayed, place, t);
        }
        stateItemValue := stateItemValue[t := timeToWake];
      }
    }

    /** taskSWITCH_DELAYED_LISTS */
    method SwitchDelayedLists()
      requires Valid()
      modifies this
      ensures Valid() && priority == old(priority)
      ensures View() == old(View()).(delayed := old(overflow), overflow := old(delayed))
    {
      hide All, ReadyByPriority;
      delayed, overflow := overflow, delayed;
    }

    /** A ready task given another priority changes lists, to the end of the new one. */
    method MoveToPriority(t: TaskId, p: nat)
      requires Placed(View(), priority) && TopBounds(ready, topReadyPriority) && p < MAX_PRIORITIES
      requires t in priority && priority[t] < |ready| && t in ready[priority[t]]
      modifies this`ready, this`delayed, this`overflow, this`suspended, this`priority, this`topReadyPriority
      ensures Placed(View(), priority) && TopBounds(ready, topReadyPriority) && priority == old(priority)[t := p]
      ensures View() == Readied(Taken(old(View()), old(priority), t), priority, t)
      ensures ready[p] != [] && ready[p][|ready[p]| - 1] == t
    {
      Reprioritised(View(), priority, t, p);
      hide Items, Placed, PlacedBut, Taken, TopBounds;
      RemoveStateItem(t);
      priority := priority[t := p];
      AddToReadyList(t);
    }

    /** Giving a task another priority, as inheritance and vTaskPrioritySet do: only a ready task changes lists. */
    method SetPriority(t: TaskId, p: nat)
      requires Valid() && t in priority && p < MAX_PRIORITIES
      modifies this`ready, this`delayed, this`overflow, this`suspended, this`priority, this`topReadyPriority
      ensures Valid() && priority == old(priority)[t := p]
      ensures |old(ready)| == MAX_PRIORITIES && old(priority[t]) < MAX_PRIORITIES
      ensures View() ==
              if t in old(ready[priority[t]]) then Readied(Taken(old(View()), old(priority), t), priority, t) else old(View())
      ensures t in old(ready[priority[t]]) ==> |ready| == MAX_PRIORITIES && ready[p] != [] && ready[p][|ready[p]| - 1] == t
    {
      Reprioritised(View(), priority, t, p);
      PriorityInRange(View(), priority, t);
      hide Items, Placed, PlacedBut, Taken, TopBounds, Readied;
      if t in ready[priority[t]] {
        MoveToPriority(t, p);
      } else {
        priority := priority[t := p];
      }
    }

    /** The second half of vTaskPrioritySet, for a base priority that changes. */
    method Rerank(t: TaskId, p: nat)
      requires Valid() && t in priority && p < MAX_PRIORITIES && t in basePriority && basePriority[t] != p
      requires t in eventItemValue
      modifies this
      ensures Valid()
      ensures var r := Reranked(Ranks(old(basePriority[t]), old(priority[t])), p);
              && basePriority == old(basePriority)[t := p] && priority == old(priority)[t := r.used]
              && r.used == (if old(basePriority[t]) == old(priority[t]) then p else old(priority[t]))
              && eventItemValue ==
                 if old(eventItemValue[t]) >= ITEM_VALUE_IN_USE then old(eventItemValue)
                 else old(eventItemValue)[t := MAX_PRIORITIES - p]
      ensures |old(ready)| == MAX_PRIORITIES && old(priority[t]) < MAX_PRIORITIES
      ensures View() ==
              if t in old(ready[priority[t]]) then Readied(Taken(old(View()), old(priority), t), priority, t) else old(View())
    {
      hide Items, Placed, PlacedBut, Taken, TopBounds;
      PriorityInRange(View(), priority, t);
      var used := if basePriority[t] == priority[t] then p else priority[t];
      basePriority := basePriority[t := p];
      if eventItemValue[t] < ITEM_VALUE_IN_USE {
        eventItemValue := eventItemValue[t := MAX_PRIORITIES - p];
      }
      assert Recorded();
      SetPriority(t, used);
    }

    /** vTaskPrioritySet. Unless it asks for a yield, nothing ready is above the running task if nothing was before. */
    method PrioritySet(t: TaskId, newPriority: nat, current: TaskId) returns (yieldRequired: bool)
      requires Valid() && t in priority && current in priority
      modifies this
      ensures Valid() && t in old(basePriority) && t in old(eventItemValue)
      ensures |old(ready)| == MAX_PRIORITIES && old(priority[t]) < MAX_PRIORITIES
      ensures var p := if newPriority >= MAX_PRIORITIES then MAX_PRIORITIES - 1 else newPriority;
              var r := Reranked(Ranks(old(basePriority[t]), old(priority[t])), p);
              if old(basePriority[t]) == p then
                unchanged(`priority, `basePriority, `eventItemValue) && View() == old(View()) && !yieldRequired
              else
                && basePriority == old(basePriority)[t := p] && priority == old(priority)[t := r.used]
                && r.used == (if old(basePriority[t]) == old(priority[t]) then p else old(priority[t]))
                && (yieldRequired <==> if p > old(basePriority[t]) then t != current && p >= old(priority[current]) else t == current)
                && eventItemValue == (if old(eventItemValue[t]) >= ITEM_VALUE_IN_USE then old(eventItemValue)
                                      else old(eventItemValue)[t := MAX_PRIORITIES - p])
                && View() == if t in old(ready[priority[t]]) then Readied(Taken(old(View()), old(priority), t), priority, t)
                             else old(View())
      ensures old(NothingAbove(ready, priority, current)) && !yieldRequired ==> NothingAbove(ready, priority, current)
    {
      PriorityInRange(View(), priority, t);
      assert t in basePriority && t in eventItemValue;
      hide Items, Placed, PlacedBut, Taken, TopBounds, Recorded, Readied;
      yieldRequired := false;
      var p := if newPriority >= MAX_PRIORITIES then MAX_PRIORITIES - 1 else newPriority;
      var base := basePriority[t];
      if base != p {
        if p > base {
          if t != current && p >= priority[current] {
            yieldRequired := true;
          }
        } else if t == current {
          yieldRequired := true;
        }
        NoYieldNothingAbove(View(), priority, t, base, p, current, yieldRequired);
        Rerank(t, p);
      }
    }
  }
}
