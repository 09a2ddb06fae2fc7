/** tasks.c: the tick, the two delayed-task lists that are swapped when the tick wraps, and time outs.
    Every method is specified on the unbounded deadline queue that the lists stand for. */

module DelayLists {
  import opened Basics
  import opened Ticks
  import opened ItemLists
  import opened DeadlineQueues

  /** The items of a 32-bit list placed in unbounded time. */
  function Unwrap<T>(s: seq<Item<T>>, base: nat): seq<Item<T>> {
    if s == [] then [] else [Item(base + s[0].value, s[0].owner)] + Unwrap(s[1..], base)
  }

  /** The unbounded queue that a pair of 32-bit lists stands for, `base` being the tick of the last wrap. */
  function Merge<T>(d: seq<Item<T>>, o: seq<Item<T>>, base: nat, tick: TickType): DeadlineQueue<T> {
    DeadlineQueue(base + tick, Unwrap(d, base) + Unwrap(o, base + TICK_MODULUS))
  }

  /** Every item of the overflow list lies after every wake time of the current epoch. */
  lemma {:induction false} OverflowIsLater<T>(o: seq<Item<T>>, base: nat)
    ensures Unwrap(o, base + TICK_MODULUS) != [] ==>
              o != [] && Unwrap(o, base + TICK_MODULUS)[0].value == base + TICK_MODULUS + o[0].value
  {
  }

  lemma {:induction false} UnwrapInsert<T>(s: seq<Item<T>>, x: Item<T>, base: nat)
    ensures Unwrap(InsertSorted(s, x), base) == InsertSorted(Unwrap(s, base), Item(base + x.value, x.owner))
  {
    if !(s == [] || x.value < s[0].value) {
      UnwrapInsert(s[1..], x, base);
    }
  }

  /** A wake time before the wrap, inserted into the current list, blocks the task in unbounded time. */
  lemma {:induction false} InsertBeforeWrap<T>(d: seq<Item<T>>, o: seq<Item<T>>, base: nat, tick: TickType, t: T, wait: nat)
    requires tick + wait < TICK_MODULUS
    ensures Merge(InsertSorted(d, Item(tick + wait, t)), o, base, tick) == Block(Merge(d, o, base, tick), t, wait)
  {
    var u, x := Unwrap(o, base + TICK_MODULUS), Item(base + tick + wait, t);
    UnwrapInsert(d, Item(tick + wait, t), base);
    OverflowIsLater(o, base);
    InsertIntoFront(Unwrap(d, base), u, x);
  }

  lemma {:induction false} InsertIntoFront<T>(a: seq<Item<T>>, b: seq<Item<T>>, x: Item<T>)
    requires b != [] ==> x.value < b[0].value
    ensures InsertSorted(a + b, x) == InsertSorted(a, x) + b
  {
    if a == [] {
      assert a + b == b;
    } else {
      assert (a + b)[1..] == a[1..] + b;
      if x.value >= a[0].value {
        InsertIntoFront(a[1..], b, x);
      }
    }
  }

  /** A wake time after the wrap goes into the overflow list. */
  lemma {:induction false} InsertAfterWrap<T>(d: seq<Item<T>>, o: seq<Item<T>>, base: nat, tick: TickType, t: T, wait: nat)
    requires AllBelow(d, TICK_MODULUS) && tick + wait >= TICK_MODULUS
    ensures Merge(d, InsertSorted(o, Item(tick + wait - TICK_MODULUS, t)), base, tick)
            == Block(Merge(d, o, base, tick), t, wait)
  {
    UnwrapInsert(o, Item(tick + wait - TICK_MODULUS, t), base + TICK_MODULUS);
    InsertIntoBack(d, base, Unwrap(o, base + TICK_MODULUS), Item(base + tick + wait, t));
  }

  /** The 32-bit comparison of wake time and tick picks the list that blocks the task for `wait` unbounded ticks. */
  lemma {:induction false} InsertByWakeTime<T>(d: seq<Item<T>>, o: seq<Item<T>>, base: nat, tick: TickType, t: T, wait: TickType)
    requires AllBelow(d, TICK_MODULUS) && AllBelow(o, TICK_MODULUS) && Ascending(Merge(d, o, base, tick).items)
    ensures var x := Item(AddTicks(tick, wait), t);
            && AllBelow(InsertSorted(d, x), TICK_MODULUS) && AllBelow(InsertSorted(o, x), TICK_MODULUS)
            && InsertSorted(d, x) != [] && (InsertSorted(d, x)[0] == x || (d != [] && InsertSorted(d, x)[0] == d[0]))
            && if x.value < tick
               then Merge(d, InsertSorted(o, x), base, tick) == Block(Merge(d, o, base, tick), t, wait)
               else Merge(InsertSorted(d, x), o, base, tick) == Block(Merge(d, o, base, tick), t, wait)
  {
    var x := Item(AddTicks(tick, wait), t);
    AddTicksWraps(tick, wait);
    InsertKeepsBelow(d, x, TICK_MODULUS);
    InsertKeepsBelow(o, x, TICK_MODULUS);
    if x.value < tick {
      InsertAfterWrap(d, o, base, tick, t, wait);
    } else {
      InsertBeforeWrap(d, o, base, tick, t, wait);
    }
  }

  lemma {:induction false} InsertIntoBack<T>(d: seq<Item<T>>, base: nat, b: seq<Item<T>>, x: Item<T>)
    requires AllBelow(d, TICK_MODULUS) && x.value >= base + TICK_MODULUS
    ensures InsertSorted(Unwrap(d, base) + b, x) == Unwrap(d, base) + InsertSorted(b, x)
  {
    if d == [] {
      assert Unwrap(d, base) + b == b;
    } else {
      var head, rest := [Item(base + d[0].value, d[0].owner)], Unwrap(d[1..], base);
      assert Unwrap(d, base) == head + rest;
      assert (head + rest) + b == head + (rest + b) && (head + (rest + b))[1..] == rest + b;
      InsertIntoBack(d[1..], base, b, x);
      assert InsertSorted(head + (rest + b), x) == head + InsertSorted(rest + b, x);
      assert head + (rest + InsertSorted(b, x)) == (head + rest) + InsertSorted(b, x);
    }
  }

  /** Removing an item from the list it is on removes it from the unbounded queue. */
  lemma {:induction false} RemoveFromMerge<T>(d: seq<Item<T>>, o: seq<Item<T>>, base: nat, tick: TickType, t: T)
    ensures HasOwner(d, t) ==> Unblock(Merge(d, o, base, tick), t) == Merge(RemoveOwner(d, t), o, base, tick)
    ensures !HasOwner(d, t) ==> Unblock(Merge(d, o, base, tick), t) == Merge(d, RemoveOwner(o, t), base, tick)
    ensures HasOwner(Merge(d, o, base, tick).items, t) <==> HasOwner(d, t) || HasOwner(o, t)
  {
    UnwrapRemove(d, base, t);
    UnwrapRemove(o, base + TICK_MODULUS, t);
    if HasOwner(d, t) {
      RemoveFromFront(Unwrap(d, base), Unwrap(o, base + TICK_MODULUS), t);
    } else {
      RemoveFromBack(Unwrap(d, base), Unwrap(o, base + TICK_MODULUS), t);
    }
  }

  lemma {:induction false} RemoveFromFront<T>(a: seq<Item<T>>, b: seq<Item<T>>, t: T)
    requires HasOwner(a, t)
    ensures HasOwner(a + b, t) && RemoveOwner(a + b, t) == RemoveOwner(a, t) + b
  {
    assert (a + b)[1..] == a[1..] + b;
    if a[0].owner != t {
      RemoveFromFront(a[1..], b, t);
    }
  }

  lemma {:induction false} RemoveFromBack<T>(a: seq<Item<T>>, b: seq<Item<T>>, t: T)
    requires !HasOwner(a, t)
    ensures (HasOwner(a + b, t) <==> HasOwner(b, t)) && RemoveOwner(a + b, t) == a + RemoveOwner(b, t)
  {
    if a == [] {
      assert a + b == b;
    } else {
      assert (a + b)[1..] == a[1..] + b;
      RemoveFromBack(a[1..], b, t);
      assert a + RemoveOwner(b, t) == [a[0]] + (a[1..] + RemoveOwner(b, t));
    }
  }

  lemma {:induction false} UnwrapRemove<T>(s: seq<Item<T>>, base: nat, t: T)
    ensures Unwrap(RemoveOwner(s, t), base) == RemoveOwner(Unwrap(s, base), t)
    ensures HasOwner(s, t) <==> HasOwner(Unwrap(s, base), t)
  {
    if s != [] {
      UnwrapRemove(s[1..], base, t);
    }
  }

  lemma {:induction false} CurrentListAscending<T>(d: seq<Item<T>>, o: seq<Item<T>>, base: nat, tick: TickType)
    requires Ascending(Merge(d, o, base, tick).items)
    ensures Ascending(d)
  {
    if |d| > 1 {
      var items := Merge(d, o, base, tick).items;
      assert items[1..] == Merge(d[1..], o, base, tick).items;
      assert items[0].value <= items[1].value;
      CurrentListAscending(d[1..], o, base, tick);
    }
  }

  /** When the head of the current list is not due, nothing in either list is. */
  lemma {:induction false} NothingDue<T>(d: seq<Item<T>>, o: seq<Item<T>>, base: nat, tick: TickType)
    requires d != [] ==> tick < d[0].value
    ensures var items := Merge(d, o, base, tick).items;
            Due(items, base + tick) == [] && NotDue(items, base + tick) == items
  {
  }

  /** A due head of the current list is the head of the unbounded queue. */
  lemma {:induction false} HeadDue<T>(d: seq<Item<T>>, o: seq<Item<T>>, base: nat, tick: TickType)
    requires d != [] && d[0].value <= tick
    ensures var items, rest := Merge(d, o, base, tick).items, Merge(d[1..], o, base, tick).items;
            Owners(Due(items, base + tick)) == [d[0].owner] + Owners(Due(rest, base + tick)) &&
            NotDue(items, base + tick) == NotDue(rest, base + tick)
  {
    var items, rest := Merge(d, o, base, tick).items, Merge(d[1..], o, base, tick).items;
    assert items[1..] == rest;
    assert Due(items, base + tick) == [items[0]] + Due(rest, base + tick);
  }

  lemma {:induction false} ItemBehind<T>(a: seq<Item<T>>, b: seq<Item<T>>, x: Item<T>)
    requires HasItem(b, x)
    ensures HasItem(a + b, x)
  {
    if a == [] {
      assert a + b == b;
    } else {
      assert (a + b)[1..] == a[1..] + b;
      ItemBehind(a[1..], b, x);
    }
  }

  /** Why a wait of no ticks is excluded at the very last tick before the wrap: its item is still on the current list
      at the swap, and comes due only two whole wraps later. */
  lemma {:induction false} NoWaitAtLastTickIsLate<T>(o: seq<Item<T>>, base: nat, t: T)
    ensures var x := Item(AddTicks(PORT_MAX_DELAY, 0), t);
            && !(x.value < PORT_MAX_DELAY)
            && HasItem(Merge([x], o, base, PORT_MAX_DELAY).items, Item(base + PORT_MAX_DELAY, t))
            && HasItem(Merge(o, [x], base + TICK_MODULUS, 0).items, Item(base + PORT_MAX_DELAY + 2 * TICK_MODULUS, t))
  {
    var x := Item(AddTicks(PORT_MAX_DELAY, 0), t);
    var late := Item(base + PORT_MAX_DELAY + 2 * TICK_MODULUS, t);
    assert Unwrap([x], base)[0] == Item(base + PORT_MAX_DELAY, t);
    assert Unwrap([x], base + TICK_MODULUS + TICK_MODULUS)[0] == late;
    ItemBehind(Unwrap(o, base + TICK_MODULUS), Unwrap([x], base + TICK_MODULUS + TICK_MODULUS), late);
  }

  lemma {:induction false} ReplayOne<T>(r: seq<T>, q: DeadlineQueue<T>, n: nat)
    requires n > 0
    ensures r + WokenByMany(q, n) == (r + WokenBy(q)) + WokenByMany(Advance(q), n - 1)
  {
    assert WokenByMany(q, n) == WokenBy(q) + WokenByMany(Advance(q), n - 1);
  }

  lemma SameQueue<T>(a: DeadlineQueue<T>, b: DeadlineQueue<T>)
    requires a.now == b.now && a.items == b.items
    ensures a == b
  {
  }

  lemma NobodyWoken<T>(due: seq<Item<T>>, readied: seq<T>)
    requires due == []
    ensures readied + Owners(due) == readied
  {
  }

  /** Nothing can be later than the last tick before the wrap. */
  lemma NothingAfterLastTick<T>(d: seq<Item<T>>, tick: TickType)
    requires AllBelow(d, TICK_MODULUS) && (d != [] ==> tick < d[0].value)
    ensures tick == PORT_MAX_DELAY ==> d == []
  {
  }

  lemma UnblockFirst<T>(q: DeadlineQueue<T>, ts: seq<T>)
    requires ts != []
    ensures UnblockAll(q, ts) == UnblockAll(Unblock(q, ts[0]), ts[1..])
  {
  }

  lemma UnblockNone<T>(q: DeadlineQueue<T>)
    ensures UnblockAll(q, []) == q
  {
  }

  /** One of the tasks has at least the priority of the running one. */
  ghost predicate Preempts<T>(priority: T -> nat, current: T, ts: seq<T>) {
    exists t :: t in ts && priority(t) >= priority(current)
  }

  lemma PreemptsEither<T>(priority: T -> nat, current: T, a: seq<T>, b: seq<T>)
    ensures Preempts(priority, current, a + b) <==> Preempts(priority, current, a) || Preempts(priority, current, b)
  {
    if t :| t in a && priority(t) >= priority(current) { assert t in a + b; }
    if t :| t in b && priority(t) >= priority(current) { assert t in a + b; }
  }

  lemma PreemptsOne<T>(priority: T -> nat, current: T, t: T)
    ensures Preempts(priority, current, [t]) <==> priority(t) >= priority(current)
    ensures !Preempts(priority, current, [])
  {
    assert t in [t];
  }

  lemma PreemptsAt<T>(priority: T -> nat, current: T, ts: seq<T>)
    ensures Preempts(priority, current, ts) <==> exists k :: 0 <= k < |ts| && priority(ts[k]) >= priority(current)
  {
    if t :| t in ts && priority(t) >= priority(current) {
      var k :| 0 <= k < |ts| && ts[k] == t;
    }
    if k :| 0 <= k < |ts| && priority(ts[k]) >= priority(current) { assert ts[k] in ts; }
  }

  /** What is left of a set of tasks. */
  ghost function LeftOver<T>(ts: set<T>, gone: seq<T>): set<T> {
    set t | t in ts && t !in gone
  }

  lemma LeftOverIs<T>(ts: set<T>, gone: seq<T>)
    ensures forall t :: t in LeftOver(ts, gone) <==> t in ts && t !in gone
  {
  }

  lemma LeftOverBoth<T>(ts: set<T>, a: seq<T>, b: seq<T>)
    ensures LeftOver(LeftOver(ts, a), b) == LeftOver(ts, a + b) && LeftOver(ts, []) == ts
  {
  }

  lemma LeftOverOne<T>(ts: set<T>, t: T)
    ensures LeftOver(ts, [t]) == ts - {t}
  {
  }

  class DelayScheduler<T(==)> {
    var tickCount: TickType
    var numOfOverflows: TickType
    var nextTaskUnblockTime: TickType
    var pendedTicks: TickType
    var schedulerSuspended: nat
    var delayedList: seq<Item<T>>
    var overflowList: seq<Item<T>>
    var suspendedList: seq<T>
    var pendingReadyList: seq<T>
    /** The tasks given to prvAddTaskToReadyList, in order. */
    var readied: seq<T>
    /** pxCurrentTCB, the priorities of the tasks, and whether a context switch is outstanding. */
    var current: T
    var priority: T -> nat
    var yieldPending: bool
    /** The tasks whose event list item is on the event list of some object. */
    var onEventList: set<T>
    /** How often the tick has wrapped, never reduced modulo 2^32. */
    ghost var epoch: nat

    ghost function Base(): nat
      reads this
    {
      epoch * TICK_MODULUS
    }

    /** The unbounded queue that the two 32-bit lists stand for. */
    ghost function Queue(): DeadlineQueue<T>
      reads this
    {
      Merge(delayedList, overflowList, Base(), tickCount)
    }

    ghost predicate InRange()
      reads this
    {
      && numOfOverflows == epoch % TICK_MODULUS
      && AllBelow(delayedList, TICK_MODULUS)
      && AllBelow(overflowList, TICK_MODULUS)
    }

    /** nextTaskUnblockTime is never later than the head of the current list. */
    ghost predicate UnblockTimeSound()
      reads this
    {
      delayedList != [] ==> nextTaskUnblockTime <= delayedList[0].value
    }

    ghost predicate Valid()
      reads this
    {
      && InRange()
      && Wf(Queue())
      && UnblockTimeSound()
      // At the last tick before the wrap nothing may be left for this epoch.
      && (tickCount == PORT_MAX_DELAY ==> delayedList == [])
    }

    constructor (current: T, priority: T -> nat)
      ensures Valid() && Queue() == DeadlineQueue(0, [])
      ensures this.current == current && this.priority == priority && !yieldPending && onEventList == {}
      ensures schedulerSuspended == 0 && pendedTicks == 0
      ensures suspendedList == [] && pendingReadyList == [] && readied == []
    {
      tickCount, numOfOverflows, nextTaskUnblockTime := 0, 0, 0;
      pendedTicks, schedulerSuspended := 0, 0;
      delayedList, overflowList := [], [];
      suspendedList, pendingReadyList, readied := [], [], [];
      this.current, this.priority, yieldPending, onEventList := current, priority, false, {};
      epoch := 0;
      new;
      assert Queue().items == [];
    }

    /** prvResetNextTaskUnblockTime */
    method ResetNextTaskUnblockTime()
      requires InRange()
      modifies `nextTaskUnblockTime
      ensures delayedList == [] ==> nextTaskUnblockTime == PORT_MAX_DELAY
      ensures delayedList != [] ==> nextTaskUnblockTime == delayedList[0].value
    {
      if delayedList == [] {
        nextTaskUnblockTime := PORT_MAX_DELAY;
      } else {
        nextTaskUnblockTime := delayedList[0].value;
      }
    }

    /** taskSWITCH_DELAYED_LISTS; that the current list is empty is what the source only asserts. */
    method SwitchDelayedLists()
      requires InRange() && delayedList == []
      modifies `delayedList, `overflowList, `numOfOverflows, `nextTaskUnblockTime, `epoch
      ensures InRange() && epoch == old(epoch) + 1
      ensures delayedList == old(overflowList) && overflowList == []
      ensures delayedList != [] ==> nextTaskUnblockTime == delayedList[0].value
    {
      var temp := delayedList;
      delayedList := overflowList;
      overflowList := temp;
      numOfOverflows := AddTicks(numOfOverflows, 1);
      epoch := epoch + 1;
      ResetNextTaskUnblockTime();
    }

    /** The first half of xTaskIncrementTick: the tick moves on, with the lists swapped at the wrap, and no item
        changes its place in unbounded time. */
    method StepTickCount()
      requires Valid()
      modifies `tickCount, `delayedList, `overflowList, `numOfOverflows, `nextTaskUnblockTime, `epoch
      ensures InRange() && UnblockTimeSound()
      ensures Queue() == old(Queue()).(now := old(Queue()).now + 1)
    {
      ghost var q0 := Queue();
      var constTickCount := AddTicks(tickCount, 1);
      tickCount := constTickCount;
      if constTickCount == 0 {
        SwitchDelayedLists();
      }
      assert Queue().items == q0.items;
    }

    /** The for(;;) loop of xTaskIncrementTick. */
    method DrainExpired() returns (switchRequired: bool)
      requires InRange()
      modifies `delayedList, `nextTaskUnblockTime, `readied, `onEventList
      ensures InRange() && UnblockTimeSound()
      ensures Queue().items == NotDue(old(Queue()).items, Queue().now)
      ensures readied == old(readied) + Owners(Due(old(Queue()).items, Queue().now))
      ensures onEventList == LeftOver(old(onEventList), Owners(Due(old(Queue()).items, Queue().now)))
      ensures switchRequired <==> Preempts(priority, current, Owners(Due(old(Queue()).items, Queue().now)))
      ensures delayedList != [] ==> tickCount < delayedList[0].value
    {
      hide Due, NotDue, Owners, Unwrap, Preempts, LeftOver;
      ghost var q0 := Queue();
      switchRequired := false;
      while true
        invariant InRange()
        invariant NotDue(Queue().items, q0.now) == NotDue(q0.items, q0.now)
        invariant readied + Owners(Due(Queue().items, q0.now)) == old(readied) + Owners(Due(q0.items, q0.now))
        invariant LeftOver(onEventList, Owners(Due(Queue().items, q0.now)))
                  == LeftOver(old(onEventList), Owners(Due(q0.items, q0.now)))
        invariant switchRequired || Preempts(priority, current, Owners(Due(Queue().items, q0.now)))
                  <==> Preempts(priority, current, Owners(Due(q0.items, q0.now)))
        decreases |delayedList|
      {
        if delayedList == [] {
          nextTaskUnblockTime := PORT_MAX_DELAY;
          break;
        }
        var itemValue := delayedList[0].value;
        if tickCount < itemValue {
          nextTaskUnblockTime := itemValue;
          break;
        }
        HeadDue(delayedList, overflowList, Base(), tickCount);
        var t := delayedList[0].owner;
        ghost var rest := Owners(Due(Merge(delayedList[1..], overflowList, Base(), tickCount).items, q0.now));
        assert readied + ([t] + rest) == (readied + [t]) + rest;
        PreemptsEither(priority, current, [t], rest);
        PreemptsOne(priority, current, t);
        LeftOverBoth(onEventList, [t], rest);
        LeftOverOne(onEventList, t);
        delayedList := delayedList[1..];
        onEventList := onEventList - {t};
        readied := readied + [t];
        if priority(t) >= priority(current) {
          switchRequired := true;
        }
      }
      NothingDue(delayedList, overflowList, Base(), tickCount);
      NobodyWoken(Due(Queue().items, q0.now), readied);
      PreemptsOne(priority, current, current);
      LeftOverBoth(onEventList, [], []);
    }

    /** xTaskIncrementTick with the scheduler running: exactly one step of unbounded time, and a switch exactly when a
        woken task preempts the running one, when that one shares its priority, or when one was outstanding. */
    method ProcessTick(sharesPriority: bool) returns (switchRequired: bool)
      requires Valid() && schedulerSuspended == 0
      modifies `tickCount, `delayedList, `overflowList, `numOfOverflows, `nextTaskUnblockTime, `epoch, `readied, `onEventList
      ensures Valid()
      ensures Queue() == Advance(old(Queue()))
      ensures readied == old(readied) + WokenBy(old(Queue()))
      ensures onEventList == LeftOver(old(onEventList), WokenBy(old(Queue())))
      ensures switchRequired <==>
                Preempts(priority, current, WokenBy(old(Queue()))) || sharesPriority || yieldPending
      ensures forall t :: t in onEventList <==> t in old(onEventList) && t !in WokenBy(old(Queue()))
      ensures switchRequired <==>
                || sharesPriority || yieldPending
                || exists k :: 0 <= k < |WokenBy(old(Queue()))| && priority(WokenBy(old(Queue()))[k]) >= priority(current)
    {
      hide Ascending, DistinctOwners, Due, NotDue, Unwrap, AllBelow, Owners, AllAtLeast, Preempts, LeftOver;
      ghost var q0 := Queue();
      AdvanceKeepsWf(q0);
      switchRequired := false;
      StepTickCount();
      if tickCount >= nextTaskUnblockTime {
        switchRequired := DrainExpired();
      } else {
        NothingDue(delayedList, overflowList, Base(), tickCount);
        NobodyWoken(Due(Queue().items, Queue().now), readied);
        PreemptsOne(priority, current, current);
        LeftOverBoth(onEventList, [], []);
      }
      NothingAfterLastTick(delayedList, tickCount);
      SameQueue(Queue(), Advance(q0));
      if sharesPriority {
        switchRequired := true;
      }
      if yieldPending {
        switchRequired := true;
      }
      PreemptsAt(priority, current, WokenBy(q0));
      LeftOverIs(old(onEventList), WokenBy(q0));
    }

    /** xTaskIncrementTick: with the scheduler suspended the tick is only counted. `sharesPriority` says whether more
        than one task is ready at the running priority before the tick. */
    method IncrementTick(sharesPriority: bool) returns (switchRequired: bool)
      requires Valid()
      modifies `tickCount, `delayedList, `overflowList, `numOfOverflows, `nextTaskUnblockTime, `epoch, `readied, `onEventList,
               `pendedTicks
      ensures Valid()
      ensures schedulerSuspended == 0 ==>
                && Queue() == Advance(old(Queue())) && readied == old(readied) + WokenBy(old(Queue()))
                && onEventList == LeftOver(old(onEventList), WokenBy(old(Queue()))) && unchanged(`pendedTicks)
                && (switchRequired <==>
                      Preempts(priority, current, WokenBy(old(Queue()))) || sharesPriority || yieldPending)
      ensures schedulerSuspended != 0 ==>
                && Queue() == old(Queue()) && unchanged(`readied, `onEventList) && !switchRequired
                && pendedTicks == AddTicks(old(pendedTicks), 1)
    {
      if schedulerSuspended == 0 {
        switchRequired := ProcessTick(sharesPriority);
      } else {
        pendedTicks := AddTicks(pendedTicks, 1);
        switchRequired := false;
      }
    }

    /** prvAddCurrentTaskToDelayedList, after the task has left its ready list. A wake time in the past 32 bits is a
        wake time after the wrap. Only a delay of nothing at the very last tick leaves the current list with an item at
        the swap. */
    method AddToDelayedList(t: T, ticksToWait: TickType, canBlockIndefinitely: bool)
      requires Valid() && !HasOwner(Queue().items, t)
      modifies this
      ensures Valid() <==> ticksToWait > 0 || tickCount < PORT_MAX_DELAY
      ensures InRange() && Wf(Queue()) && UnblockTimeSound()
      ensures unchanged(`schedulerSuspended, `pendedTicks, `pendingReadyList, `readied, `tickCount, `epoch)
      ensures ticksToWait == PORT_MAX_DELAY && canBlockIndefinitely ==>
                Queue() == old(Queue()) && suspendedList == old(suspendedList) + [t]
      ensures !(ticksToWait == PORT_MAX_DELAY && canBlockIndefinitely) ==>
                Queue() == Block(old(Queue()), t, ticksToWait) && unchanged(`suspendedList)
    {
      if ticksToWait == PORT_MAX_DELAY && canBlockIndefinitely {
        suspendedList := suspendedList + [t];
      } else {
        ghost var q1 := Block(Queue(), t, ticksToWait);
        BlockKeepsWf(Queue(), t, ticksToWait);
        InsertByWakeTime(delayedList, overflowList, Base(), tickCount, t, ticksToWait);
        var timeToWake := AddTicks(tickCount, ticksToWait);
        if timeToWake < tickCount {
          overflowList := InsertSorted(overflowList, Item(timeToWake, t));
        } else {
          delayedList := InsertSorted(delayedList, Item(timeToWake, t));
          if timeToWake < nextTaskUnblockTime {
            nextTaskUnblockTime := timeToWake;
          }
        }
        assert Queue() == q1;
      }
    }

    /** uxListRemove on the task's state list item, whichever list it is on. nextTaskUnblockTime may stay early. */
    method RemoveStateItem(t: T)
      requires Valid()
      modifies `delayedList, `overflowList, `suspendedList
      ensures Valid() && Queue() == Unblock(old(Queue()), t)
      ensures suspendedList ==
              if HasOwner(old(Queue()).items, t) then old(suspendedList) else Without(old(suspendedList), t)
    {
      ghost var q1 := Unblock(Queue(), t);
      UnblockKeepsWf(Queue(), t);
      RemoveFromMerge(delayedList, overflowList, Base(), tickCount, t);
      CurrentListAscending(delayedList, overflowList, Base(), tickCount);
      if HasOwner(delayedList, t) {
        RemoveKeepsBelow(delayedList, t, TICK_MODULUS);
        delayedList := RemoveOwner(delayedList, t);
      } else if HasOwner(overflowList, t) {
        RemoveKeepsBelow(overflowList, t, TICK_MODULUS);
        overflowList := RemoveOwner(overflowList, t);
      } else {
        RemoveAbsent(overflowList, t);
        suspendedList := Without(suspendedList, t);
      }
      assert Queue() == q1;
    }

    /** xTaskRemoveFromEventList: the head of an event list is woken, or only noted while the scheduler is suspended.
        The result says whether it is above the running task; then a switch is outstanding too. */
    method RemoveFromEventList(eventList: seq<T>) returns (rest: seq<T>, higher: bool)
      requires Valid() && eventList != []
      modifies `delayedList, `overflowList, `suspendedList, `pendingReadyList, `readied, `onEventList, `yieldPending
      ensures Valid() && eventList == [eventList[0]] + rest && onEventList == old(onEventList) - {eventList[0]}
      ensures schedulerSuspended == 0 ==>
                && Queue() == Unblock(old(Queue()), eventList[0]) && readied == old(readied) + [eventList[0]]
                && unchanged(`pendingReadyList)
      ensures schedulerSuspended != 0 ==>
                && Queue() == old(Queue()) && unchanged(`readied)
                && pendingReadyList == old(pendingReadyList) + [eventList[0]]
      ensures (higher <==> priority(eventList[0]) > priority(current)) && yieldPending == (old(yieldPending) || higher)
    {
      hide Ascending, DistinctOwners, AllBelow, AllAtLeast, HasOwner, Unwrap, Unblock, Without, Wf;
      var t := eventList[0];
      rest := eventList[1..];
      onEventList := onEventList - {t};
      if schedulerSuspended == 0 {
        RemoveStateItem(t);
        readied := readied + [t];
      } else {
        pendingReadyList := pendingReadyList + [t];
      }
      higher := priority(t) > priority(current);
      if higher {
        yieldPending := true;
      }
    }

    /** vTaskSuspendAll */
    method SuspendAll()
      requires Valid()
      modifies `schedulerSuspended
      ensures Valid() && Queue() == old(Queue()) && schedulerSuspended == old(schedulerSuspended) + 1
    {
      schedulerSuspended := schedulerSuspended + 1;
    }

    /** The first noted task leaves the delayed lists and is readied. */
    method MoveFirst()
      requires Valid() && pendingReadyList != []
      modifies `delayedList, `overflowList, `suspendedList, `pendingReadyList, `readied, `yieldPending
      ensures Valid() && Queue() == Unblock(old(Queue()), old(pendingReadyList)[0])
      ensures pendingReadyList == old(pendingReadyList)[1..] && readied == old(readied) + [old(pendingReadyList)[0]]
      ensures yieldPending <==> old(yieldPending) || priority(old(pendingReadyList)[0]) >= priority(current)
    {
      hide Ascending, DistinctOwners, AllBelow, AllAtLeast, HasOwner, Unwrap, Unblock, Wf;
      var t := pendingReadyList[0];
      pendingReadyList := pendingReadyList[1..];
      RemoveStateItem(t);
      readied := readied + [t];
      if priority(t) >= priority(current) {
        yieldPending := true;
      }
    }

    /** The first loop of xTaskResumeAll. */
    method MovePendingReady()
      requires Valid()
      modifies `delayedList, `overflowList, `suspendedList, `pendingReadyList, `readied, `nextTaskUnblockTime, `yieldPending
      ensures Valid() && pendingReadyList == []
      ensures Queue() == UnblockAll(old(Queue()), old(pendingReadyList))
      ensures readied == old(readied) + old(pendingReadyList)
      ensures yieldPending <==> old(yieldPending) || Preempts(priority, current, old(pendingReadyList))
    {
      hide Ascending, DistinctOwners, AllBelow, AllAtLeast, HasOwner, Unwrap, Unblock, UnblockAll, Wf, Preempts;
      ghost var q0, p0 := Queue(), pendingReadyList;
      var moved := false;
      while pendingReadyList != []
        invariant Valid()
        invariant UnblockAll(Queue(), pendingReadyList) == UnblockAll(q0, p0)
        invariant readied + pendingReadyList == old(readied) + p0
        invariant yieldPending || Preempts(priority, current, pendingReadyList)
                  <==> old(yieldPending) || Preempts(priority, current, p0)
        decreases |pendingReadyList|
      {
        ghost var q, p := Queue(), pendingReadyList;
        MoveFirst();
        assert p == [p[0]] + pendingReadyList;
        UnblockFirst(q, p);
        PreemptsEither(priority, current, [p[0]], pendingReadyList);
        PreemptsOne(priority, current, p[0]);
        moved := true;
      }
      ghost var q1 := Queue();
      UnblockNone(q1);
      PreemptsOne(priority, current, current);
      if moved {
        ResetNextTaskUnblockTime();
      }
      assert Queue() == q1;
    }

    /** The second loop of xTaskResumeAll: every pended tick is replayed. */
    method ReplayPendedTicks(sharesPriority: bool)
      requires Valid() && schedulerSuspended == 0
      modifies `tickCount, `delayedList, `overflowList, `numOfOverflows, `nextTaskUnblockTime, `epoch, `readied, `onEventList,
               `pendedTicks, `yieldPending
      ensures Valid() && pendedTicks == 0 && Queue() == AdvanceMany(old(Queue()), old(pendedTicks))
      ensures var expired := WokenByMany(old(Queue()), old(pendedTicks));
              && readied == old(readied) + expired && onEventList == LeftOver(old(onEventList), expired)
              && (yieldPending <==>
                    || old(yieldPending) || (sharesPriority && old(pendedTicks) > 0) || Preempts(priority, current, expired))
    {
      hide Ascending, DistinctOwners, AllBelow, AllAtLeast, HasOwner, Unwrap, Due, NotDue, Owners, Advance, WokenBy,
           Preempts, LeftOver, Wf;
      ghost var q1 := Queue();
      var pendedCounts := pendedTicks;
      while pendedCounts > 0
        invariant Valid()
        invariant AdvanceMany(Queue(), pendedCounts) == AdvanceMany(q1, pendedTicks)
        invariant readied + WokenByMany(Queue(), pendedCounts) == old(readied) + WokenByMany(q1, pendedTicks)
        invariant LeftOver(onEventList, WokenByMany(Queue(), pendedCounts))
                  == LeftOver(old(onEventList), WokenByMany(q1, pendedTicks))
        invariant yieldPending || (sharesPriority && pendedCounts > 0)
                  || Preempts(priority, current, WokenByMany(Queue(), pendedCounts))
                  <==> old(yieldPending) || (sharesPriority && pendedTicks > 0)
                       || Preempts(priority, current, WokenByMany(q1, pendedTicks))
        invariant pendedTicks == old(pendedTicks)
      {
        ghost var q, r, e := Queue(), readied, onEventList;
        var switchRequired := IncrementTick(sharesPriority);
        if switchRequired {
          yieldPending := true;
        }
        assert Queue() == Advance(q) && readied == r + WokenBy(q);
        assert AdvanceMany(q, pendedCounts) == AdvanceMany(Queue(), pendedCounts - 1);
        ReplayOne(r, q, pendedCounts);
        PreemptsEither(priority, current, WokenBy(q), WokenByMany(Queue(), pendedCounts - 1));
        LeftOverBoth(e, WokenBy(q), WokenByMany(Queue(), pendedCounts - 1));
        pendedCounts := pendedCounts - 1;
      }
      PreemptsOne(priority, current, current);
      LeftOverBoth(onEventList, [], []);
      pendedTicks := 0;
    }

    /** xTaskResumeAll: tasks woken meanwhile leave the delayed lists, then every pended tick is replayed. It yields
        exactly when a switch was outstanding, a task readied here preempts the running one, or a replayed tick ends
        the running task's time slice. */
    method ResumeAll(sharesPriority: bool) returns (alreadyYielded: bool)
      requires Valid() && schedulerSuspended > 0
      modifies this
      ensures Valid() && schedulerSuspended == old(schedulerSuspended) - 1 && unchanged(`current, `priority)
      ensures schedulerSuspended > 0 ==>
                && Queue() == old(Queue()) && unchanged(`readied, `pendedTicks, `pendingReadyList, `yieldPending, `onEventList)
                && !alreadyYielded
      ensures schedulerSuspended == 0 ==>
                var woken := UnblockAll(old(Queue()), old(pendingReadyList));
                var expired := WokenByMany(woken, old(pendedTicks));
                && pendedTicks == 0 && pendingReadyList == []
                && Queue() == AdvanceMany(woken, old(pendedTicks))
                && readied == old(readied) + old(pendingReadyList) + expired
                && onEventList == LeftOver(old(onEventList), expired)
                && alreadyYielded == yieldPending
                && (yieldPending <==>
                      || old(yieldPending) || (sharesPriority && old(pendedTicks) > 0)
                      || Preempts(priority, current, old(pendingReadyList) + expired))
    {
      hide Ascending, DistinctOwners, AllBelow, AllAtLeast, HasOwner, Unwrap, UnblockAll, AdvanceMany, WokenByMany, Preempts,
           LeftOver, Wf;
      alreadyYielded := false;
      schedulerSuspended := schedulerSuspended - 1;
      if schedulerSuspended == 0 {
        MovePendingReady();
        ghost var expired := WokenByMany(Queue(), pendedTicks);
        ReplayPendedTicks(sharesPriority);
        PreemptsEither(priority, current, old(pendingReadyList), expired);
        alreadyYielded := yieldPending;
      }
    }

    /** xTaskCatchUpTicks: ticks missed while interrupts were off are replayed like pended ones. */
    method CatchUpTicks(ticksToCatchUp: TickType, sharesPriority: bool) returns (yieldOccurred: bool)
      requires Valid() && schedulerSuspended == 0 && pendedTicks == 0 && pendingReadyList == []
      modifies this
      ensures Valid() && schedulerSuspended == 0
      ensures Queue() == AdvanceMany(old(Queue()), ticksToCatchUp)
      ensures readied == old(readied) + WokenByMany(old(Queue()), ticksToCatchUp)
      ensures yieldOccurred <==>
                || old(yieldPending) || (sharesPriority && ticksToCatchUp > 0)
                || Preempts(old(priority), old(current), WokenByMany(old(Queue()), ticksToCatchUp))
    {
      hide Preempts, LeftOver, AdvanceMany, WokenByMany;
      ghost var q0 := Queue();
      SuspendAll();
      pendedTicks := AddTicks(pendedTicks, ticksToCatchUp);
      assert pendedTicks == ticksToCatchUp && Queue() == q0;
      UnblockNone(q0);
      yieldOccurred := ResumeAll(sharesPriority);
      assert [] + WokenByMany(q0, ticksToCatchUp) == WokenByMany(q0, ticksToCatchUp);
      assert Queue() == AdvanceMany(q0, ticksToCatchUp);
    }
  }
}
