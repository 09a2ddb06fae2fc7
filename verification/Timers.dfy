/** timers.c: software timers on two value-ordered lists that are swapped when the daemon sees the tick wrap, with late
    timers caught up on. Expiry times are specified in unbounded time. */

module Timers {
  import opened Ticks
  import opened ItemLists
  import opened DeadlineQueues
  import opened DelayLists
  import opened TimerSchedules

  /** prvInsertTimerInActiveList's choice, from the wrapped tick `now`, command time and expiry time. */
  datatype Choice = ProcessNow | CurrentList | OverflowList

  function Choose(next: TickType, now: TickType, command: TickType, period: TickType): Choice {
    if next <= now then
      if SubTicks(now, command) >= period then ProcessNow else OverflowList
    else
      if now < command && next >= command then ProcessNow else CurrentList
  }

  /** The 32-bit tick count at an unbounded tick. */
  function Wrapped(tick: nat): TickType {
    tick % TICK_MODULUS
  }

  ghost predicate WrapsAt(base: nat) {
    base % TICK_MODULUS == 0
  }

  /** With the command less than one wrap ago, the choice is the right one in unbounded time: process at once exactly
      when the expiry has passed, and otherwise the list of the epoch in which the timer expires. */
  lemma ChoiceIsRight(base: nat, now: nat, command: nat, period: TickType)
    requires WrapsAt(base) && base <= now < base + TICK_MODULUS
    requires command <= now < command + TICK_MODULUS && period > 0
    ensures var cmd := Wrapped(command);
            var next := AddTicks(cmd, period);
            var choice := Choose(next, now - base, cmd, period);
            && next == Wrapped(command + period)
            && (choice == ProcessNow <==> command + period <= now)
            && (choice == CurrentList ==> command + period == base + next)
            && (choice == OverflowList ==> command + period == base + TICK_MODULUS + next)
  {
    var cmd := command % TICK_MODULUS;
    assert now % TICK_MODULUS == now - base;
    WithinOneWrap(command, now - command);
    WithinOneWrap(command, period);
    AddTicksWraps(cmd, period);
    SubTicksWraps(now - base, cmd);
  }

  /** Inserting behind everything that is due changes nothing about what is due. */
  lemma {:induction false} InsertNotDue<T>(s: seq<Item<T>>, now: nat, x: Item<T>)
    requires x.value > now && Ascending(s)
    ensures Due(InsertSorted(s, x), now) == Due(s, now)
  {
    if s != [] && s[0].value <= now {
      InsertNotDue(s[1..], now, x);
    }
  }

  lemma {:induction false} NothingDueMeansLater<T>(s: seq<Item<T>>, now: nat)
    requires Ascending(s) && (s == [] || s[0].value > now)
    ensures AllAtLeast(s, now + 1) && Due(s, now) == []
  {
    AscendingFromHead(s, now + 1);
  }

  /** Both lists, in unbounded time; `base` is the tick of the last wrap. */
  function Spread(current: seq<Item<TimerId>>, overflow: seq<Item<TimerId>>, base: nat): seq<Item<TimerId>> {
    Unwrap(current, base) + Unwrap(overflow, base + TICK_MODULUS)
  }

  /** Values fit 32 bits, and so do periods. */
  ghost predicate Sound(current: seq<Item<TimerId>>, overflow: seq<Item<TimerId>>, base: nat, timers: map<TimerId, Timer>) {
    && AllBelow(current, TICK_MODULUS) && AllBelow(overflow, TICK_MODULUS) && WrapsAt(base)
    && forall t :: t in timers ==> timers[t].period < TICK_MODULUS
  }

  /** Putting an item on the list of its epoch puts it in its place in unbounded time. */
  lemma InsertIntoCurrent(current: seq<Item<TimerId>>, overflow: seq<Item<TimerId>>, base: nat, x: Item<TimerId>)
    requires AllBelow(current, TICK_MODULUS) && x.value < TICK_MODULUS
    ensures AllBelow(InsertSorted(current, x), TICK_MODULUS)
    ensures Spread(InsertSorted(current, x), overflow, base)
            == InsertSorted(Spread(current, overflow, base), Item(base + x.value, x.owner))
  {
    InsertKeepsBelow(current, x, TICK_MODULUS);
    UnwrapInsert(current, x, base);
    OverflowIsLater(overflow, base);
    InsertIntoFront(Unwrap(current, base), Unwrap(overflow, base + TICK_MODULUS), Item(base + x.value, x.owner));
  }

  lemma InsertIntoOverflow(current: seq<Item<TimerId>>, overflow: seq<Item<TimerId>>, base: nat, x: Item<TimerId>)
    requires AllBelow(current, TICK_MODULUS) && AllBelow(overflow, TICK_MODULUS) && x.value < TICK_MODULUS
    ensures AllBelow(InsertSorted(overflow, x), TICK_MODULUS)
    ensures Spread(current, InsertSorted(overflow, x), base)
            == InsertSorted(Spread(current, overflow, base), Item(base + TICK_MODULUS + x.value, x.owner))
  {
    hide InsertSorted;
    InsertKeepsBelow(overflow, x, TICK_MODULUS);
    UnwrapInsert(overflow, x, base + TICK_MODULUS);
    InsertIntoBack(current, base, Unwrap(overflow, base + TICK_MODULUS), Item(base + TICK_MODULUS + x.value, x.owner));
  }

  /** What the daemon may do to timers it has no command for: call back, and end a one-shot timer. Periods, starts and
      the state of auto-reload timers stay, and the timers in `loose` are not touched. */
  ghost predicate Continues(timers: map<TimerId, Timer>, progress: map<TimerId, Progress>,
                            timers': map<TimerId, Timer>, progress': map<TimerId, Progress>, loose: set<TimerId>)
  {
    && timers.Keys == timers'.Keys && progress.Keys == progress'.Keys
    && (forall t :: t in timers ==>
          && timers'[t].period == timers[t].period && timers'[t].autoReload == timers[t].autoReload
          && (timers[t].autoReload || t in loose ==> timers'[t] == timers[t]))
    && (forall t :: t in progress ==>
          && progress'[t].start == progress[t].start && progress'[t].stopped == progress[t].stopped
          && progress'[t].calls >= progress[t].calls && (t in loose ==> progress'[t] == progress[t]))
  }

  /** The timer has been called back for every expiry up to now. */
  ghost predicate CaughtUp(tm: Timer, pr: Progress, now: nat) {
    if tm.autoReload then Expiry(pr.start, tm.period, pr.calls) <= now < Expiry(pr.start, tm.period, pr.calls + 1)
    else tm.active == (now < pr.start + tm.period) && pr.calls == if tm.active then 0 else 1
  }

  lemma ContinuesItself(timers: map<TimerId, Timer>, progress: map<TimerId, Progress>, loose: set<TimerId>)
    ensures Continues(timers, progress, timers, progress, loose)
  {
  }

  lemma ContinuesTransitively(timers: map<TimerId, Timer>, progress: map<TimerId, Progress>,
                              timers1: map<TimerId, Timer>, progress1: map<TimerId, Progress>,
                              timers2: map<TimerId, Timer>, progress2: map<TimerId, Progress>, loose: set<TimerId>)
    requires Continues(timers, progress, timers1, progress1, loose)
             && Continues(timers1, progress1, timers2, progress2, loose)
    ensures Continues(timers, progress, timers2, progress2, loose)
  {
  }

  lemma ContinuesApart(timers: map<TimerId, Timer>, progress: map<TimerId, Progress>,
                       timers1: map<TimerId, Timer>, progress1: map<TimerId, Progress>, t: TimerId, tm: Timer, pr: Progress)
    requires Continues(timers, progress, timers1, progress1, {t})
    ensures Continues(timers[t := tm], progress[t := pr], timers1[t := tm], progress1[t := pr], {t})
  {
  }

  lemma ContinuesWithout(timers: map<TimerId, Timer>, progress: map<TimerId, Progress>,
                         timers1: map<TimerId, Timer>, progress1: map<TimerId, Progress>, t: TimerId)
    requires Continues(timers, progress, timers1, progress1, {t})
    ensures Continues(timers - {t}, progress - {t}, timers1 - {t}, progress1 - {t}, {})
  {
  }

  lemma StaysKnown(timers: map<TimerId, Timer>, progress: map<TimerId, Progress>,
                   timers1: map<TimerId, Timer>, progress1: map<TimerId, Progress>, t: TimerId)
    requires Continues(timers, progress, timers1, progress1, {t}) && t in timers && t in progress
    ensures t in timers1 && t in progress1 && timers1[t] == timers[t] && progress1[t] == progress[t]
  {
  }

  lemma KeysAgree(items: seq<Item<TimerId>>, timers: map<TimerId, Timer>, progress: map<TimerId, Progress>, now: nat,
                  loose: set<TimerId>, t: TimerId)
    requires Inv(items, timers, progress, now, loose) && t in timers
    ensures t in progress
  {
  }

  /** The head of the current list as the head of both lists together, and what is due without it. */
  lemma HeadOfEpoch(current: seq<Item<TimerId>>, overflow: seq<Item<TimerId>>, base: nat, now: nat)
    requires current != [] && base + current[0].value <= now
    ensures var items := Spread(current, overflow, base);
            && items != [] && items[0] == Item(base + current[0].value, current[0].owner)
            && items[1..] == Spread(current[1..], overflow, base)
            && |Due(items, now)| == 1 + |Due(items[1..], now)|
            && (AllBelow(current, TICK_MODULUS) ==> AllBelow(current[1..], TICK_MODULUS))
  {
    assert Spread(current, overflow, base)[1..] == Spread(current[1..], overflow, base);
  }

  /** An auto-reload timer, expired at the head, goes back behind `now` with its callbacks counted. */
  lemma ReloadedKeepsInv(items: seq<Item<TimerId>>, timers: map<TimerId, Timer>, progress: map<TimerId, Progress>,
                         now: nat, loose: set<TimerId>, calls: nat)
    requires Inv(items, timers, progress, now, loose) && items != [] && items[0].value <= now
    requires items[0].owner in timers && items[0].owner in progress && timers[items[0].owner].autoReload
    requires var t := items[0].owner;
             && calls >= progress[t].calls && Expiry(progress[t].start, timers[t].period, calls + 1) <= now
             && now < Expiry(progress[t].start, timers[t].period, calls + 2)
    ensures var t := items[0].owner;
            var items' := InsertSorted(items[1..], Item(Expiry(progress[t].start, timers[t].period, calls + 2), t));
            var progress' := progress[t := progress[t].(calls := calls + 1)];
            && Inv(items', timers, progress', now, loose) && Continues(timers, progress, timers, progress', loose)
            && |Due(items', now)| < |Due(items, now)|
  {
    hide Expiry;
    var t := items[0].owner;
    TakeHead(items, timers, progress, now, loose);
    InsertNotDue(items[1..], now, Item(Expiry(progress[t].start, timers[t].period, calls + 2), t));
    PutBack(items[1..], timers, progress, now, loose + {t}, t, timers[t], progress[t].(calls := calls + 1),
            Expiry(progress[t].start, timers[t].period, calls + 2));
    assert timers[t := timers[t]] == timers && loose + {t} - {t} == loose;
  }

  /** A one-shot timer, expired at the head, is done. */
  lemma OneShotKeepsInv(items: seq<Item<TimerId>>, timers: map<TimerId, Timer>, progress: map<TimerId, Progress>,
                        now: nat, loose: set<TimerId>)
    requires Inv(items, timers, progress, now, loose) && items != [] && items[0].value <= now
    requires items[0].owner in timers && items[0].owner in progress && !timers[items[0].owner].autoReload
    ensures var t := items[0].owner;
            var timers' := timers[t := timers[t].(active := false)];
            var progress' := progress[t := progress[t].(calls := progress[t].calls + 1)];
            && Inv(items[1..], timers', progress', now, loose) && Continues(timers, progress, timers', progress', loose)
            && |Due(items[1..], now)| < |Due(items, now)|
  {
    hide Expiry;
    var t := items[0].owner;
    TakeHead(items, timers, progress, now, loose);
    LeaveOff(items[1..], timers, progress, now, loose + {t}, t, timers[t].(active := false),
             progress[t].(calls := progress[t].calls + 1));
    assert loose + {t} - {t} == loose;
  }

  lemma RemoveFromEpochs(current: seq<Item<TimerId>>, overflow: seq<Item<TimerId>>, base: nat, t: TimerId)
    ensures RemoveOwner(Spread(current, overflow, base), t)
            == if HasOwner(current, t) then Spread(RemoveOwner(current, t), overflow, base)
               else Spread(current, RemoveOwner(overflow, t), base)
    ensures AllBelow(current, TICK_MODULUS) ==> AllBelow(RemoveOwner(current, t), TICK_MODULUS)
    ensures AllBelow(overflow, TICK_MODULUS) ==> AllBelow(RemoveOwner(overflow, t), TICK_MODULUS)
    ensures !HasOwner(overflow, t) ==> RemoveOwner(overflow, t) == overflow
  {
    hide RemoveOwner, HasOwner, Unwrap, AllBelow;
    RemoveFromMerge(current, overflow, base, 0, t);
    if AllBelow(current, TICK_MODULUS) { RemoveKeepsBelow(current, t, TICK_MODULUS); }
    if AllBelow(overflow, TICK_MODULUS) { RemoveKeepsBelow(overflow, t, TICK_MODULUS); }
    if !HasOwner(overflow, t) { RemoveAbsent(overflow, t); }
  }

  /** A command just handled: the timer runs from the command's tick, with the callbacks that were due made. */
  lemma StartedKeepsInv(items: seq<Item<TimerId>>, timers: map<TimerId, Timer>, progress: map<TimerId, Progress>, now: nat,
                        t: TimerId, tm: Timer, command: nat, calls: nat)
    requires Inv(items, timers, progress, now, {t}) && tm.active && tm.period > 0 && command <= now
    requires Expiry(command, tm.period, calls) <= now && (!tm.autoReload ==> calls == 0)
    ensures Inv(InsertSorted(items, Item(Expiry(command, tm.period, calls + 1), t)), timers[t := tm],
                progress[t := Progress(command, calls, false)], now, {})
  {
    hide Expiry;
    PutBack(items, timers, progress, now, {t}, t, tm, Progress(command, calls, false), Expiry(command, tm.period, calls + 1));
    assert {t} - {t} == {};
  }

  lemma EndedKeepsInv(items: seq<Item<TimerId>>, timers: map<TimerId, Timer>, progress: map<TimerId, Progress>, now: nat,
                      t: TimerId, tm: Timer, pr: Progress)
    requires Inv(items, timers, progress, now, {t}) && !tm.active && Settled(tm, pr, now)
    ensures Inv(items, timers[t := tm], progress[t := pr], now, {})
  {
    LeaveOff(items, timers, progress, now, {t}, t, tm, pr);
    assert {t} - {t} == {};
  }

  lemma WrappedInEpoch(base: nat, value: TickType)
    requires WrapsAt(base)
    ensures Wrapped(base + value) == value && WrapsAt(base + TICK_MODULUS)
  {
  }

  lemma HeadWithinOneWrap(items: seq<Item<TimerId>>, timers: map<TimerId, Timer>, progress: map<TimerId, Progress>, now: nat)
    requires Inv(items, timers, progress, now, {}) && items != []
    requires forall t :: t in timers ==> timers[t].period < TICK_MODULUS
    ensures items[0].value < now + TICK_MODULUS && Ascending(items)
  {
    var t := items[0].owner;
    NextExpiry(progress[t].start, timers[t].period, progress[t].calls);
  }

  /** How long the daemon sleeps when nothing is due on the current list: never for zero ticks, and never past an
      expiry. With only the overflow list filled it wakes at the wrap. */
  lemma SleepIsRight(current: seq<Item<TimerId>>, overflow: seq<Item<TimerId>>, base: nat, tick: TickType,
                     timers: map<TimerId, Timer>, progress: map<TimerId, Progress>)
    requires Sound(current, overflow, base, timers)
    requires Inv(Spread(current, overflow, base), timers, progress, base + tick, {})
    requires current != [] ==> current[0].value > tick
    requires current != [] || overflow != []
    ensures var items, wait := Spread(current, overflow, base), SubTicks(if current == [] then 0 else current[0].value, tick);
            && wait > 0 && items != [] && AllAtLeast(items, base + tick + wait)
            && (if current == [] then Wrapped(base + tick + wait) == 0 else base + tick + wait == items[0].value)
  {
    var items := Spread(current, overflow, base);
    assert items[0].value == if current != [] then base + current[0].value else base + TICK_MODULUS + overflow[0].value;
    HeadWithinOneWrap(items, timers, progress, base + tick);
    hide Spread, Inv, Sound, AllBelow, AllAtLeast;
    AscendingFromHead(items, if current == [] then base + TICK_MODULUS else items[0].value);
    SubTicksWraps(if current == [] then 0 else current[0].value, tick);
    if current == [] { WrappedInEpoch(base + TICK_MODULUS, 0); }
  }

  lemma NothingDueInEpoch(current: seq<Item<TimerId>>, overflow: seq<Item<TimerId>>, base: nat, tick: TickType,
                          timers: map<TimerId, Timer>, progress: map<TimerId, Progress>)
    requires Inv(Spread(current, overflow, base), timers, progress, base + tick, {})
    requires current != [] ==> current[0].value > tick
    ensures AllAtLeast(Spread(current, overflow, base), base + tick + 1)
  {
    NothingDueMeansLater(Spread(current, overflow, base), base + tick);
  }

  /** Less than one wrap after the last sample, a smaller tick count means that the count has wrapped once. However much
      later, it means that the count has wrapped. */
  lemma SampledEpoch(base: nat, lastTime: TickType, tickCount: TickType, now: nat)
    requires WrapsAt(base) && base + lastTime <= now && tickCount == Wrapped(now)
    ensures now < base + lastTime + TICK_MODULUS ==>
              now == if tickCount < lastTime then base + TICK_MODULUS + tickCount else base + tickCount
    ensures tickCount < lastTime ==> base + TICK_MODULUS <= now
    ensures WrapsAt(now - tickCount)
  {
    if now < base + lastTime + TICK_MODULUS { WithinOneWrap(base + lastTime, now - base - lastTime); }
    assert now % TICK_MODULUS == tickCount;
  }

  /** After the swap of an emptied current list the same items stand in the next epoch. */
  lemma SwapSpread(current: seq<Item<TimerId>>, overflow: seq<Item<TimerId>>, base: nat)
    requires current == []
    ensures Spread(current, overflow, base) == Spread(overflow, current, base + TICK_MODULUS)
  {
  }

  lemma OwnerIsListed(s: seq<Item<TimerId>>, t: TimerId)
    ensures HasOwner(s, t) ==> s != []
  {
  }

  lemma EmptySpread(current: seq<Item<TimerId>>, overflow: seq<Item<TimerId>>, base: nat)
    ensures Spread(current, overflow, base) == [] <==> current == [] && overflow == []
  {
  }

  class TimerService {
    var currentTimerList: seq<Item<TimerId>>
    var overflowTimerList: seq<Item<TimerId>>
    var lastTime: TickType
    var timers: map<TimerId, Timer>
    /** The unbounded tick of the last wrap, and how each timer has fared. */
    ghost var base: nat
    ghost var progress: map<TimerId, Progress>

    constructor ()
      ensures Valid({}) && Now() == 0 && timers == map[]
    {
      currentTimerList, overflowTimerList, lastTime, timers := [], [], 0, map[];
      base, progress := 0, map[];
    }

    /** The last sampled tick, in unbounded time. */
    ghost function Now(): nat
      reads this
    {
      base + lastTime
    }

    /** Both lists, in unbounded time. */
    ghost function Items(): seq<Item<TimerId>>
      reads this
    {
      Spread(currentTimerList, overflowTimerList, base)
    }

    ghost predicate ValidAt(now: nat, loose: set<TimerId>)
      reads this
    {
      && Sound(currentTimerList, overflowTimerList, base, timers)
      && Inv(Spread(currentTimerList, overflowTimerList, base), timers, progress, now, loose)
    }

    ghost predicate Valid(loose: set<TimerId>)
      reads this
    {
      ValidAt(Now(), loose)
    }

    /** The tick found at `now`: less than one wrap after the last sample, or any later when no timer was active. */
    ghost predicate SampledAt(tickCount: TickType, now: nat)
      reads this
    {
      && Now() <= now && tickCount == Wrapped(now)
      && (now < Now() + TICK_MODULUS || (currentTimerList == [] && overflowTimerList == []))
    }

    /** prvInsertTimerInActiveList */
    method InsertTimerInActiveList(t: TimerId, nextExpiry: TickType, timeNow: TickType, commandTime: TickType,
                                   ghost now: nat, ghost command: nat)
      returns (processNow: bool)
      requires Sound(currentTimerList, overflowTimerList, base, timers) && t in timers && timers[t].period > 0
      requires base <= now && timeNow == now - base
      requires command <= now < command + TICK_MODULUS && commandTime == Wrapped(command)
      requires nextExpiry == AddTicks(commandTime, timers[t].period)
      modifies this`currentTimerList, this`overflowTimerList
      ensures Sound(currentTimerList, overflowTimerList, base, timers)
              && (processNow <==> command + timers[t].period <= now)
      ensures processNow ==> currentTimerList == old(currentTimerList) && overflowTimerList == old(overflowTimerList)
      ensures !processNow ==> Items() == InsertSorted(old(Items()), Item(command + timers[t].period, t))
    {
      processNow := false;
      var period := timers[t].period;
      ChoiceIsRight(base, now, command, period);
      InsertIntoCurrent(currentTimerList, overflowTimerList, base, Item(nextExpiry, t));
      InsertIntoOverflow(currentTimerList, overflowTimerList, base, Item(nextExpiry, t));
      hide AddTicks, SubTicks, Spread, InsertSorted, AllBelow, Wrapped, WrapsAt;
      if nextExpiry <= timeNow {
        if SubTicks(timeNow, commandTime) >= period {
          processNow := true;
        } else {
          overflowTimerList := InsertSorted(overflowTimerList, Item(nextExpiry, t));
        }
      } else {
        if timeNow < commandTime && nextExpiry >= commandTime {
          processNow := true;
        } else {
          currentTimerList := InsertSorted(currentTimerList, Item(nextExpiry, t));
        }
      }
    }

    /** prvReloadTimer: the timer expired at `expired`; each further expiry that has passed is called back for at once,
        and the first that has not goes on a list. The callback for `expired` itself is left to the caller. */
    method ReloadTimer(t: TimerId, expiredTime: TickType, timeNow: TickType, ghost now: nat, ghost expired: nat)
      requires Sound(currentTimerList, overflowTimerList, base, timers) && t in timers && t in progress
               && timers[t].period > 0
      requires base <= now && timeNow == now - base
      requires expired == Expiry(progress[t].start, timers[t].period, progress[t].calls + 1)
      requires expired <= now < expired + TICK_MODULUS && expiredTime == Wrapped(expired)
      modifies this`currentTimerList, this`overflowTimerList, this`progress
      ensures Sound(currentTimerList, overflowTimerList, base, timers) && t in progress
      ensures var pr := progress[t];
              && progress == old(progress)[t := old(progress)[t].(calls := pr.calls)] && pr.calls >= old(progress)[t].calls
              && Expiry(pr.start, timers[t].period, pr.calls + 1) <= now < Expiry(pr.start, timers[t].period, pr.calls + 2)
              && Items() == InsertSorted(old(Items()), Item(Expiry(pr.start, timers[t].period, pr.calls + 2), t))
    {
      hide AddTicks, SubTicks, Expiry, Spread, InsertSorted, AllBelow, Wrapped, WrapsAt, Choose;
      var last, period := expiredTime, timers[t].period;
      ghost var at: nat, start: nat, n: nat := expired, progress[t].start, progress[t].calls;
      while true
        invariant Sound(currentTimerList, overflowTimerList, base, timers) && t in progress && progress
                  == old(progress)[t := old(progress)[t].(calls := n)]
        invariant n >= old(progress)[t].calls && at == Expiry(start, period, n + 1)
        invariant at <= now < at + TICK_MODULUS && last == Wrapped(at)
        invariant currentTimerList == old(currentTimerList) && overflowTimerList == old(overflowTimerList)
        decreases now - at
      {
        ChoiceIsRight(base, now, at, period);
        NextExpiry(start, period, n + 1);
        var again := InsertTimerInActiveList(t, AddTicks(last, period), timeNow, last, now, at);
        if !again {
          break;
        }
        last := AddTicks(last, period);
        at := at + period;
        n := n + 1;
        // the timer's callback runs
        progress := progress[t := progress[t].(calls := n)];
      }
    }

    /** prvProcessExpiredTimer: the head of the current list has expired. */
    method ProcessExpiredTimer(nextExpireTime: TickType, timeNow: TickType, ghost now: nat, ghost loose: set<TimerId>)
      requires ValidAt(now, loose) && base <= now && timeNow == now - base
      requires currentTimerList != [] && nextExpireTime == currentTimerList[0].value <= timeNow
      modifies this`currentTimerList, this`overflowTimerList, this`progress, this`timers
      ensures ValidAt(now, loose) && Continues(old(timers), old(progress), timers, progress, loose)
      ensures |Due(Items(), now)| < |Due(old(Items()), now)|
    {
      hide Spread, InsertSorted, Due, Inv, AllBelow, AllOnTime, HasOwner, Ascending, Expiry, Wrapped, WrapsAt, Continues;
      var t := currentTimerList[0].owner;
      HeadOfEpoch(currentTimerList, overflowTimerList, base, now);
      ghost var items, was := Spread(currentTimerList, overflowTimerList, base), progress;
      TakeHead(items, timers, progress, now, loose);
      WrappedInEpoch(base, nextExpireTime);
      currentTimerList := currentTimerList[1..];
      if timers[t].autoReload {
        ReloadTimer(t, nextExpireTime, timeNow, now, base + nextExpireTime);
        ReloadedKeepsInv(items, timers, was, now, loose, progress[t].calls);
        assert progress[t := progress[t].(calls := progress[t].calls + 1)]
               == was[t := was[t].(calls := progress[t].calls + 1)];
      } else {
        OneShotKeepsInv(items, timers, progress, now, loose);
        timers := timers[t := timers[t].(active := false)];
      }
      // the timer's callback runs
      progress := progress[t := progress[t].(calls := progress[t].calls + 1)];
    }

    /** prvSwitchTimerLists: everything left on the current list expired before the wrap. */
    method SwitchTimerLists(ghost loose: set<TimerId>)
      requires ValidAt(base + TICK_MODULUS - 1, loose)
      modifies this`currentTimerList, this`overflowTimerList, this`progress, this`timers, this`base
      ensures base == old(base) + TICK_MODULUS && ValidAt(base - 1, loose)
      ensures old(currentTimerList == [] && overflowTimerList == []) ==> currentTimerList == [] && overflowTimerList == []
      ensures Continues(old(timers), old(progress), timers, progress, loose)
    {
      ContinuesItself(timers, progress, loose);
      hide Spread, Due, Inv, WrapsAt, Continues;
      while currentTimerList != []
        invariant base == old(base) && ValidAt(base + TICK_MODULUS - 1, loose)
        invariant old(currentTimerList) == [] ==> currentTimerList == [] && overflowTimerList == old(overflowTimerList)
        invariant Continues(old(timers), old(progress), timers, progress, loose)
        decreases |Due(Spread(currentTimerList, overflowTimerList, base), base + TICK_MODULUS - 1)|
      {
        ghost var timers1, progress1 := timers, progress;
        ProcessExpiredTimer(currentTimerList[0].value, PORT_MAX_DELAY, base + TICK_MODULUS - 1, loose);
        ContinuesTransitively(old(timers), old(progress), timers1, progress1, timers, progress, loose);
      }
      SwapSpread(currentTimerList, overflowTimerList, base);
      WrappedInEpoch(base, 0);
      assert Inv(Spread(overflowTimerList, currentTimerList, base + TICK_MODULUS), timers, progress, base + TICK_MODULUS - 1, loose);
      currentTimerList, overflowTimerList := overflowTimerList, currentTimerList;
      base := base + TICK_MODULUS;
    }

    /** prvSampleTimeNow. */
    method SampleTimeNow(tickCount: TickType, ghost now: nat, ghost loose: set<TimerId>) returns (switched: bool)
      requires Valid(loose) && SampledAt(tickCount, now)
      modifies this
      ensures Valid(loose) && Now() == now && lastTime == tickCount && switched == (tickCount < old(lastTime))
      ensures Continues(old(timers), old(progress), timers, progress, loose)
      ensures !switched ==> currentTimerList == old(currentTimerList) && overflowTimerList == old(overflowTimerList)
      ensures !switched ==> Items() == old(Items()) && timers == old(timers) && progress == old(progress)
    {
      hide Inv, AllBelow, WrapsAt, Wrapped, Continues;
      SampledEpoch(base, lastTime, tickCount, now);
      ContinuesItself(timers, progress, loose);
      ghost var idle := currentTimerList == [] && overflowTimerList == [];
      EmptySpread(currentTimerList, overflowTimerList, base);
      hide Spread;
      if tickCount < lastTime {
        InvLater(Spread(currentTimerList, overflowTimerList, base), timers, progress, Now(), base + TICK_MODULUS - 1, loose);
        SwitchTimerLists(loose);
        InvLater(Spread(currentTimerList, overflowTimerList, base), timers, progress, base - 1, now, loose);
        switched := true;
      } else {
        InvLater(Spread(currentTimerList, overflowTimerList, base), timers, progress, Now(), now, loose);
        switched := false;
      }
      EmptySpread(currentTimerList, overflowTimerList, base);
      EmptySpread(currentTimerList, overflowTimerList, now - tickCount);
      if idle {
        base := now - tickCount;
      }
      lastTime := tickCount;
    }

    /** prvGetNextExpireTime and prvProcessTimerOrBlockTask: one round of the daemon's loop before the commands. It
        processes the head of the current list if that is due, and sleeps if nothing is: until a command comes, or
        `wait` ticks at the most unless `indefinitely`. */
    method ProcessTimerOrBlock(tickCount: TickType, ghost now: nat)
      returns (sleeps: bool, wait: TickType, indefinitely: bool)
      requires Valid({}) && SampledAt(tickCount, now)
      modifies this
      ensures Valid({}) && Now() == now && Continues(old(timers), old(progress), timers, progress, {})
      ensures sleeps ==> Items() == old(Items()) && timers == old(timers) && progress == old(progress)
      ensures sleeps ==> AllAtLeast(Items(), now + 1) && (indefinitely <==> Items() == [])
      ensures sleeps && !indefinitely ==> wait > 0 && AllAtLeast(Items(), now + wait)
      ensures sleeps && !indefinitely ==> now + wait == Items()[0].value || Wrapped(now + wait) == 0
      ensures !sleeps ==> tickCount < old(lastTime) || |Due(Items(), now)| < |Due(old(Items()), now)|
    {
      hide Spread, Inv, AllBelow, WrapsAt, Wrapped, Continues, Due, AllAtLeast;
      var listWasEmpty := currentTimerList == [];
      var nextExpireTime := if listWasEmpty then 0 else currentTimerList[0].value;
      sleeps, wait, indefinitely := false, 0, false;
      var switched := SampleTimeNow(tickCount, now, {});
      if !switched {
        if !listWasEmpty && nextExpireTime <= tickCount {
          ghost var timers1, progress1 := timers, progress;
          ProcessExpiredTimer(nextExpireTime, tickCount, now, {});
          ContinuesTransitively(old(timers), old(progress), timers1, progress1, timers, progress, {});
        } else {
          if listWasEmpty {
            indefinitely := overflowTimerList == [];
          }
          sleeps, wait := true, SubTicks(nextExpireTime, tickCount);
          NothingDueInEpoch(currentTimerList, overflowTimerList, base, tickCount, timers, progress);
          EmptySpread(currentTimerList, overflowTimerList, base);
          if !indefinitely {
            SleepIsRight(currentTimerList, overflowTimerList, base, tickCount, timers, progress);
          }
        }
      }
    }

    /** xTimerCreate and xTimerCreateStatic */
    method Create(t: TimerId, period: TickType, autoReload: bool, statically: bool)
      requires Valid({}) && t !in timers && period > 0
      modifies this`timers, this`progress
      ensures Valid({}) && timers == old(timers)[t := Timer(period, autoReload, false, statically)]
      ensures progress == old(progress)[t := Progress(0, 0, true)]
    {
      var tm := Timer(period, autoReload, false, statically);
      Added(Spread(currentTimerList, overflowTimerList, base), timers, progress, Now(), t, tm);
      timers := timers[t := tm];
      progress := progress[t := Progress(0, 0, true)];
    }

    /** What prvProcessReceivedCommands does before it looks at the command: the timer comes off its list, if it is on
        one, and the tick is sampled. */
    method BeginCommand(t: TimerId, tickCount: TickType, ghost now: nat)
      requires Valid({}) && t in timers && SampledAt(tickCount, now)
      modifies this
      ensures Valid({t}) && Now() == now && lastTime == tickCount
      ensures Continues(old(timers), old(progress), timers, progress, {t})
    {
      hide Spread, Inv, AllBelow, WrapsAt, Wrapped, Continues, HasOwner, RemoveOwner;
      OwnerIsListed(currentTimerList, t);
      OwnerIsListed(overflowTimerList, t);
      RemoveFromEpochs(currentTimerList, overflowTimerList, base, t);
      TakeOff(Spread(currentTimerList, overflowTimerList, base), timers, progress, Now(), t);
      if HasOwner(currentTimerList, t) {
        currentTimerList := RemoveOwner(currentTimerList, t);
      } else if HasOwner(overflowTimerList, t) {
        overflowTimerList := RemoveOwner(overflowTimerList, t);
      }
      var _ := SampleTimeNow(tickCount, now, {t});
    }

    /** The part of tmrCOMMAND_START behind the sampling: insert, and if the expiry has passed, process it at once. */
    method Launch(t: TimerId, value: TickType, tickCount: TickType, ghost now: nat, ghost command: nat)
      requires Valid({t}) && Now() == now && lastTime == tickCount && t in timers && t in progress
      requires timers[t].period > 0
      requires command <= now < command + TICK_MODULUS && value == Wrapped(command)
      modifies this`currentTimerList, this`overflowTimerList, this`timers, this`progress
      ensures Valid({}) && Now() == now && t in timers && t in progress
      ensures progress[t].start == command && !progress[t].stopped
      ensures timers[t].period == old(timers[t].period) && timers[t].autoReload == old(timers[t].autoReload)
      ensures CaughtUp(timers[t], progress[t], now)
      ensures timers == old(timers)[t := timers[t]] && progress == old(progress)[t := progress[t]]
    {
      hide Spread, Inv, AllBelow, WrapsAt, Wrapped, HasOwner, InsertSorted, Expiry, AddTicks, SubTicks, Choose;
      ghost var items, timers1, progress1 := Spread(currentTimerList, overflowTimerList, base), timers, progress;
      var period := timers[t].period;
      NextExpiry(command, period, 0);
      ChoiceIsRight(base, now, command, period);
      timers := timers[t := timers[t].(active := true)];
      progress := progress[t := Progress(command, 0, false)];
      var processNow := InsertTimerInActiveList(t, AddTicks(value, period), tickCount, value, now, command);
      if processNow {
        if timers[t].autoReload {
          ReloadTimer(t, AddTicks(value, period), tickCount, now, command + period);
          StartedKeepsInv(items, timers1, progress1, now, t, timers[t], command, progress[t].calls + 1);
        } else {
          timers := timers[t := timers[t].(active := false)];
          EndedKeepsInv(items, timers1, progress1, now, t, timers[t], Progress(command, 1, false));
        }
        // the timer's callback runs
        progress := progress[t := progress[t].(calls := progress[t].calls + 1)];
      } else {
        StartedKeepsInv(items, timers1, progress1, now, t, timers[t], command, 0);
      }
      assert timers == timers1[t := timers[t]] && progress == progress1[t := progress[t]];
    }

    /** tmrCOMMAND_START and tmrCOMMAND_RESET, sent at the unbounded tick `command` and handled at `now`. */
    method Start(t: TimerId, value: TickType, tickCount: TickType, ghost now: nat, ghost command: nat)
      requires Valid({}) && t in timers && timers[t].period > 0
      requires SampledAt(tickCount, now)
      requires command <= now < command + TICK_MODULUS && value == Wrapped(command)
      modifies this
      ensures Valid({}) && Now() == now && t in timers && t in progress
      ensures progress[t].start == command && !progress[t].stopped
      ensures timers[t].period == old(timers[t].period) && timers[t].autoReload == old(timers[t].autoReload)
      ensures CaughtUp(timers[t], progress[t], now)
      ensures t in old(progress)
      ensures Continues(old(timers)[t := timers[t]], old(progress)[t := progress[t]], timers, progress, {t})
    {
      hide Spread, Inv, AllBelow, WrapsAt, Wrapped, HasOwner, Continues;
      KeysAgree(Spread(currentTimerList, overflowTimerList, base), timers, progress, Now(), {}, t);
      ghost var timers0, progress0 := timers, progress;
      BeginCommand(t, tickCount, now);
      StaysKnown(timers0, progress0, timers, progress, t);
      ghost var timers1, progress1 := timers, progress;
      Launch(t, value, tickCount, now, command);
      ContinuesApart(timers0, progress0, timers1, progress1, t, timers[t], progress[t]);
    }

    /** The active bit is cleared, the timer being off the lists. */
    method MarkInactive(t: TimerId, ghost now: nat, ghost timers0: map<TimerId, Timer>, ghost progress0: map<TimerId, Progress>)
      requires Valid({t}) && Now() == now && t in timers && t in progress && t in timers0 && t in progress0
      requires Continues(timers0, progress0, timers, progress, {t})
      modifies this`timers, this`progress
      ensures Valid({}) && Now() == now
      ensures t in timers && timers[t] == old(timers)[t].(active := false)
      ensures t in progress && progress[t] == old(progress)[t].(stopped := true)
      ensures Continues(timers0[t := timers[t]], progress0[t := progress[t]], timers, progress, {t})
    {
      hide Spread, Inv, AllBelow, WrapsAt, Wrapped, HasOwner, Continues;
      ghost var pr := progress[t].(stopped := true);
      EndedKeepsInv(Spread(currentTimerList, overflowTimerList, base), timers, progress, now, t, timers[t].(active := false), pr);
      ContinuesApart(timers0, progress0, timers, progress, t, timers[t].(active := false), pr);
      timers := timers[t := timers[t].(active := false)];
      progress := progress[t := pr];
    }

    /** tmrCOMMAND_STOP */
    method Stop(t: TimerId, tickCount: TickType, ghost now: nat)
      requires Valid({}) && t in timers && SampledAt(tickCount, now)
      modifies this
      ensures Valid({}) && Now() == now && t in timers && timers[t] == old(timers[t]).(active := false)
      ensures t in progress && t in old(progress) && progress[t] == old(progress)[t].(stopped := true)
      ensures Continues(old(timers)[t := timers[t]], old(progress)[t := progress[t]], timers, progress, {t})
    {
      hide Spread, Inv, AllBelow, WrapsAt, Wrapped, HasOwner, Continues;
      KeysAgree(Spread(currentTimerList, overflowTimerList, base), timers, progress, Now(), {}, t);
      ghost var timers0, progress0 := timers, progress;
      BeginCommand(t, tickCount, now);
      StaysKnown(timers0, progress0, timers, progress, t);
      MarkInactive(t, now, timers0, progress0);
    }

    /** tmrCOMMAND_CHANGE_PERIOD: the timer starts again, now. */
    method ChangePeriod(t: TimerId, period: TickType, tickCount: TickType, ghost now: nat)
      requires Valid({}) && t in timers && period > 0
      requires SampledAt(tickCount, now)
      modifies this
      ensures Valid({}) && Now() == now && t in timers && timers[t] == old(timers[t]).(period := period, active := true)
      ensures t in progress && progress[t] == Progress(now, 0, false) && t in old(progress)
      ensures Continues(old(timers)[t := timers[t]], old(progress)[t := progress[t]], timers, progress, {t})
    {
      hide Spread, Inv, AllBelow, WrapsAt, Wrapped, HasOwner, InsertSorted, Expiry, AddTicks, SubTicks, Choose, Continues;
      KeysAgree(Spread(currentTimerList, overflowTimerList, base), timers, progress, Now(), {}, t);
      ghost var timers0, progress0 := timers, progress;
      BeginCommand(t, tickCount, now);
      StaysKnown(timers0, progress0, timers, progress, t);
      ghost var items, timers1, progress1 := Spread(currentTimerList, overflowTimerList, base), timers, progress;
      NextExpiry(now, period, 0);
      ChoiceIsRight(base, now, now, period);
      timers := timers[t := timers[t].(active := true, period := period)];
      progress := progress[t := Progress(now, 0, false)];
      var processNow := InsertTimerInActiveList(t, AddTicks(tickCount, period), tickCount, tickCount, now, now);
      StartedKeepsInv(items, timers1, progress1, now, t, timers[t], now, 0);
      ContinuesApart(timers0, progress0, timers1, progress1, t, timers[t], progress[t]);
    }

    /** tmrCOMMAND_DELETE: a dynamically allocated timer is freed, a statically allocated one only marked as not active. */
    method Delete(t: TimerId, tickCount: TickType, ghost now: nat)
      requires Valid({}) && t in timers && SampledAt(tickCount, now)
      modifies this
      ensures Valid({}) && Now() == now && t in old(progress)
      ensures !old(timers[t].statically) ==>
                Continues(old(timers) - {t}, old(progress) - {t}, timers, progress, {})
      ensures old(timers[t].statically) ==>
                && t in timers && timers[t] == old(timers)[t].(active := false)
                && t in progress && progress[t] == old(progress)[t].(stopped := true)
                && Continues(old(timers)[t := timers[t]], old(progress)[t := progress[t]], timers, progress, {t})
    {
      hide Spread, Inv, AllBelow, WrapsAt, Wrapped, HasOwner, Continues;
      KeysAgree(Spread(currentTimerList, overflowTimerList, base), timers, progress, Now(), {}, t);
      ghost var timers0, progress0 := timers, progress;
      BeginCommand(t, tickCount, now);
      StaysKnown(timers0, progress0, timers, progress, t);
      if !timers[t].statically {
        Forgotten(Spread(currentTimerList, overflowTimerList, base), timers, progress, now, t);
        ContinuesWithout(timers0, progress0, timers, progress, t);
        timers := timers - {t};
        progress := progress - {t};
      } else {
        MarkInactive(t, now, timers0, progress0);
      }
    }
  }
}
