/** When timers are to expire and how often they have called back, in unbounded time: what the lists of timers.c stand
    for. */

module TimerSchedules {
  import opened ItemLists
  import opened Multiples

  type TimerId = nat

  /** Timer_t: the period, and the three bits of ucStatus. */
  datatype Timer = Timer(period: nat, autoReload: bool, active: bool, statically: bool)

  /** What has become of a timer: the unbounded tick it was last started at, its callbacks since, and whether it has
      been stopped (or never started). */
  datatype Progress = Progress(start: nat, calls: nat, stopped: bool)

  function Expiry(start: nat, period: nat, n: nat): nat {
    start + n * period
  }

  lemma NextExpiry(start: nat, period: nat, n: nat)
    ensures Expiry(start, period, n + 1) == Expiry(start, period, n) + period
    ensures Expiry(start, period, 0) == start
  {
    assert (n + 1) * period == n * period + period;
  }

  /** An active timer whose next expiry is `value`: that expiry is the one after those called for, and no callback was
      early. */
  ghost predicate OnTime(value: nat, tm: Timer, pr: Progress, now: nat) {
    && tm.active && tm.period > 0 && !pr.stopped
    && value == Expiry(pr.start, tm.period, pr.calls + 1)
    && Expiry(pr.start, tm.period, pr.calls) <= now
    && (!tm.autoReload ==> pr.calls == 0)
  }

  /** A timer that is not active was stopped, or is a one-shot timer that has called back once, when it was due. */
  ghost predicate Settled(tm: Timer, pr: Progress, now: nat) {
    pr.stopped || (!tm.autoReload && pr.calls == 1 && Expiry(pr.start, tm.period, 1) <= now)
  }

  ghost predicate AllOnTime(items: seq<Item<TimerId>>, timers: map<TimerId, Timer>, progress: map<TimerId, Progress>, now: nat) {
    items != [] ==>
      && items[0].owner in timers && items[0].owner in progress
      && OnTime(items[0].value, timers[items[0].owner], progress[items[0].owner], now)
      && AllOnTime(items[1..], timers, progress, now)
  }

  /** The active bit of t is set exactly when it has an item, and t is settled when it is clear. */
  ghost predicate TimerOk(items: seq<Item<TimerId>>, timers: map<TimerId, Timer>, progress: map<TimerId, Progress>,
                          now: nat, t: TimerId)
  {
    && t in timers && t in progress
    && (timers[t].active <==> HasOwner(items, t))
    && (!timers[t].active ==> Settled(timers[t], progress[t], now))
  }

  /** The service's invariant; `loose` is the timer being worked on, which has no item for the moment. */
  ghost predicate Inv(items: seq<Item<TimerId>>, timers: map<TimerId, Timer>, progress: map<TimerId, Progress>, now: nat,
                      loose: set<TimerId>)
  {
    && Ascending(items) && DistinctOwners(items)
    && timers.Keys == progress.Keys
    && AllOnTime(items, timers, progress, now)
    && (forall t :: t in timers && t !in loose ==> TimerOk(items, timers, progress, now, t))
    && (forall t :: t in loose ==> t in timers && !HasOwner(items, t))
  }

  // ---- What changes keep ----

  lemma {:induction false} OnTimeFrame(items: seq<Item<TimerId>>, timers: map<TimerId, Timer>, progress: map<TimerId, Progress>,
                                       now: nat, t: TimerId, tm: Timer, pr: Progress)
    requires AllOnTime(items, timers, progress, now) && !HasOwner(items, t)
    ensures AllOnTime(items, timers[t := tm], progress[t := pr], now)
    decreases items
  {
    if items != [] { OnTimeFrame(items[1..], timers, progress, now, t, tm, pr); }
  }

  lemma {:induction false} OnTimeInsert(items: seq<Item<TimerId>>, timers: map<TimerId, Timer>, progress: map<TimerId, Progress>,
                                        now: nat, x: Item<TimerId>)
    requires AllOnTime(items, timers, progress, now)
    requires x.owner in timers && x.owner in progress && OnTime(x.value, timers[x.owner], progress[x.owner], now)
    ensures AllOnTime(InsertSorted(items, x), timers, progress, now)
    decreases items
  {
    if !(items == [] || x.value < items[0].value) { OnTimeInsert(items[1..], timers, progress, now, x); }
  }

  lemma {:induction false} OnTimeRemove(items: seq<Item<TimerId>>, timers: map<TimerId, Timer>, progress: map<TimerId, Progress>,
                                        now: nat, t: TimerId)
    requires AllOnTime(items, timers, progress, now)
    ensures AllOnTime(RemoveOwner(items, t), timers, progress, now)
    decreases items
  {
    if items != [] && items[0].owner != t { OnTimeRemove(items[1..], timers, progress, now, t); }
  }

  lemma {:induction false} OnTimeLater(items: seq<Item<TimerId>>, timers: map<TimerId, Timer>, progress: map<TimerId, Progress>,
                                       now: nat, later: nat)
    requires AllOnTime(items, timers, progress, now) && now <= later
    ensures AllOnTime(items, timers, progress, later)
    decreases items
  {
    if items != [] { OnTimeLater(items[1..], timers, progress, now, later); }
  }

  lemma InvLater(items: seq<Item<TimerId>>, timers: map<TimerId, Timer>, progress: map<TimerId, Progress>, now: nat, later: nat,
                 loose: set<TimerId>)
    requires Inv(items, timers, progress, now, loose) && now <= later
    ensures Inv(items, timers, progress, later, loose)
  {
    OnTimeLater(items, timers, progress, now, later);
    forall t | t in timers && t !in loose ensures TimerOk(items, timers, progress, later, t) {
      assert TimerOk(items, timers, progress, now, t);
    }
  }

  lemma {:induction false} RemoveHas(items: seq<Item<TimerId>>, t: TimerId, u: TimerId)
    requires u != t
    ensures HasOwner(RemoveOwner(items, t), u) <==> HasOwner(items, u)
  {
    if items != [] && items[0].owner != t { RemoveHas(items[1..], t, u); }
  }

  /** Taking a timer's item off leaves the timer loose. */
  lemma TakeOff(items: seq<Item<TimerId>>, timers: map<TimerId, Timer>, progress: map<TimerId, Progress>, now: nat, t: TimerId)
    requires Inv(items, timers, progress, now, {}) && t in timers
    ensures Inv(RemoveOwner(items, t), timers, progress, now, {t})
  {
    RemoveKeepsAscending(items, t);
    RemoveKeepsDistinct(items, t);
    OnTimeRemove(items, timers, progress, now, t);
    forall u | u in timers && u != t ensures TimerOk(RemoveOwner(items, t), timers, progress, now, u) {
      assert TimerOk(items, timers, progress, now, u);
      RemoveHas(items, t, u);
    }
  }

  /** The same with another timer loose already: only the head can be taken then. */
  lemma TakeHead(items: seq<Item<TimerId>>, timers: map<TimerId, Timer>, progress: map<TimerId, Progress>, now: nat,
                 loose: set<TimerId>)
    requires Inv(items, timers, progress, now, loose) && items != []
    ensures items[0].owner in timers && items[0].owner !in loose
    ensures OnTime(items[0].value, timers[items[0].owner], progress[items[0].owner], now)
    ensures Inv(items[1..], timers, progress, now, loose + {items[0].owner})
  {
    forall u | u in timers && u !in loose + {items[0].owner} ensures TimerOk(items[1..], timers, progress, now, u) {
      assert TimerOk(items, timers, progress, now, u);
    }
  }

  /** Giving a loose timer its next item. */
  lemma PutBack(items: seq<Item<TimerId>>, timers: map<TimerId, Timer>, progress: map<TimerId, Progress>, now: nat,
                loose: set<TimerId>, t: TimerId, tm: Timer, pr: Progress, value: nat)
    requires Inv(items, timers, progress, now, loose) && t in loose && OnTime(value, tm, pr, now)
    ensures Inv(InsertSorted(items, Item(value, t)), timers[t := tm], progress[t := pr], now, loose - {t})
  {
    var x := Item(value, t);
    InsertKeepsAscending(items, x);
    InsertKeepsDistinct(items, x);
    OnTimeFrame(items, timers, progress, now, t, tm, pr);
    OnTimeInsert(items, timers[t := tm], progress[t := pr], now, x);
    forall u | u in timers[t := tm] && u !in loose - {t}
      ensures TimerOk(InsertSorted(items, x), timers[t := tm], progress[t := pr], now, u)
    {
      if u != t { assert TimerOk(items, timers, progress, now, u); }
      InsertKeepsAway(items, x, u);
    }
    forall u | u in loose - {t} ensures !HasOwner(InsertSorted(items, x), u) { InsertKeepsAway(items, x, u); }
  }

  /** Leaving a loose timer off the lists, not active. */
  lemma LeaveOff(items: seq<Item<TimerId>>, timers: map<TimerId, Timer>, progress: map<TimerId, Progress>, now: nat,
                 loose: set<TimerId>, t: TimerId, tm: Timer, pr: Progress)
    requires Inv(items, timers, progress, now, loose) && t in loose && !tm.active && Settled(tm, pr, now)
    ensures Inv(items, timers[t := tm], progress[t := pr], now, loose - {t})
  {
    OnTimeFrame(items, timers, progress, now, t, tm, pr);
    forall u | u in timers[t := tm] && u !in loose - {t}
      ensures TimerOk(items, timers[t := tm], progress[t := pr], now, u)
    {
      if u != t { assert TimerOk(items, timers, progress, now, u); }
    }
  }

  /** A new timer is dormant; a deleted one is forgotten. */
  lemma Added(items: seq<Item<TimerId>>, timers: map<TimerId, Timer>, progress: map<TimerId, Progress>, now: nat,
              t: TimerId, tm: Timer)
    requires Inv(items, timers, progress, now, {}) && t !in timers && !tm.active
    ensures Inv(items, timers[t := tm], progress[t := Progress(0, 0, true)], now, {})
  {
    NotATimer(items, timers, progress, now, t);
    OnTimeFrame(items, timers, progress, now, t, tm, Progress(0, 0, true));
    var timers', progress' := timers[t := tm], progress[t := Progress(0, 0, true)];
    forall u | u in timers' ensures TimerOk(items, timers', progress', now, u) {
      if u != t { assert TimerOk(items, timers, progress, now, u); }
    }
  }

  lemma {:induction false} NotATimer(items: seq<Item<TimerId>>, timers: map<TimerId, Timer>, progress: map<TimerId, Progress>,
                                     now: nat, t: TimerId)
    requires AllOnTime(items, timers, progress, now) && t !in timers
    ensures !HasOwner(items, t)
    decreases items
  {
    if items != [] { NotATimer(items[1..], timers, progress, now, t); }
  }

  lemma {:induction false} OnTimeWithout(items: seq<Item<TimerId>>, timers: map<TimerId, Timer>, progress: map<TimerId, Progress>,
                                         now: nat, t: TimerId)
    requires AllOnTime(items, timers, progress, now) && !HasOwner(items, t)
    ensures AllOnTime(items, timers - {t}, progress - {t}, now)
    decreases items
  {
    if items != [] { OnTimeWithout(items[1..], timers, progress, now, t); }
  }

  lemma Forgotten(items: seq<Item<TimerId>>, timers: map<TimerId, Timer>, progress: map<TimerId, Progress>, now: nat, t: TimerId)
    requires Inv(items, timers, progress, now, {t})
    ensures Inv(items, timers - {t}, progress - {t}, now, {})
  {
    OnTimeWithout(items, timers, progress, now, t);
    forall u | u in timers - {t} ensures TimerOk(items, timers - {t}, progress - {t}, now, u) {
      assert TimerOk(items, timers, progress, now, u);
    }
  }

  // ---- What it means once nothing is due ----

  lemma {:induction false} OnTimeItem(items: seq<Item<TimerId>>, timers: map<TimerId, Timer>, progress: map<TimerId, Progress>,
                                      now: nat, t: TimerId)
    requires AllOnTime(items, timers, progress, now) && HasOwner(items, t)
    ensures t in timers && t in progress
            && OnTime(Expiry(progress[t].start, timers[t].period, progress[t].calls + 1), timers[t], progress[t], now)
    ensures HasItem(items, Item(Expiry(progress[t].start, timers[t].period, progress[t].calls + 1), t))
    decreases items
  {
    if items[0].owner != t { OnTimeItem(items[1..], timers, progress, now, t); }
  }

  /** With nothing due at `now`, an active auto-reload timer started at C with period P has called back exactly
      floor((now - C) / P) times and expires next in (now, now + P]; a one-shot timer has called back once if its time
      has come and not at all before. */
  lemma CalledExactly(items: seq<Item<TimerId>>, timers: map<TimerId, Timer>, progress: map<TimerId, Progress>, now: nat, t: TimerId)
    requires Inv(items, timers, progress, now, {}) && AllAtLeast(items, now + 1)
    requires t in timers && !progress[t].stopped
    ensures timers[t].autoReload ==>
              && timers[t].active && timers[t].period > 0 && progress[t].start <= now
              && progress[t].calls == (now - progress[t].start) / timers[t].period
              && exists e: nat :: HasItem(items, Item(e, t)) && now < e <= now + timers[t].period
    ensures !timers[t].autoReload ==>
              progress[t].calls == if progress[t].start + timers[t].period <= now then 1 else 0
  {
    var tm, pr := timers[t], progress[t];
    assert TimerOk(items, timers, progress, now, t);
    NextExpiry(pr.start, tm.period, pr.calls);
    NextExpiry(pr.start, tm.period, 0);
    if tm.active {
      OnTimeItem(items, timers, progress, now, t);
      var e := Expiry(pr.start, tm.period, pr.calls + 1);
      ItemHasOwner(items, Item(e, t));
      assert now < e <= now + tm.period;
      assert pr.calls * tm.period >= 0;
      QuotientIs(now - pr.start, tm.period, pr.calls);
    }
  }
}
