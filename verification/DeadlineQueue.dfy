/** The reference for delayed tasks: one queue ordered by wake time, with time a natural number that never wraps. */

module DeadlineQueues {
  import opened ItemLists

  datatype DeadlineQueue<T> = DeadlineQueue(now: nat, items: seq<Item<T>>)

  /** The items, from the front, whose time has come, and the rest. */
  function Due<T>(s: seq<Item<T>>, now: nat): seq<Item<T>> {
    if s == [] || s[0].value > now then [] else [s[0]] + Due(s[1..], now)
  }

  function NotDue<T>(s: seq<Item<T>>, now: nat): seq<Item<T>> {
    if s == [] || s[0].value > now then s else NotDue(s[1..], now)
  }

  /** One tick: time advances by one and everything that is due leaves. */
  function Advance<T>(q: DeadlineQueue<T>): DeadlineQueue<T> {
    DeadlineQueue(q.now + 1, NotDue(q.items, q.now + 1))
  }

  /** The tasks woken by that tick, in wake order. */
  function WokenBy<T>(q: DeadlineQueue<T>): seq<T> {
    Owners(Due(q.items, q.now + 1))
  }

  function AdvanceMany<T>(q: DeadlineQueue<T>, ticks: nat): DeadlineQueue<T>
    decreases ticks
  {
    if ticks == 0 then q else AdvanceMany(Advance(q), ticks - 1)
  }

  function WokenByMany<T>(q: DeadlineQueue<T>, ticks: nat): seq<T>
    decreases ticks
  {
    if ticks == 0 then [] else WokenBy(q) + WokenByMany(Advance(q), ticks - 1)
  }

  /** A task blocks for `delay` ticks. */
  function Block<T>(q: DeadlineQueue<T>, t: T, delay: nat): DeadlineQueue<T> {
    q.(items := InsertSorted(q.items, Item(q.now + delay, t)))
  }

  /** An event, an abort, a suspend or a delete takes a task out before its time. */
  function Unblock<T(==)>(q: DeadlineQueue<T>, t: T): DeadlineQueue<T> {
    q.(items := RemoveOwner(q.items, t))
  }

  /** Several tasks are taken out, one after the other. */
  function UnblockAll<T(==)>(q: DeadlineQueue<T>, ts: seq<T>): DeadlineQueue<T>
    decreases |ts|
  {
    if ts == [] then q else UnblockAll(Unblock(q, ts[0]), ts[1..])
  }

  /** The queue's invariant: ordered, one item a task, nothing overdue. */
  ghost predicate Wf<T>(q: DeadlineQueue<T>) {
    Ascending(q.items) && DistinctOwners(q.items) && AllAtLeast(q.items, q.now)
  }

  lemma {:induction false} AdvanceKeepsWf<T>(q: DeadlineQueue<T>)
    requires Wf(q)
    ensures Wf(Advance(q))
  {
    NotDueKeeps(q.items, q.now + 1);
  }

  lemma {:induction false} NotDueKeeps<T>(s: seq<Item<T>>, now: nat)
    requires Ascending(s) && DistinctOwners(s)
    ensures Ascending(NotDue(s, now)) && DistinctOwners(NotDue(s, now)) && AllAtLeast(NotDue(s, now), now)
  {
    if s == [] || s[0].value > now {
      AscendingFromHead(s, now);
    } else {
      NotDueKeeps(s[1..], now);
    }
  }

  lemma {:induction false} NotDueKeepsAway<T>(s: seq<Item<T>>, now: nat, t: T)
    requires !HasOwner(s, t)
    ensures !HasOwner(NotDue(s, now), t)
  {
    if !(s == [] || s[0].value > now) {
      NotDueKeepsAway(s[1..], now, t);
    }
  }

  lemma {:induction false} SplitsByTime<T>(s: seq<Item<T>>, now: nat) returns (n: nat)
    ensures n <= |s| && NotDue(s, now) == s[n..] && |Owners(Due(s, now))| == n
    ensures forall k :: 0 <= k < n ==> Owners(Due(s, now))[k] == s[k].owner && s[k].value <= now
    ensures n < |s| ==> s[n].value > now
  {
    n := 0;
    if s != [] && s[0].value <= now {
      var m := SplitsByTime(s[1..], now);
      n := m + 1;
      assert Due(s, now)[1..] == Due(s[1..], now);
      assert s[1..][m..] == s[n..];
    }
  }

  /** The tasks a tick wakes are those at the front of the queue whose time has come, in its order; the rest stays. */
  lemma WokenInOrder<T>(q: DeadlineQueue<T>) returns (n: nat)
    ensures n <= |q.items| && Advance(q) == DeadlineQueue(q.now + 1, q.items[n..]) && |WokenBy(q)| == n
    ensures forall k :: 0 <= k < n ==> WokenBy(q)[k] == q.items[k].owner && q.items[k].value <= q.now + 1
    ensures n < |q.items| ==> q.items[n].value > q.now + 1
  {
    n := SplitsByTime(q.items, q.now + 1);
  }

  /** An item leaves exactly when its time has come, and then its owner is among the woken. */
  lemma {:induction false} DueExactly<T>(s: seq<Item<T>>, now: nat, x: Item<T>)
    requires Ascending(s) && DistinctOwners(s) && HasItem(s, x)
    ensures x.value > now ==> HasItem(NotDue(s, now), x)
    ensures x.value <= now ==> x.owner in Owners(Due(s, now)) && !HasOwner(NotDue(s, now), x.owner)
  {
    if s[0].value > now {
      AscendingFromHead(s, s[0].value);
      ItemHasOwner(s, x);
    } else if s[0] == x {
      NotDueKeepsAway(s[1..], now, x.owner);
      assert Owners(Due(s, now))[0] == x.owner;
    } else {
      DueExactly(s[1..], now, x);
      assert forall o :: o in Owners(Due(s[1..], now)) ==> o in Owners(Due(s, now));
    }
  }

  lemma {:induction false} BlockKeepsWf<T>(q: DeadlineQueue<T>, t: T, delay: nat)
    requires Wf(q) && !HasOwner(q.items, t)
    ensures Wf(Block(q, t, delay))
  {
    var x := Item(q.now + delay, t);
    InsertKeepsAscending(q.items, x);
    InsertKeepsDistinct(q.items, x);
    InsertKeepsAtLeast(q.items, x, q.now);
  }

  lemma {:induction false} UnblockKeepsWf<T>(q: DeadlineQueue<T>, t: T)
    requires Wf(q)
    ensures Wf(Unblock(q, t)) && !HasOwner(Unblock(q, t).items, t)
  {
    RemoveKeepsAscending(q.items, t);
    RemoveKeepsDistinct(q.items, t);
    RemoveKeepsAtLeast(q.items, t, q.now);
  }

  // ---- Runs ----

  datatype Event<T> = Tick | Delay(task: T, ticks: nat) | Wake(task: T)

  ghost predicate Enabled<T>(q: DeadlineQueue<T>, e: Event<T>) {
    e.Delay? ==> !HasOwner(q.items, e.task)
  }

  function Apply<T(==)>(q: DeadlineQueue<T>, e: Event<T>): DeadlineQueue<T> {
    match e
    case Tick => Advance(q)
    case Delay(t, d) => Block(q, t, d)
    case Wake(t) => Unblock(q, t)
  }

  function Run<T(==)>(q: DeadlineQueue<T>, es: seq<Event<T>>): DeadlineQueue<T>
    decreases |es|
  {
    if es == [] then q else Run(Apply(q, es[0]), es[1..])
  }

  ghost predicate RunEnabled<T>(q: DeadlineQueue<T>, es: seq<Event<T>>)
    decreases |es|
  {
    es != [] ==> Enabled(q, es[0]) && RunEnabled(Apply(q, es[0]), es[1..])
  }

  lemma {:induction false} ApplyKeepsWf<T>(q: DeadlineQueue<T>, e: Event<T>)
    requires Wf(q) && Enabled(q, e)
    ensures Wf(Apply(q, e))
  {
    match e
    case Tick => AdvanceKeepsWf(q);
    case Delay(t, d) => BlockKeepsWf(q, t, d);
    case Wake(t) => UnblockKeepsWf(q, t);
  }

  /** An event about another task keeps t's item. */
  lemma {:induction false} OtherTaskKeepsItem<T>(q: DeadlineQueue<T>, e: Event<T>, x: Item<T>)
    requires !e.Tick? && e.task != x.owner && HasItem(q.items, x)
    ensures HasItem(Apply(q, e).items, x)
  {
    if e.Delay? {
      InsertKeepsItems(q.items, Item(q.now + e.ticks, e.task), x);
    } else {
      RemoveKeepsItems(q.items, e.task, x);
    }
  }

  /** An event about another task, or a tick, does not block t. */
  lemma {:induction false} OtherEventKeepsAway<T>(q: DeadlineQueue<T>, e: Event<T>, t: T)
    requires (e.Tick? || e.task != t) && !HasOwner(q.items, t)
    ensures !HasOwner(Apply(q, e).items, t)
  {
    match e {
      case Tick => NotDueKeepsAway(q.items, q.now + 1, t);
      case Delay(t', d) => InsertKeepsAway(q.items, Item(q.now + d, t'), t);
      case Wake(t') => RemoveKeepsAway(q.items, t', t);
    }
  }

  /** No event in es names t. */
  predicate LeavesAlone<T(==)>(es: seq<Event<T>>, t: T) {
    forall i :: 0 <= i < |es| && (es[i].Delay? || es[i].Wake?) ==> es[i].task != t
  }

  function TickCount<T>(es: seq<Event<T>>): nat {
    if es == [] then 0 else (if es[0].Tick? then 1 else 0) + TickCount(es[1..])
  }

  lemma {:induction false} RunKeepsWf<T>(q: DeadlineQueue<T>, es: seq<Event<T>>)
    requires Wf(q) && RunEnabled(q, es)
    ensures Wf(Run(q, es)) && Run(q, es).now == q.now + TickCount(es)
    decreases |es|
  {
    if es != [] {
      ApplyKeepsWf(q, es[0]);
      RunKeepsWf(Apply(q, es[0]), es[1..]);
    }
  }

  /** A task that is not blocked stays so while no event names it. */
  lemma {:induction false} StaysAway<T>(q: DeadlineQueue<T>, es: seq<Event<T>>, t: T)
    requires LeavesAlone(es, t) && !HasOwner(q.items, t)
    ensures !HasOwner(Run(q, es).items, t)
    decreases |es|
  {
    if es != [] {
      OtherEventKeepsAway(q, es[0], t);
      StaysAway(Apply(q, es[0]), es[1..], t);
    }
  }

  /** Whatever happens to other tasks, a task blocked until `deadline` is still blocked after a run exactly when
      the run's ticks have not reached `deadline`. */
  lemma {:induction false} BlockedUntilDeadline<T>(q: DeadlineQueue<T>, es: seq<Event<T>>, t: T, deadline: nat)
    requires Wf(q) && RunEnabled(q, es) && LeavesAlone(es, t)
    requires HasItem(q.items, Item(deadline, t)) && q.now < deadline
    ensures q.now + TickCount(es) < deadline ==> HasItem(Run(q, es).items, Item(deadline, t))
    ensures q.now + TickCount(es) >= deadline ==> !HasOwner(Run(q, es).items, t)
    decreases |es|
  {
    if es != [] {
      var e, q1 := es[0], Apply(q, es[0]);
      ApplyKeepsWf(q, e);
      if e.Tick? {
        DueExactly(q.items, q.now + 1, Item(deadline, t));
      } else {
        OtherTaskKeepsItem(q, e, Item(deadline, t));
      }
      if q1.now < deadline {
        BlockedUntilDeadline(q1, es[1..], t, deadline);
      } else {
        StaysAway(q1, es[1..], t);
      }
    }
  }

  /** A task that blocks for d > 0 ticks is woken by the tick numbered now + d: not before, not after. */
  lemma {:induction false} WakesExactlyOnTime<T>(q: DeadlineQueue<T>, t: T, d: nat, es: seq<Event<T>>)
    requires Wf(q) && !HasOwner(q.items, t) && d > 0
    requires RunEnabled(Block(q, t, d), es) && LeavesAlone(es, t)
    ensures TickCount(es) < d ==> HasItem(Run(Block(q, t, d), es).items, Item(q.now + d, t))
    ensures TickCount(es) >= d ==> !HasOwner(Run(Block(q, t, d), es).items, t)
    ensures TickCount(es) == d - 1 ==> t in WokenBy(Run(Block(q, t, d), es))
  {
    var q0 := Block(q, t, d);
    BlockKeepsWf(q, t, d);
    InsertKeepsItems(q.items, Item(q.now + d, t), Item(q.now + d, t));
    BlockedUntilDeadline(q0, es, t, q.now + d);
    RunKeepsWf(q0, es);
    if TickCount(es) == d - 1 {
      DueExactly(Run(q0, es).items, q.now + d, Item(q.now + d, t));
    }
  }
}
