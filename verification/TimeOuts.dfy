/** tasks.c: absolute delays (xTaskDelayUntil) and block-time accounting (xTaskCheckForTimeOut), which compare 32-bit
    tick counts and are specified in unbounded time. */

module TimeOuts {
  import opened Ticks
  import opened ItemLists
  import opened DeadlineQueues
  import opened DelayLists

  // ---- xTaskDelayUntil ----

  /** xTaskDelayUntil's decision, from the tick count, the previous wake time and the increment, all 32 bits. */
  function ShouldDelay(tick: TickType, previous: TickType, increment: TickType): bool {
    var wake := AddTicks(previous, increment);
    if tick < previous then wake < previous && wake > tick else wake < previous || wake > tick
  }

  /** While the caller is less than one wrap late, the decision is the unbounded comparison, and the relative delay
      handed to the delayed list is the distance to the intended wake time. */
  lemma ShouldDelayIsLater(now: nat, previous: nat, increment: TickType)
    requires increment > 0 && previous <= now < previous + TICK_MODULUS
    ensures ShouldDelay(now % TICK_MODULUS, previous % TICK_MODULUS, increment) <==> previous + increment > now
    ensures previous + increment > now ==>
              SubTicks((previous + increment) % TICK_MODULUS, now % TICK_MODULUS) == previous + increment - now
  {
    WithinOneWrap(previous, now - previous);
    WithinOneWrap(previous, increment);
    AddTicksWraps(previous % TICK_MODULUS, increment);
    SubTicksWraps((previous + increment) % TICK_MODULUS, now % TICK_MODULUS);
  }

  /** A reference ahead of the tick, as an aborted delay leaves it: the intended wake time is always still to come, but
      the caller is delayed, and by the right time, if and only if the tick wraps on the way to the reference, the
      reference wraps on the way to the wake time, and the wake time is less than one wrap away. */
  lemma ShouldDelayAhead(now: nat, previous: nat, increment: TickType)
    requires increment > 0 && now < previous < now + TICK_MODULUS
    ensures ShouldDelay(now % TICK_MODULUS, previous % TICK_MODULUS, increment)
            && SubTicks((previous + increment) % TICK_MODULUS, now % TICK_MODULUS) == previous + increment - now <==>
            && now % TICK_MODULUS > previous % TICK_MODULUS
            && AddTicks(previous % TICK_MODULUS, increment) < previous % TICK_MODULUS
            && previous + increment < now + TICK_MODULUS
  {
    WithinOneWrap(now, previous - now);
    WithinOneWrap(previous, increment);
    AddTicksWraps(previous % TICK_MODULUS, increment);
    SubTicksWraps((previous + increment) % TICK_MODULUS, now % TICK_MODULUS);
  }

  /** The wrapped wake time, and that a delay is never one of no ticks. */
  lemma DelayIsPositive(tick: TickType, previous: nat, increment: TickType)
    ensures AddTicks(previous % TICK_MODULUS, increment) == (previous + increment) % TICK_MODULUS
    ensures ShouldDelay(tick, previous % TICK_MODULUS, increment) ==>
              SubTicks(AddTicks(previous % TICK_MODULUS, increment), tick) > 0
  {
    WithinOneWrap(previous, increment);
    AddTicksWraps(previous % TICK_MODULUS, increment);
    SubTicksWraps(AddTicks(previous % TICK_MODULUS, increment), tick);
  }

  /** xTaskDelayUntil, for any reference time: whether and how long it delays is decided on wrapped times, and the
      reference moves on by the increment. For a caller less than one wrap late this means that the task wakes at
      exactly previous + increment, or does not block when that has passed. */
  method DelayUntil<T>(s: DelayScheduler<T>, t: T, previousWakeTime: TickType, timeIncrement: TickType, ghost previous: nat)
    returns (newWakeTime: TickType, shouldDelay: bool)
    requires s.Valid() && !HasOwner(s.Queue().items, t)
    requires timeIncrement > 0 && previousWakeTime == previous % TICK_MODULUS
    modifies s
    ensures s.Valid()
    ensures newWakeTime == (previous + timeIncrement) % TICK_MODULUS
    ensures shouldDelay == ShouldDelay(old(s.tickCount), previousWakeTime, timeIncrement)
    ensures s.Queue() == if shouldDelay then Block(old(s.Queue()), t, SubTicks(newWakeTime, old(s.tickCount)))
                         else old(s.Queue())
    ensures previous <= old(s.Queue()).now < previous + TICK_MODULUS ==>
              && (shouldDelay <==> previous + timeIncrement > old(s.Queue()).now)
              && (shouldDelay ==>
                    s.Queue().items == InsertSorted(old(s.Queue()).items, Item(previous + timeIncrement, t)))
  {
    ghost var now := s.Queue().now;
    assert now % TICK_MODULUS == s.tickCount;
    DelayIsPositive(s.tickCount, previous, timeIncrement);
    ghost var delay := SubTicks(AddTicks(previousWakeTime, timeIncrement), s.tickCount);
    if previous <= now < previous + TICK_MODULUS {
      ShouldDelayIsLater(now, previous, timeIncrement);
      assert previous + timeIncrement > now ==> now + delay == previous + timeIncrement;
    }
    hide AddTicks, SubTicks, Wf, Merge, HasOwner, InsertSorted;
    var constTickCount := s.tickCount;
    var timeToWake := AddTicks(previousWakeTime, timeIncrement);
    shouldDelay := false;
    if constTickCount < previousWakeTime {
      if timeToWake < previousWakeTime && timeToWake > constTickCount {
        shouldDelay := true;
      }
    } else {
      if timeToWake < previousWakeTime || timeToWake > constTickCount {
        shouldDelay := true;
      }
    }
    newWakeTime := timeToWake;
    if shouldDelay {
      s.AddToDelayedList(t, SubTicks(timeToWake, constTickCount), false);
    }
  }

  // ---- xTaskCheckForTimeOut ----

  /** The verdict of xTaskCheckForTimeOut for a finite block time, as computed from wrapped counters. */
  function Expired(entered: nat, now: nat, wait: TickType): bool {
    var tick, start := now % TICK_MODULUS, entered % TICK_MODULUS;
    ((now / TICK_MODULUS) % TICK_MODULUS != (entered / TICK_MODULUS) % TICK_MODULUS && tick >= start) ||
    SubTicks(tick, start) >= wait
  }

  /** The wrapped distance between two instants. */
  lemma WrappedDistance(entered: nat, now: nat)
    requires entered <= now
    ensures SubTicks(now % TICK_MODULUS, entered % TICK_MODULUS) == (now - entered) % TICK_MODULUS
    ensures now - entered < TICK_MODULUS ==>
              (now / TICK_MODULUS == entered / TICK_MODULUS && now % TICK_MODULUS >= entered % TICK_MODULUS)
              || (now / TICK_MODULUS == entered / TICK_MODULUS + 1 && now % TICK_MODULUS < entered % TICK_MODULUS)
    ensures now / TICK_MODULUS == entered / TICK_MODULUS ==> now - entered < TICK_MODULUS
  {
    var a, b := now / TICK_MODULUS, entered / TICK_MODULUS;
    var x, y := now % TICK_MODULUS, entered % TICK_MODULUS;
    assert now - entered == (a - b) * TICK_MODULUS + (x - y);
    assert a >= b;
    if x >= y {
      assert (now - entered) % TICK_MODULUS == x - y;
    } else {
      assert now - entered == (a - b - 1) * TICK_MODULUS + (x - y + TICK_MODULUS);
      assert (now - entered) % TICK_MODULUS == x - y + TICK_MODULUS;
    }
  }

  /** The verdict is the unbounded one if and only if it is not a wait that is a whole wrap or more overdue, whose wrapped
      distance still looks short, and whose overflow counter test is blind: the tick is below the entry time, or the
      32-bit overflow counter has come round to the same value. */
  lemma ExpiredExactly(entered: nat, now: nat, wait: TickType)
    requires entered <= now
    ensures (Expired(entered, now, wait) <==> now >= entered + wait) <==>
            !(now - entered >= TICK_MODULUS
              && (now - entered) % TICK_MODULUS < wait
              && (now % TICK_MODULUS < entered % TICK_MODULUS
                  || (now / TICK_MODULUS) % TICK_MODULUS == (entered / TICK_MODULUS) % TICK_MODULUS))
  {
    WrappedDistance(entered, now);
  }

  // ---- What one check does, and several ----

  /** The wait state carried through a blocking loop. */
  datatype Wait = Waiting(entered: nat, remaining: TickType) | TimedOut

  /** One check at instant `now` of a delay that is not aborted. */
  function Check(w: Wait, now: nat): Wait {
    if w.TimedOut? then TimedOut
    else if w.remaining == PORT_MAX_DELAY then w
    else if Expired(w.entered, now, w.remaining) then TimedOut
    else Waiting(now, w.remaining - SubTicks(now % TICK_MODULUS, w.entered % TICK_MODULUS))
  }

  function Checks(w: Wait, instants: seq<nat>): Wait
    decreases |instants|
  {
    if instants == [] then w else Checks(Check(w, instants[0]), instants[1..])
  }

  /** The tick counter wraps at most once from one instant to a later one. */
  predicate AtMostOneWrap(from: nat, to: nat) {
    from <= to && to / TICK_MODULUS <= from / TICK_MODULUS + 1
  }

  /** Instants that follow `from` in order, with at most one wrap from each to the next. */
  ghost predicate Spaced(from: nat, instants: seq<nat>)
    decreases |instants|
  {
    instants != [] ==> AtMostOneWrap(from, instants[0]) && Spaced(instants[0], instants[1..])
  }

  function Last(from: nat, instants: seq<nat>): nat {
    if instants == [] then from else instants[|instants| - 1]
  }

  lemma {:induction false} TimedOutForever(instants: seq<nat>)
    ensures Checks(TimedOut, instants) == TimedOut
    decreases |instants|
  {
    if instants != [] {
      TimedOutForever(instants[1..]);
    }
  }

  /** With at most one wrap since entry, a whole wrap has passed exactly when the overflow counter differs and the tick
      has come past the entry time again. */
  lemma OverdueByAWrap(entered: nat, now: nat)
    requires entered <= now
    ensures AtMostOneWrap(entered, now) ==>
              (now - entered >= TICK_MODULUS <==>
                 && (now / TICK_MODULUS) % TICK_MODULUS != (entered / TICK_MODULUS) % TICK_MODULUS
                 && now % TICK_MODULUS >= entered % TICK_MODULUS)
    ensures AtMostOneWrap(entered, now) ==> now - entered < 2 * TICK_MODULUS
  {
    var a, b := now / TICK_MODULUS, entered / TICK_MODULUS;
    assert now == a * TICK_MODULUS + now % TICK_MODULUS && entered == b * TICK_MODULUS + entered % TICK_MODULUS;
    if a == b + 1 {
      WithinOneWrap(b, 1);
    }
  }

  /** One check of a finite wait: the unbounded comparison, and the distance to the deadline kept. */
  lemma OneCheck(entered: nat, wait: TickType, now: nat)
    requires AtMostOneWrap(entered, now) && wait != PORT_MAX_DELAY
    ensures Check(Waiting(entered, wait), now) ==
            if now >= entered + wait then TimedOut else Waiting(now, wait - (now - entered))
  {
    WrappedDistance(entered, now);
    OverdueByAWrap(entered, now);
    if now - entered < TICK_MODULUS {
      assert (now - entered) % TICK_MODULUS == now - entered;
    }
  }

  lemma {:induction false} SpacedGrows(from: nat, instants: seq<nat>)
    requires Spaced(from, instants)
    ensures Last(from, instants) >= from
    decreases |instants|
  {
    if instants != [] {
      SpacedGrows(instants[0], instants[1..]);
      assert Last(from, instants) == Last(instants[0], instants[1..]);
    }
  }

  class TimeOut {
    var overflowCount: TickType
    var timeOnEntering: TickType
    /** The unbounded instant that the two fields encode. */
    ghost var entered: nat

    ghost predicate Encodes()
      reads this
    {
      timeOnEntering == entered % TICK_MODULUS && overflowCount == (entered / TICK_MODULUS) % TICK_MODULUS
    }

    /** vTaskInternalSetTimeOutState */
    method SetTimeOutState<T>(s: DelayScheduler<T>)
      requires s.Valid()
      modifies this
      ensures Encodes() && entered == s.Queue().now
    {
      overflowCount := s.numOfOverflows;
      timeOnEntering := s.tickCount;
      entered := s.Queue().now;
      assert entered / TICK_MODULUS == s.epoch;
    }

    /** xTaskCheckForTimeOut: the deadline entered + remaining is kept, and only reaching it is reported, unless the
        delay was aborted or the time is unlimited. */
    method CheckForTimeOut<T>(s: DelayScheduler<T>, ticksToWait: TickType, delayAborted: bool)
      returns (timedOut: bool, remaining: TickType, stillAborted: bool)
      requires s.Valid() && Encodes() && entered <= s.Queue().now
      modifies this
      ensures Encodes() && !stillAborted
      ensures delayAborted ==> timedOut && remaining == ticksToWait && entered == old(entered)
      ensures !delayAborted ==>
                (if timedOut then TimedOut else Waiting(entered, remaining))
                == Check(Waiting(old(entered), ticksToWait), s.Queue().now)
      ensures timedOut && !delayAborted ==> remaining == 0 && entered == old(entered)
      ensures AtMostOneWrap(old(entered), s.Queue().now) && !delayAborted && ticksToWait != PORT_MAX_DELAY ==>
                && (timedOut <==> s.Queue().now >= old(entered) + ticksToWait)
                && (!timedOut ==> entered + remaining == old(entered) + ticksToWait)
    {
      ghost var now := s.Queue().now;
      assert now / TICK_MODULUS == s.epoch && now % TICK_MODULUS == s.tickCount;
      WrappedDistance(entered, now);
      OverdueByAWrap(entered, now);
      stillAborted := delayAborted;
      remaining := ticksToWait;
      var constTickCount := s.tickCount;
      var elapsedTime := SubTicks(constTickCount, timeOnEntering);
      if delayAborted {
        stillAborted := false;
        timedOut := true;
      } else if ticksToWait == PORT_MAX_DELAY {
        timedOut := false;
      } else if s.numOfOverflows != overflowCount && constTickCount >= timeOnEntering {
        timedOut := true;
        remaining := 0;
      } else if elapsedTime < ticksToWait {
        remaining := ticksToWait - elapsedTime;
        SetTimeOutState(s);
        timedOut := false;
      } else {
        remaining := 0;
        timedOut := true;
      }
    }
  }

  // ---- A blocking loop: any number of checks ----

  /** Across any number of checks of a finite wait the deadline never moves: the loop gives up at the first check at or
      after it, and before that entry time plus remaining time is still the deadline. */
  lemma {:induction false} ChecksCompose(entered: nat, wait: TickType, instants: seq<nat>)
    requires Spaced(entered, instants) && wait != PORT_MAX_DELAY
    ensures var w := Checks(Waiting(entered, wait), instants);
            if instants != [] && Last(entered, instants) >= entered + wait then w == TimedOut
            else w.Waiting? && w.entered == Last(entered, instants) && w.entered + w.remaining == entered + wait
    decreases |instants|
  {
    hide Check;
    if instants != [] {
      var now, rest := instants[0], instants[1..];
      OneCheck(entered, wait, now);
      SpacedGrows(now, rest);
      assert Last(entered, instants) == Last(now, rest);
      if now >= entered + wait {
        TimedOutForever(rest);
      } else {
        ChecksCompose(now, wait - (now - entered), rest);
      }
    }
  }

  /** An unlimited wait outlasts any number of checks, however far apart. */
  lemma {:induction false} UnlimitedNeverExpires(entered: nat, instants: seq<nat>)
    ensures Checks(Waiting(entered, PORT_MAX_DELAY), instants) == Waiting(entered, PORT_MAX_DELAY)
    decreases |instants|
  {
    if instants != [] {
      UnlimitedNeverExpires(entered, instants[1..]);
    }
  }
}
