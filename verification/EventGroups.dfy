/** Event groups: 24 event bits, and a list of waiting tasks whose item values hold the bits they wait for together with
    control bits. */

module EventGroups {
  import opened Basics

  type Bits = bv32

  const CLEAR_EVENTS_ON_EXIT: Bits := 0x0100_0000
  const UNBLOCKED_DUE_TO_BIT_SET: Bits := 0x0200_0000
  const WAIT_FOR_ALL_BITS: Bits := 0x0400_0000
  const CONTROL_BYTES: Bits := 0xff00_0000
  /** taskEVENT_LIST_ITEM_VALUE_IN_USE */
  const VALUE_IN_USE: Bits := 0x8000_0000

  /** A task's event list item while it waits, and the value left in it once the task has been woken. */
  datatype Waiter = Waiter(owner: TaskId, value: Bits)

  /** `woken` holds, for each task woken and not run since, the value its item was given. */
  datatype State = State(bits: Bits, waiters: seq<Waiter>, woken: map<TaskId, Bits>)

  /** prvTestWaitCondition */
  predicate TestWaitCondition(current: Bits, waitFor: Bits, all: bool) {
    if all then current & waitFor == waitFor else current & waitFor != 0
  }

  /** The condition in terms of bits: of all, none is missing; of any, one is there. */
  lemma TestIsRight(current: Bits, waitFor: Bits, all: bool)
    ensures TestWaitCondition(current, waitFor, all) <==>
            if all then Minus(waitFor, current) == 0 else Meets(current, waitFor)
  {
    if all { NothingMissing(current, waitFor); }
  }

  lemma NothingMissing(current: Bits, waitFor: Bits)
    ensures current & waitFor == waitFor <==> waitFor & !current == 0
  {
    var there, missing := current & waitFor, waitFor & !current;
    ThereOrMissing(current, waitFor);
    NotBoth(current, waitFor);
    NothingAdded(there);
    if there == waitFor { assert missing == there & !current == 0; }
  }

  lemma ThereOrMissing(current: Bits, waitFor: Bits)
    ensures waitFor == (current & waitFor) | (waitFor & !current)
  {
  }

  lemma NotBoth(current: Bits, waitFor: Bits)
    ensures (current & waitFor) & !current == 0
  {
  }

  lemma NothingAdded(bits: Bits)
    ensures bits | 0 == bits
  {
  }

  // ---- Sets of bits ----

  function Union(a: Bits, b: Bits): Bits { a | b }

  function Minus(a: Bits, b: Bits): Bits { a & !b }

  /** Every bit of the mask is clear and every other bit as before. */
  predicate ClearedOf(bits: Bits, before: Bits, mask: Bits) {
    bits & mask == 0 && bits & !mask == before & !mask
  }

  lemma MinusClears(a: Bits, b: Bits)
    ensures ClearedOf(Minus(a, b), a, b)
  {
  }

  function Common(a: Bits, b: Bits): Bits { a & b }

  predicate Meets(a: Bits, b: Bits) { Common(a, b) != 0 }

  /** Every bit of a is in b. */
  predicate Within(a: Bits, b: Bits) { a & b == a }

  predicate EventBitsOnly(b: Bits) { b & CONTROL_BYTES == 0 }

  function EventBits(value: Bits): Bits {
    value & !CONTROL_BYTES
  }

  predicate WaitsForAll(w: Waiter) {
    w.value & WAIT_FOR_ALL_BITS != 0
  }

  predicate ClearsOnExit(w: Waiter) {
    w.value & CLEAR_EVENTS_ON_EXIT != 0
  }

  /** The waiter's any-or-all condition holds on these bits. */
  predicate Satisfied(w: Waiter, bits: Bits) {
    TestWaitCondition(bits, EventBits(w.value), WaitsForAll(w))
  }

  // ---- One pass over the waiting tasks ----

  function Remaining(ws: seq<Waiter>, bits: Bits): seq<Waiter> {
    if ws == [] then []
    else if Satisfied(ws[0], bits) then Remaining(ws[1..], bits)
    else [ws[0]] + Remaining(ws[1..], bits)
  }

  /** The union of the masks of the satisfied waiters that clear on exit. */
  function ToClear(ws: seq<Waiter>, bits: Bits): Bits {
    if ws == [] then 0
    else if Satisfied(ws[0], bits) && ClearsOnExit(ws[0]) then Union(EventBits(ws[0].value), ToClear(ws[1..], bits))
    else ToClear(ws[1..], bits)
  }

  /** vTaskRemoveFromUnorderedEventList: what a woken task finds in its item. */
  function WokenValue(bits: Bits): Bits {
    bits | UNBLOCKED_DUE_TO_BIT_SET | VALUE_IN_USE
  }

  function WokenAfter(ws: seq<Waiter>, bits: Bits, woken: map<TaskId, Bits>): map<TaskId, Bits> {
    if ws == [] then woken
    else WokenAfter(ws[1..], bits, if Satisfied(ws[0], bits) then woken[ws[0].owner := WokenValue(bits)] else woken)
  }

  function ApplySetBits(s: State, toSet: Bits): State {
    var bits := Union(s.bits, toSet);
    State(Minus(bits, ToClear(s.waiters, bits)), Remaining(s.waiters, bits), WokenAfter(s.waiters, bits, s.woken))
  }

  predicate Listed(ws: seq<Waiter>, t: TaskId) {
    ws != [] && (ws[0].owner == t || Listed(ws[1..], t))
  }

  predicate Distinct(ws: seq<Waiter>) {
    ws != [] ==> !Listed(ws[1..], ws[0].owner) && Distinct(ws[1..])
  }

  /** t waits, with a condition that holds on these bits. */
  predicate WaitsSatisfied(ws: seq<Waiter>, t: TaskId, bits: Bits) {
    ws != [] && ((ws[0].owner == t && Satisfied(ws[0], bits)) || WaitsSatisfied(ws[1..], t, bits))
  }

  predicate WaitsUnsatisfied(ws: seq<Waiter>, t: TaskId, bits: Bits) {
    ws != [] && ((ws[0].owner == t && !Satisfied(ws[0], bits)) || WaitsUnsatisfied(ws[1..], t, bits))
  }

  /** Exactly the waiters whose condition does not hold stay. */
  lemma {:induction false} RemainExactly(ws: seq<Waiter>, bits: Bits, t: TaskId)
    ensures Listed(Remaining(ws, bits), t) <==> WaitsUnsatisfied(ws, t, bits)
  {
    if ws != [] {
      RemainExactly(ws[1..], bits, t);
    }
  }

  /** Exactly the waiters whose condition holds are woken, all with the same value; nobody else's value changes. */
  lemma {:induction false} WokenExactly(ws: seq<Waiter>, bits: Bits, woken: map<TaskId, Bits>, t: TaskId)
    ensures var w' := WokenAfter(ws, bits, woken);
            if WaitsSatisfied(ws, t, bits) then t in w' && w'[t] == WokenValue(bits)
            else (t in w' <==> t in woken) && (t in woken ==> w'[t] == woken[t])
    decreases ws
  {
    if ws != [] {
      WokenExactly(ws[1..], bits, if Satisfied(ws[0], bits) then woken[ws[0].owner := WokenValue(bits)] else woken, t);
    }
  }

  /** A satisfied waiter that clears on exit and waits for some of the given bits. */
  predicate SomeoneClears(ws: seq<Waiter>, bits: Bits, some: Bits) {
    ws != [] && ((Satisfied(ws[0], bits) && ClearsOnExit(ws[0]) && Meets(EventBits(ws[0].value), some))
                 || SomeoneClears(ws[1..], bits, some))
  }

  lemma UnionMeets(a: Bits, b: Bits, c: Bits)
    ensures Meets(Union(a, b), c) <==> Meets(a, c) || Meets(b, c)
  {
    hide Union, Common;
    Distributes(a, b, c);
    UnionIsEmpty(Common(a, c), Common(b, c));
  }

  lemma Distributes(a: Bits, b: Bits, c: Bits)
    ensures Common(Union(a, b), c) == Union(Common(a, c), Common(b, c))
  {
  }

  lemma UnionIsEmpty(a: Bits, b: Bits)
    ensures Union(a, b) == 0 <==> a == 0 && b == 0
  {
  }

  /** A bit is cleared exactly when a satisfied waiter that clears on exit waits for it. */
  lemma {:induction false} ClearedExactly(ws: seq<Waiter>, bits: Bits, some: Bits)
    ensures Meets(ToClear(ws, bits), some) <==> SomeoneClears(ws, bits, some)
  {
    if ws == [] {
      assert !Meets(0, some);
    } else {
      hide Satisfied, ClearsOnExit, EventBits, Union, Meets;
      ClearedExactly(ws[1..], bits, some);
      UnionMeets(EventBits(ws[0].value), ToClear(ws[1..], bits), some);
    }
  }

  // ---- Nobody waits in vain ----

  predicate NoneSatisfied(ws: seq<Waiter>, bits: Bits) {
    ws != [] ==> !Satisfied(ws[0], bits) && NoneSatisfied(ws[1..], bits)
  }

  /** With fewer bits set, no condition that failed comes to hold. */
  lemma FewerBitsSatisfyLess(current: Bits, more: Bits, waitFor: Bits, all: bool)
    requires Within(current, more) && !TestWaitCondition(more, waitFor, all)
    ensures !TestWaitCondition(current, waitFor, all)
  {
    if all {
      assert current & more == current && current & waitFor == waitFor ==> more & waitFor == waitFor;
    } else {
      assert current & more == current && more & waitFor == 0 ==> current & waitFor == 0;
    }
  }

  lemma {:induction false} FewerBitsWakeNobody(ws: seq<Waiter>, current: Bits, more: Bits)
    requires Within(current, more) && NoneSatisfied(ws, more)
    ensures NoneSatisfied(ws, current)
  {
    if ws != [] {
      FewerBitsSatisfyLess(current, more, EventBits(ws[0].value), WaitsForAll(ws[0]));
      FewerBitsWakeNobody(ws[1..], current, more);
    }
  }

  lemma {:induction false} RemainingUnsatisfied(ws: seq<Waiter>, bits: Bits)
    ensures NoneSatisfied(Remaining(ws, bits), bits)
  {
    if ws != [] {
      RemainingUnsatisfied(ws[1..], bits);
    }
  }

  lemma {:induction false} AppendUnsatisfied(ws: seq<Waiter>, w: Waiter, bits: Bits)
    requires NoneSatisfied(ws, bits) && !Satisfied(w, bits)
    ensures NoneSatisfied(ws + [w], bits)
  {
    if ws != [] {
      AppendUnsatisfied(ws[1..], w, bits);
      assert (ws + [w])[1..] == ws[1..] + [w];
    }
  }

  function Without(ws: seq<Waiter>, t: TaskId): seq<Waiter> {
    if ws == [] then [] else if ws[0].owner == t then ws[1..] else [ws[0]] + Without(ws[1..], t)
  }

  lemma {:induction false} WithoutUnsatisfied(ws: seq<Waiter>, t: TaskId, bits: Bits)
    requires NoneSatisfied(ws, bits)
    ensures NoneSatisfied(Without(ws, t), bits)
  {
    if ws != [] && ws[0].owner != t { WithoutUnsatisfied(ws[1..], t, bits); }
  }

  // ---- Steps ----

  /** The value a task about to wait puts in its item. */
  function WaitValue(mask: Bits, clearOnExit: bool, all: bool): Bits {
    mask | (if clearOnExit then CLEAR_EVENTS_ON_EXIT else 0) | (if all then WAIT_FOR_ALL_BITS else 0) | VALUE_IN_USE
  }

  /** The item value of a waiting task says what the task asked for, and not that it was woken. */
  lemma WaitValueHolds(mask: Bits, clearOnExit: bool, all: bool)
    requires EventBitsOnly(mask)
    ensures var v := WaitValue(mask, clearOnExit, all);
            && EventBits(v) == mask && (v & WAIT_FOR_ALL_BITS != 0 <==> all)
            && (v & CLEAR_EVENTS_ON_EXIT != 0 <==> clearOnExit) && v & UNBLOCKED_DUE_TO_BIT_SET == 0
            && Meets(v, VALUE_IN_USE)
  {
  }

  /** A woken task finds the marker, and under it the bits. */
  lemma WokenValueHolds(bits: Bits)
    requires EventBitsOnly(bits)
    ensures Meets(WokenValue(bits), UNBLOCKED_DUE_TO_BIT_SET) && Meets(WokenValue(bits), VALUE_IN_USE)
    ensures EventBits(WokenValue(bits)) == bits
  {
  }

  datatype Step =
    | SetBits(toSet: Bits)
    | ClearBits(toClear: Bits)
    | WaitBits(t: TaskId, mask: Bits, clearOnExit: bool, all: bool, block: bool)
    | Sync(t: TaskId, toSet: Bits, mask: Bits, block: bool)
    | LeaveList(t: TaskId)                                            // the wait times out or is aborted
    | AfterTimeout(t: TaskId, mask: Bits, clearOnExit: bool, all: bool)
    | Collect(t: TaskId)

  predicate Idle(s: State, t: TaskId) {
    !Listed(s.waiters, t) && t !in s.woken
  }

  /** The source's assertions on its arguments; a task calls only while it neither waits nor has a value to collect. */
  predicate Enabled(s: State, e: Step) {
    match e
    case SetBits(toSet) => EventBitsOnly(toSet)
    case ClearBits(toClear) => EventBitsOnly(toClear)
    case WaitBits(t, mask, _, _, _) => EventBitsOnly(mask) && mask != 0 && Idle(s, t)
    case Sync(t, toSet, mask, _) => EventBitsOnly(toSet) && EventBitsOnly(mask) && mask != 0 && Idle(s, t)
    case LeaveList(t) => Listed(s.waiters, t)
    case AfterTimeout(t, mask, _, _) => EventBitsOnly(mask) && Idle(s, t)
    case Collect(t) => t in s.woken
  }

  /** xEventGroupWaitBits up to where the task blocks. */
  function ApplyWaitBits(s: State, t: TaskId, mask: Bits, clearOnExit: bool, all: bool, block: bool): State {
    if TestWaitCondition(s.bits, mask, all) then
      if clearOnExit then s.(bits := Minus(s.bits, mask)) else s
    else if !block then s
    else s.(waiters := s.waiters + [Waiter(t, WaitValue(mask, clearOnExit, all))])
  }

  /** xEventGroupSync up to where the task blocks. */
  function ApplySync(s: State, t: TaskId, toSet: Bits, mask: Bits, block: bool): State {
    var s1 := ApplySetBits(s, toSet);
    if TestWaitCondition(Union(s.bits, toSet), mask, true) then s1.(bits := Minus(s1.bits, mask))
    else if block then s1.(waiters := s1.waiters + [Waiter(t, WaitValue(mask, true, true))])
    else s1
  }

  // ---- What a call leaves behind ----

  /** A condition that is met costs the bits of the mask when they are to be cleared, and nothing otherwise. */
  lemma WaitMet(s: State, t: TaskId, mask: Bits, clearOnExit: bool, all: bool, block: bool)
    requires TestWaitCondition(s.bits, mask, all)
    ensures var s' := ApplyWaitBits(s, t, mask, clearOnExit, all, block);
            && s'.waiters == s.waiters && s'.woken == s.woken
            && (clearOnExit ==> ClearedOf(s'.bits, s.bits, mask)) && (!clearOnExit ==> s'.bits == s.bits)
  {
    MinusClears(s.bits, mask);
  }

  /** The item of a task that asked for this. */
  predicate AsksFor(w: Waiter, t: TaskId, mask: Bits, clearOnExit: bool, all: bool) {
    && w.owner == t && EventBits(w.value) == mask
    && (WaitsForAll(w) <==> all) && (ClearsOnExit(w) <==> clearOnExit)
    && !Meets(w.value, UNBLOCKED_DUE_TO_BIT_SET)
  }

  /** A condition that is not met queues the task behind the others with what it asked for, or does nothing. */
  lemma WaitUnmet(s: State, t: TaskId, mask: Bits, clearOnExit: bool, all: bool, block: bool)
    requires !TestWaitCondition(s.bits, mask, all) && EventBitsOnly(mask)
    ensures var s' := ApplyWaitBits(s, t, mask, clearOnExit, all, block);
            && s'.bits == s.bits && s'.woken == s.woken
            && if block then exists w :: s'.waiters == s.waiters + [w] && AsksFor(w, t, mask, clearOnExit, all)
               else s'.waiters == s.waiters
  {
    WaitValueHolds(mask, clearOnExit, all);
    hide EventBits, EventBitsOnly, WaitValue, TestWaitCondition;
    if block {
      var w := Waiter(t, WaitValue(mask, clearOnExit, all));
      assert AsksFor(w, t, mask, clearOnExit, all);
    }
  }

  /** The last to arrive leaves the mask clear and every other bit as setting the bits had left it; any other task is
      queued, to be woken by all of the mask and to clear it. */
  lemma SyncLeaves(s: State, t: TaskId, toSet: Bits, mask: Bits, block: bool)
    requires EventBitsOnly(mask)
    ensures var s', s1 := ApplySync(s, t, toSet, mask, block), ApplySetBits(s, toSet);
            && s'.woken == s1.woken
            && if TestWaitCondition(Union(s.bits, toSet), mask, true) then
                 s'.waiters == s1.waiters && ClearedOf(s'.bits, s1.bits, mask)
               else
                 && s'.bits == s1.bits
                 && if block then exists w :: s'.waiters == s1.waiters + [w] && AsksFor(w, t, mask, true, true)
                    else s'.waiters == s1.waiters
  {
    WaitValueHolds(mask, true, true);
    hide EventBits, EventBitsOnly, WaitValue, TestWaitCondition, ApplySetBits;
    var s1 := ApplySetBits(s, toSet);
    MinusClears(s1.bits, mask);
    if !TestWaitCondition(Union(s.bits, toSet), mask, true) && block {
      var w := Waiter(t, WaitValue(mask, true, true));
      assert AsksFor(w, t, mask, true, true);
    }
  }

  /** The waiting tasks that stay do so with their items as they were and in their order: the pass deals with each part
      of the list by itself. */
  lemma {:induction false} RemainingBoth(a: seq<Waiter>, b: seq<Waiter>, bits: Bits)
    ensures Remaining(a + b, bits) == Remaining(a, bits) + Remaining(b, bits)
    ensures forall w :: w in Remaining(a, bits) ==> w in a
    decreases a
  {
    hide Satisfied;
    if a == [] {
      assert a + b == b;
    } else {
      RemainingBoth(a[1..], b, bits);
      assert (a + b)[1..] == a[1..] + b;
      assert [a[0]] + (Remaining(a[1..], bits) + Remaining(b, bits)) == ([a[0]] + Remaining(a[1..], bits)) + Remaining(b, bits);
    }
  }

  function Apply(s: State, e: Step): State {
    match e
    case SetBits(toSet) => ApplySetBits(s, toSet)
    case ClearBits(toClear) => s.(bits := Minus(s.bits, toClear))
    case WaitBits(t, mask, clearOnExit, all, block) => ApplyWaitBits(s, t, mask, clearOnExit, all, block)
    case Sync(t, toSet, mask, block) => ApplySync(s, t, toSet, mask, block)
    case LeaveList(t) => s.(waiters := Without(s.waiters, t))
    case AfterTimeout(t, mask, clearOnExit, all) =>
      if TestWaitCondition(s.bits, mask, all) && clearOnExit then s.(bits := Minus(s.bits, mask)) else s
    case Collect(t) => s.(woken := s.woken - {t})
  }

  ghost predicate Inv(s: State) {
    EventBitsOnly(s.bits) && NoneSatisfied(s.waiters, s.bits) && Apart(s.waiters, s.woken)
  }

  /** A task is on the list once at most, and not at all once it has been woken and has the marker in its item. */
  ghost predicate Apart(ws: seq<Waiter>, woken: map<TaskId, Bits>) {
    Distinct(ws) && forall t :: t in woken ==> !Listed(ws, t) && Meets(woken[t], UNBLOCKED_DUE_TO_BIT_SET)
  }

  lemma {:induction false} RemainingDistinct(ws: seq<Waiter>, bits: Bits)
    requires Distinct(ws)
    ensures Distinct(Remaining(ws, bits))
  {
    if ws != [] {
      RemainingDistinct(ws[1..], bits);
      RemainExactly(ws[1..], bits, ws[0].owner);
      NotListedNotUnsatisfied(ws[1..], ws[0].owner, bits);
    }
  }

  lemma WokenIsMarked(bits: Bits)
    ensures Meets(WokenValue(bits), UNBLOCKED_DUE_TO_BIT_SET)
  {
  }

  lemma RemainingApart(ws: seq<Waiter>, bits: Bits, woken: map<TaskId, Bits>)
    requires Apart(ws, woken)
    ensures Apart(Remaining(ws, bits), WokenAfter(ws, bits, woken))
  {
    RemainingDistinct(ws, bits);
    WokenIsMarked(bits);
    hide Meets, WokenValue;
    forall t | t in WokenAfter(ws, bits, woken)
      ensures !Listed(Remaining(ws, bits), t) && Meets(WokenAfter(ws, bits, woken)[t], UNBLOCKED_DUE_TO_BIT_SET)
    {
      RemainExactly(ws, bits, t);
      WokenExactly(ws, bits, woken, t);
      if WaitsSatisfied(ws, t, bits) {
        OnlyOnce(ws, t, bits);
      } else {
        NotListedNotUnsatisfied(ws, t, bits);
      }
    }
  }

  lemma {:induction false} AppendListed(ws: seq<Waiter>, w: Waiter, t: TaskId)
    ensures Listed(ws + [w], t) <==> Listed(ws, t) || w.owner == t
  {
    if ws != [] {
      AppendListed(ws[1..], w, t);
      assert (ws + [w])[1..] == ws[1..] + [w];
    }
  }

  lemma {:induction false} AppendDistinct(ws: seq<Waiter>, w: Waiter)
    requires Distinct(ws) && !Listed(ws, w.owner)
    ensures Distinct(ws + [w])
  {
    if ws != [] {
      AppendDistinct(ws[1..], w);
      AppendListed(ws[1..], w, ws[0].owner);
      assert (ws + [w])[1..] == ws[1..] + [w];
    }
  }

  lemma AppendApart(ws: seq<Waiter>, w: Waiter, woken: map<TaskId, Bits>)
    requires Apart(ws, woken) && !Listed(ws, w.owner) && w.owner !in woken
    ensures Apart(ws + [w], woken)
  {
    AppendDistinct(ws, w);
    forall t | t in woken ensures !Listed(ws + [w], t) { AppendListed(ws, w, t); }
  }

  lemma {:induction false} WithoutListed(ws: seq<Waiter>, t: TaskId, u: TaskId)
    requires !Listed(ws, u)
    ensures !Listed(Without(ws, t), u)
  {
    if ws != [] && ws[0].owner != t { WithoutListed(ws[1..], t, u); }
  }

  lemma {:induction false} WithoutDistinct(ws: seq<Waiter>, t: TaskId)
    requires Distinct(ws)
    ensures Distinct(Without(ws, t))
  {
    if ws != [] && ws[0].owner != t {
      WithoutDistinct(ws[1..], t);
      WithoutListed(ws[1..], t, ws[0].owner);
    }
  }

  lemma LeaveKeepsInv(s: State, t: TaskId)
    requires Inv(s)
    ensures Inv(s.(waiters := Without(s.waiters, t)))
  {
    WithoutUnsatisfied(s.waiters, t, s.bits);
    WithoutDistinct(s.waiters, t);
    forall u | u in s.woken ensures !Listed(Without(s.waiters, t), u) { WithoutListed(s.waiters, t, u); }
  }

  lemma MinusFacts(a: Bits, b: Bits)
    ensures Within(Minus(a, b), a) && !Meets(Minus(a, b), b)
    ensures EventBitsOnly(a) ==> EventBitsOnly(Minus(a, b))
  {
  }

  lemma UnionFacts(a: Bits, b: Bits)
    requires EventBitsOnly(a) && EventBitsOnly(b)
    ensures EventBitsOnly(Union(a, b))
  {
  }

  lemma ClearingKeepsInv(s: State, mask: Bits)
    requires Inv(s)
    ensures Inv(s.(bits := Minus(s.bits, mask)))
  {
    hide Minus, Within, Meets, EventBitsOnly;
    MinusFacts(s.bits, mask);
    FewerBitsWakeNobody(s.waiters, Minus(s.bits, mask), s.bits);
  }

  lemma SetBitsKeepsInv(s: State, toSet: Bits)
    requires Inv(s) && EventBitsOnly(toSet)
    ensures Inv(ApplySetBits(s, toSet))
    ensures Within(ApplySetBits(s, toSet).bits, Union(s.bits, toSet))
  {
    hide Union, Minus, Within, Meets, EventBitsOnly;
    var bits := Union(s.bits, toSet);
    UnionFacts(s.bits, toSet);
    MinusFacts(bits, ToClear(s.waiters, bits));
    RemainingUnsatisfied(s.waiters, bits);
    RemainingApart(s.waiters, bits, s.woken);
    FewerBitsWakeNobody(Remaining(s.waiters, bits), Minus(bits, ToClear(s.waiters, bits)), bits);
  }

  lemma WaitKeepsInv(s: State, t: TaskId, mask: Bits, clearOnExit: bool, all: bool)
    requires Inv(s) && EventBitsOnly(mask) && !TestWaitCondition(s.bits, mask, all) && Idle(s, t)
    ensures Inv(s.(waiters := s.waiters + [Waiter(t, WaitValue(mask, clearOnExit, all))]))
  {
    WaitValueHolds(mask, clearOnExit, all);
    AppendUnsatisfied(s.waiters, Waiter(t, WaitValue(mask, clearOnExit, all)), s.bits);
    AppendApart(s.waiters, Waiter(t, WaitValue(mask, clearOnExit, all)), s.woken);
  }

  lemma SyncKeepsInv(s: State, t: TaskId, toSet: Bits, mask: Bits, block: bool)
    requires Inv(s) && EventBitsOnly(toSet) && EventBitsOnly(mask) && Idle(s, t)
    ensures Inv(ApplySync(s, t, toSet, mask, block))
  {
    RemainExactly(s.waiters, Union(s.bits, toSet), t);
    WokenExactly(s.waiters, Union(s.bits, toSet), s.woken, t);
    NotListedNotUnsatisfied(s.waiters, t, Union(s.bits, toSet));
    hide Union, Minus, Within, Meets, EventBitsOnly, TestWaitCondition, WaitValue;
    SetBitsKeepsInv(s, toSet);
    var s1 := ApplySetBits(s, toSet);
    if TestWaitCondition(Union(s.bits, toSet), mask, true) {
      ClearingKeepsInv(s1, mask);
    } else if block {
      FewerBitsSatisfyLess(s1.bits, Union(s.bits, toSet), mask, true);
      WaitKeepsInv(s1, t, mask, true, true);
    }
  }

  lemma StepKeepsInv(s: State, e: Step)
    requires Inv(s) && Enabled(s, e)
    ensures Inv(Apply(s, e))
  {
    hide Minus, EventBitsOnly, TestWaitCondition, WaitValue, ApplySetBits, ApplySync;
    match e
    case SetBits(toSet) => SetBitsKeepsInv(s, toSet);
    case ClearBits(toClear) => ClearingKeepsInv(s, toClear);
    case WaitBits(t, mask, clearOnExit, all, block) =>
      if TestWaitCondition(s.bits, mask, all) {
        ClearingKeepsInv(s, mask);
      } else {
        WaitKeepsInv(s, t, mask, clearOnExit, all);
      }
    case Sync(t, toSet, mask, block) => SyncKeepsInv(s, t, toSet, mask, block);
    case LeaveList(t) => LeaveKeepsInv(s, t);
    case AfterTimeout(t, mask, clearOnExit, all) => ClearingKeepsInv(s, mask);
    case Collect(t) =>
  }

  // ---- Every run ----

  predicate RunEnabled(s: State, es: seq<Step>)
    decreases es
  {
    es != [] ==> Enabled(s, es[0]) && RunEnabled(Apply(s, es[0]), es[1..])
  }

  function Run(s: State, es: seq<Step>): State
    decreases es
  {
    if es == [] then s else Run(Apply(s, es[0]), es[1..])
  }

  lemma {:induction false} RunKeepsInv(s: State, es: seq<Step>)
    requires Inv(s) && RunEnabled(s, es)
    ensures Inv(Run(s, es))
    decreases es
  {
    if es != [] {
      StepKeepsInv(s, es[0]);
      RunKeepsInv(Apply(s, es[0]), es[1..]);
    }
  }

  lemma {:induction false} NoneSatisfiedMeans(ws: seq<Waiter>, bits: Bits, t: TaskId)
    requires NoneSatisfied(ws, bits)
    ensures !WaitsSatisfied(ws, t, bits)
  {
    if ws != [] { NoneSatisfiedMeans(ws[1..], bits, t); }
  }

  /** In every reachable state no waiting task's condition is met. */
  lemma NobodyWaitsInVain(es: seq<Step>, t: TaskId)
    requires RunEnabled(State(0, [], map[]), es)
    ensures var s := Run(State(0, [], map[]), es); !WaitsSatisfied(s.waiters, t, s.bits)
  {
    RunKeepsInv(State(0, [], map[]), es);
    var s := Run(State(0, [], map[]), es);
    NoneSatisfiedMeans(s.waiters, s.bits, t);
  }

  /** xEventGroupSetBits wakes exactly the waiters whose condition holds on the bits after setting and before clearing,
      and each of them reads those bits back. */
  lemma SetBitsWakesExactly(s: State, toSet: Bits, t: TaskId)
    requires Inv(s) && EventBitsOnly(toSet) && t !in s.woken
    ensures var s' := ApplySetBits(s, toSet);
            var bits := Union(s.bits, toSet);
            && (t in s'.woken <==> WaitsSatisfied(s.waiters, t, bits))
            && (t in s'.woken ==> EventBits(s'.woken[t]) == bits && Meets(s'.woken[t], UNBLOCKED_DUE_TO_BIT_SET))
            && (Listed(s'.waiters, t) <==> WaitsUnsatisfied(s.waiters, t, bits))
  {
    hide Union, Minus, Meets, EventBits, EventBitsOnly, WokenValue;
    var bits := Union(s.bits, toSet);
    UnionFacts(s.bits, toSet);
    WokenExactly(s.waiters, bits, s.woken, t);
    RemainExactly(s.waiters, bits, t);
    WokenValueHolds(bits);
  }

  /** Of the bits set on entry or by the call, exactly those some woken waiter clears on exit are gone afterwards. */
  lemma SetBitsClearsExactly(s: State, toSet: Bits, bit: Bits)
    requires SingleBit(bit) && Within(bit, Union(s.bits, toSet))
    ensures Meets(ApplySetBits(s, toSet).bits, bit) <==> !SomeoneClears(s.waiters, Union(s.bits, toSet), bit)
  {
    hide Union, Minus, Meets, Within, SingleBit;
    var bits := Union(s.bits, toSet);
    ClearedExactly(s.waiters, bits, bit);
    MinusSingleBit(bits, ToClear(s.waiters, bits), bit);
  }

  /** One bit: every set of bits has all of it or nothing of it. */
  ghost predicate SingleBit(bit: Bits) {
    bit != 0 && forall x: Bits :: Meets(x, bit) ==> Within(bit, x)
  }

  lemma MinusSingleBit(bits: Bits, clear: Bits, bit: Bits)
    requires SingleBit(bit) && Within(bit, bits)
    ensures Meets(Minus(bits, clear), bit) <==> !Meets(clear, bit)
  {
    if Meets(clear, bit) {
      WithinBoth(bits, clear, bit);
    } else {
      OutsideOne(bits, clear, bit);
    }
  }

  lemma WithinBoth(bits: Bits, clear: Bits, bit: Bits)
    requires Within(bit, clear)
    ensures !Meets(Minus(bits, clear), bit)
  {
  }

  lemma OutsideOne(bits: Bits, clear: Bits, bit: Bits)
    requires bit != 0 && Within(bit, bits) && !Meets(clear, bit)
    ensures Meets(Minus(bits, clear), bit)
  {
    assert (bits & !clear) & bit == bit;
  }

  // ---- The rendezvous ----

  /** t waits in xEventGroupSync for this mask. */
  predicate SyncsOn(ws: seq<Waiter>, t: TaskId, mask: Bits) {
    ws != [] && (ws[0] == Waiter(t, WaitValue(mask, true, true)) || SyncsOn(ws[1..], t, mask))
  }

  lemma SyncWaiterSatisfied(t: TaskId, mask: Bits, bits: Bits)
    requires EventBitsOnly(mask)
    ensures Satisfied(Waiter(t, WaitValue(mask, true, true)), bits) <==> TestWaitCondition(bits, mask, true)
  {
    WaitValueHolds(mask, true, true);
  }

  lemma {:induction false} SyncingIsSatisfied(ws: seq<Waiter>, t: TaskId, mask: Bits, bits: Bits)
    requires SyncsOn(ws, t, mask) && EventBitsOnly(mask) && TestWaitCondition(bits, mask, true)
    ensures WaitsSatisfied(ws, t, bits)
  {
    hide Satisfied, TestWaitCondition, WaitValue, EventBitsOnly;
    SyncWaiterSatisfied(t, mask, bits);
    if ws[0] != Waiter(t, WaitValue(mask, true, true)) {
      SyncingIsSatisfied(ws[1..], t, mask, bits);
    }
  }

  lemma {:induction false} SyncingIsListed(ws: seq<Waiter>, t: TaskId, mask: Bits)
    requires SyncsOn(ws, t, mask)
    ensures Listed(ws, t)
  {
    hide WaitValue;
    if ws[0] != Waiter(t, WaitValue(mask, true, true)) { SyncingIsListed(ws[1..], t, mask); }
  }

  /** The last to arrive releases every task synchronising on the same mask, with the bits that completed it, and
      leaves the mask clear. */
  lemma LastArrivalReleasesAll(s: State, t: TaskId, toSet: Bits, mask: Bits, block: bool, peer: TaskId)
    requires Inv(s) && EventBitsOnly(toSet) && EventBitsOnly(mask)
    requires TestWaitCondition(Union(s.bits, toSet), mask, true)
    requires SyncsOn(s.waiters, peer, mask)
    ensures var s' := ApplySync(s, t, toSet, mask, block);
            && !Meets(s'.bits, mask)
            && peer in s'.woken && EventBits(s'.woken[peer]) == Union(s.bits, toSet) && !Listed(s'.waiters, peer)
  {
    hide Union, Minus, Meets, EventBits, EventBitsOnly, TestWaitCondition, ApplySetBits;
    var bits := Union(s.bits, toSet);
    SyncingIsSatisfied(s.waiters, peer, mask, bits);
    SyncingIsListed(s.waiters, peer, mask);
    SetBitsWakesExactly(s, toSet, peer);
    MinusFacts(ApplySetBits(s, toSet).bits, mask);
    OnlyOnce(s.waiters, peer, bits);
  }

  lemma {:induction false} OnlyOnce(ws: seq<Waiter>, t: TaskId, bits: Bits)
    requires Distinct(ws) && WaitsSatisfied(ws, t, bits)
    ensures !WaitsUnsatisfied(ws, t, bits)
  {
    if ws[0].owner == t {
      NotListedNotUnsatisfied(ws[1..], t, bits);
    } else {
      OnlyOnce(ws[1..], t, bits);
    }
  }

  lemma {:induction false} NotListedNotUnsatisfied(ws: seq<Waiter>, t: TaskId, bits: Bits)
    requires !Listed(ws, t)
    ensures !WaitsUnsatisfied(ws, t, bits) && !WaitsSatisfied(ws, t, bits)
  {
    if ws != [] { NotListedNotUnsatisfied(ws[1..], t, bits); }
  }

  // ---- The event group object ----

  lemma UnionAssociates(a: Bits, b: Bits, c: Bits)
    ensures Union(Union(a, b), c) == Union(a, Union(b, c)) && Union(0, a) == a && Union(a, 0) == a
  {
  }

  class EventGroup {
    var eventBits: Bits
    var waiting: seq<Waiter>
    /** The event list items of tasks woken and not run since. */
    var woken: map<TaskId, Bits>

    constructor ()
      ensures View() == State(0, [], map[])
    {
      eventBits, waiting, woken := 0, [], map[];
    }

    function View(): State
      reads this
    {
      State(eventBits, waiting, woken)
    }

    /** xEventGroupSetBits: one traversal of the list, which shrinks under it; the bits are cleared after it. */
    method SetBits(toSet: Bits) returns (bits: Bits)
      requires EventBitsOnly(toSet)
      modifies this
      ensures View() == ApplySetBits(old(View()), toSet) && bits == eventBits
    {
      hide Minus, EventBits, EventBitsOnly, WokenValue, Union, Satisfied, ClearsOnExit, WaitsForAll, Meets, Within,
           Passing;
      var toClear: Bits := 0;
      eventBits := Union(eventBits, toSet);
      var k := 0;
      PassBegins(waiting, eventBits, woken);
      while k < |waiting|
        invariant 0 <= k <= |waiting| && eventBits == Union(old(eventBits), toSet)
        invariant Passing(old(waiting), old(woken), eventBits, waiting, k, woken, toClear)
        decreases |waiting| - k
      {
        var item := waiting[k];
        var bitsWaitedFor := EventBits(item.value);
        var matchFound := false;
        if !WaitsForAll(item) {
          if Meets(bitsWaitedFor, eventBits) {
            matchFound := true;
          }
        } else if Within(bitsWaitedFor, eventBits) {
          matchFound := true;
        }
        MatchIsSatisfied(item, eventBits);
        PassOne(old(waiting), old(woken), eventBits, waiting, k, woken, toClear);
        if matchFound {
          if ClearsOnExit(item) {
            toClear := Union(toClear, bitsWaitedFor);
          }
          woken := woken[item.owner := WokenValue(eventBits)];
          waiting := waiting[..k] + waiting[k + 1..];
        } else {
          k := k + 1;
        }
      }
      PassEnds(old(waiting), old(woken), eventBits, waiting, k, woken, toClear);
      eventBits := Minus(eventBits, toClear);
      bits := eventBits;
    }

    /** xEventGroupClearBits: the value before clearing is returned. */
    method ClearBits(toClear: Bits) returns (bits: Bits)
      modifies this
      ensures View() == Apply(old(View()), Step.ClearBits(toClear)) && bits == old(eventBits)
      ensures ClearedOf(eventBits, old(eventBits), toClear) && unchanged(`waiting, `woken)
    {
      MinusClears(eventBits, toClear);
      bits := eventBits;
      eventBits := Minus(eventBits, toClear);
    }

    /** xEventGroupWaitBits with the scheduler suspended: `met` says that the condition held and the task need not wait. */
    method WaitSection(t: TaskId, mask: Bits, clearOnExit: bool, all: bool, block: bool) returns (met: bool, bits: Bits)
      modifies this
      ensures View() == ApplyWaitBits(old(View()), t, mask, clearOnExit, all, block)
      ensures met == TestWaitCondition(old(eventBits), mask, all)
      ensures met || !block ==> bits == old(eventBits) && unchanged(`waiting, `woken)
      ensures met && clearOnExit ==> ClearedOf(eventBits, old(eventBits), mask)
      ensures !(met && clearOnExit) ==> eventBits == old(eventBits)
      ensures !met && block && EventBitsOnly(mask) ==>
                exists w :: waiting == old(waiting) + [w] && AsksFor(w, t, mask, clearOnExit, all)
    {
      if TestWaitCondition(eventBits, mask, all) {
        WaitMet(View(), t, mask, clearOnExit, all, block);
      } else if EventBitsOnly(mask) {
        WaitUnmet(View(), t, mask, clearOnExit, all, block);
      }
      hide Minus, TestWaitCondition, ClearedOf, AsksFor, EventBitsOnly;
      var current := eventBits;
      met := TestWaitCondition(current, mask, all);
      if met {
        bits := current;
        if clearOnExit {
          eventBits := Minus(eventBits, mask);
        }
      } else if !block {
        bits := current;
      } else {
        var control: Bits := 0;
        if clearOnExit {
          control := control | CLEAR_EVENTS_ON_EXIT;
        }
        if all {
          control := control | WAIT_FOR_ALL_BITS;
        }
        ControlBits(mask, clearOnExit, all, control);
        waiting := waiting + [Waiter(t, mask | control | VALUE_IN_USE)];
        bits := 0;
      }
    }

    /** xEventGroupSync with the scheduler suspended. */
    method SyncSection(t: TaskId, toSet: Bits, mask: Bits, block: bool) returns (met: bool, bits: Bits)
      requires EventBitsOnly(toSet)
      modifies this
      ensures View() == ApplySync(old(View()), t, toSet, mask, block)
      ensures met == TestWaitCondition(Union(old(eventBits), toSet), mask, true)
      ensures met ==> bits == Union(old(eventBits), toSet) && !Meets(eventBits, mask)
      ensures !met && !block ==> bits == eventBits
    {
      hide Minus, TestWaitCondition, Union, WaitValue, Meets;
      var original := eventBits;
      var _ := SetBits(toSet);
      met := TestWaitCondition(Union(original, toSet), mask, true);
      if met {
        bits := Union(original, toSet);
        MinusFacts(eventBits, mask);
        eventBits := Minus(eventBits, mask);
      } else if block {
        waiting := waiting + [Waiter(t, WaitValue(mask, true, true))];
        bits := 0;
      } else {
        bits := eventBits;
      }
    }

    /** What a task that has blocked does once it runs again: it takes the value left in its item, or, when that was not
        put there by a waker, looks at the bits once more. */
    method Returns(t: TaskId, mask: Bits, clearOnExit: bool, all: bool) returns (bits: Bits, timedOut: bool)
      requires Inv(View()) && EventBitsOnly(mask) && !Listed(waiting, t)
      modifies this
      ensures timedOut <==> t !in old(woken)
      ensures !timedOut ==> bits == EventBits(old(woken)[t]) && View() == Apply(old(View()), Collect(t))
      ensures timedOut ==>
                && bits == old(eventBits) && View() == Apply(old(View()), AfterTimeout(t, mask, clearOnExit, all))
                && if TestWaitCondition(old(eventBits), mask, all) && clearOnExit
                   then ClearedOf(eventBits, old(eventBits), mask) else eventBits == old(eventBits)
    {
      WaitValueHolds(mask, clearOnExit, all);
      AllIsEventBits(eventBits);
      MinusClears(eventBits, mask);
      hide Minus, TestWaitCondition, ClearedOf, EventBits, EventBitsOnly, WaitValue, Meets;
      var value := if t in woken then woken[t] else WaitValue(mask, clearOnExit, all);
      woken := woken - {t};
      timedOut := !Meets(value, UNBLOCKED_DUE_TO_BIT_SET);
      if timedOut {
        value := eventBits;
        if TestWaitCondition(value, mask, all) {
          if clearOnExit {
            eventBits := Minus(eventBits, mask);
          }
        }
      }
      bits := EventBits(value);
    }
  }

  lemma AllIsEventBits(bits: Bits)
    requires EventBitsOnly(bits)
    ensures EventBits(bits) == bits
  {
  }

  lemma ControlBits(mask: Bits, clearOnExit: bool, all: bool, control: Bits)
    requires control == (if clearOnExit then CLEAR_EVENTS_ON_EXIT else 0) | (if all then WAIT_FOR_ALL_BITS else 0)
    ensures mask | control | VALUE_IN_USE == WaitValue(mask, clearOnExit, all)
  {
  }

  /** The match the traversal computes from the item value. */
  lemma MatchIsSatisfied(w: Waiter, bits: Bits)
    ensures Satisfied(w, bits) <==>
            if WaitsForAll(w) then Within(EventBits(w.value), bits) else Meets(EventBits(w.value), bits)
  {
    hide WaitsForAll, EventBits;
    var m := EventBits(w.value);
    assert bits & m == m & bits;
  }

  /** The traversal has dealt with the items before position k of what is left of the list. */
  predicate Passing(ws0: seq<Waiter>, woken0: map<TaskId, Bits>, bits: Bits,
                    ws: seq<Waiter>, k: nat, woken: map<TaskId, Bits>, toClear: Bits)
  {
    && k <= |ws|
    && ws[..k] + Remaining(ws[k..], bits) == Remaining(ws0, bits)
    && WokenAfter(ws[k..], bits, woken) == WokenAfter(ws0, bits, woken0)
    && Union(toClear, ToClear(ws[k..], bits)) == ToClear(ws0, bits)
  }

  lemma PassBegins(ws: seq<Waiter>, bits: Bits, woken: map<TaskId, Bits>)
    ensures Passing(ws, woken, bits, ws, 0, woken, 0)
  {
    hide Union;
    UnionAssociates(ToClear(ws, bits), 0, 0);
    assert ws[0..] == ws && ws[..0] == [];
  }

  lemma PassOne(ws0: seq<Waiter>, woken0: map<TaskId, Bits>, bits: Bits,
                ws: seq<Waiter>, k: nat, woken: map<TaskId, Bits>, toClear: Bits)
    requires Passing(ws0, woken0, bits, ws, k, woken, toClear) && k < |ws|
    ensures if Satisfied(ws[k], bits) then
              Passing(ws0, woken0, bits, ws[..k] + ws[k + 1..], k, woken[ws[k].owner := WokenValue(bits)],
                      if ClearsOnExit(ws[k]) then Union(toClear, EventBits(ws[k].value)) else toClear)
            else
              Passing(ws0, woken0, bits, ws, k + 1, woken, toClear)
  {
    hide EventBits, WokenValue, Union, Satisfied, ClearsOnExit;
    var item, rest := ws[k], ws[k + 1..];
    assert ws[k..][1..] == rest && ws[k..][0] == item;
    if Satisfied(item, bits) {
      var ws' := ws[..k] + rest;
      assert ws'[..k] == ws[..k] && ws'[k..] == rest;
      UnionAssociates(toClear, EventBits(item.value), ToClear(rest, bits));
    } else {
      assert ws[..k] + ([item] + Remaining(rest, bits)) == ws[..k + 1] + Remaining(rest, bits);
    }
  }

  lemma PassEnds(ws0: seq<Waiter>, woken0: map<TaskId, Bits>, bits: Bits,
                 ws: seq<Waiter>, k: nat, woken: map<TaskId, Bits>, toClear: Bits)
    requires Passing(ws0, woken0, bits, ws, k, woken, toClear) && k == |ws|
    ensures ws == Remaining(ws0, bits) && woken == WokenAfter(ws0, bits, woken0) && toClear == ToClear(ws0, bits)
  {
    hide Union;
    UnionAssociates(toClear, 0, 0);
    assert ws[k..] == [] && ws[..k] + [] == ws;
  }
}
