/** Who waits, who has been woken and how the two lock counts stand: the protocol between tasks and interrupts around one
    queue that is not in a queue set. The steps are the critical sections of queue.c. */

module QueueProtocol {
  import opened Basics

  /** queueUNLOCKED, queueLOCKED_UNMODIFIED and queueINT8_MAX */
  const UNLOCKED: int := -1
  const LOCKED_UNMODIFIED: int := 0
  const INT8_MAX: int := 127

  /** Where the one task that has the scheduler suspended and the queue locked stands. */
  datatype Locker =
    | Nobody
    | Locked                  // has locked the queue
    | FoundEmpty(t: TaskId)   // has found it empty, about to go on the event list
    | FoundFull(t: TaskId)    // has found it full, about to go on the event list
    | TxUnlocked              // has replayed the sends, about to replay the receives

  /** `wokenR` and `wokenS` are the tasks taken off an event list by a send or receive that have not run since. */
  datatype State = State(
    length: nat, messages: nat,
    rxLock: int, txLock: int,
    waitingR: seq<TaskId>, waitingS: seq<TaskId>,
    wokenR: set<TaskId>, wokenS: set<TaskId>,
    locker: Locker)

  datatype Step =
    | Send(t: TaskId) | Overwrite(t: TaskId) | Receive(t: TaskId) | Peek(t: TaskId)
    | IsrSend | IsrOverwrite | IsrReceive
    | Lock | CheckEmpty(t: TaskId) | CheckFull(t: TaskId) | PlaceR(at: nat) | PlaceS(at: nat)
    | UnlockTx | UnlockRx
    | LeaveR(t: TaskId) | LeaveS(t: TaskId)

  /** Incrementing an int8_t lock count: configASSERT only prints, so the count wraps after 127. */
  function Bump(lock: int): int {
    if lock == INT8_MAX then -128 else lock + 1
  }

  // ---- Waking ----

  /** The head of the receivers' event list is taken off and made ready. */
  function WakeReceiver(s: State): State {
    if s.waitingR == [] then s else s.(waitingR := s.waitingR[1..], wokenR := s.wokenR + {s.waitingR[0]})
  }

  function WakeSender(s: State): State {
    if s.waitingS == [] then s else s.(waitingS := s.waitingS[1..], wokenS := s.wokenS + {s.waitingS[0]})
  }

  /** The replay loops of prvUnlockQueue: one task woken for each item counted, until there are none left waiting. */
  function ReplaySends(s: State, count: int): State
    decreases count
  {
    if count <= LOCKED_UNMODIFIED || s.waitingR == [] then s else ReplaySends(WakeReceiver(s), count - 1)
  }

  function ReplayReceives(s: State, count: int): State
    decreases count
  {
    if count <= LOCKED_UNMODIFIED || s.waitingS == [] then s else ReplayReceives(WakeSender(s), count - 1)
  }

  // ---- Steps ----

  /** A task is back inside its own loop. */
  function Rerun(s: State, t: TaskId): State {
    s.(wokenR := s.wokenR - {t}, wokenS := s.wokenS - {t})
  }

  function Added(s: State, overwrite: bool): State {
    s.(messages := if overwrite && s.messages > 0 then s.messages else s.messages + 1)
  }

  function ApplySend(s: State, t: TaskId, overwrite: bool): State {
    var s1 := Rerun(s, t);
    if s1.messages < s1.length || overwrite then WakeReceiver(Added(s1, overwrite)) else s1
  }

  function ApplyReceive(s: State, t: TaskId): State {
    var s1 := Rerun(s, t);
    if s1.messages > 0 then WakeSender(s1.(messages := s1.messages - 1)) else s1
  }

  function ApplyPeek(s: State, t: TaskId): State {
    var s1 := Rerun(s, t);
    if s1.messages > 0 then WakeReceiver(s1) else s1
  }

  function ApplyIsrSend(s: State, overwrite: bool): State {
    if s.messages < s.length || overwrite then
      if s.txLock == UNLOCKED then WakeReceiver(Added(s, overwrite))
      else Added(s, overwrite).(txLock := Bump(s.txLock))
    else s
  }

  function ApplyIsrReceive(s: State): State {
    if s.messages > 0 then
      var s1 := s.(messages := s.messages - 1);
      if s.rxLock == UNLOCKED then WakeSender(s1) else s1.(rxLock := Bump(s.rxLock))
    else s
  }

  predicate Blocked(s: State, t: TaskId) {
    t in s.waitingR || t in s.waitingS
  }

  /** While a task has the scheduler suspended only it and interrupts take steps. A woken task comes back through the
      critical section at the top of the loop it was waiting in before it does anything else. */
  predicate Enabled(s: State, e: Step) {
    match e
    case Send(t) => s.locker.Nobody? && !Blocked(s, t) && t !in s.wokenR
    case Overwrite(t) => s.locker.Nobody? && !Blocked(s, t) && t !in s.wokenR && s.length == 1
    case Receive(t) => s.locker.Nobody? && !Blocked(s, t) && t !in s.wokenS
    case Peek(t) => s.locker.Nobody? && !Blocked(s, t) && t !in s.wokenS
    case IsrSend => true
    case IsrOverwrite => s.length == 1
    case IsrReceive => true
    case Lock => s.locker.Nobody?
    case CheckEmpty(t) => s.locker.Locked? && !Blocked(s, t) && t !in s.wokenR && t !in s.wokenS
    case CheckFull(t) => s.locker.Locked? && !Blocked(s, t) && t !in s.wokenR && t !in s.wokenS
    case PlaceR(at) => s.locker.FoundEmpty? && at <= |s.waitingR|
    case PlaceS(at) => s.locker.FoundFull? && at <= |s.waitingS|
    case UnlockTx => s.locker.Locked?
    case UnlockRx => s.locker.TxUnlocked?
    case LeaveR(t) => t in s.waitingR
    case LeaveS(t) => t in s.waitingS
  }

  function Apply(s: State, e: Step): State
    requires Enabled(s, e)
  {
    match e
    case Send(t) => ApplySend(s, t, false)
    case Overwrite(t) => ApplySend(s, t, true)
    case Receive(t) => ApplyReceive(s, t)
    case Peek(t) => ApplyPeek(s, t)
    case IsrSend => ApplyIsrSend(s, false)
    case IsrOverwrite => ApplyIsrSend(s, true)
    case IsrReceive => ApplyIsrReceive(s)
    case Lock =>
      s.(locker := Locked,
         rxLock := if s.rxLock == UNLOCKED then LOCKED_UNMODIFIED else s.rxLock,
         txLock := if s.txLock == UNLOCKED then LOCKED_UNMODIFIED else s.txLock)
    case CheckEmpty(t) => if s.messages == 0 then s.(locker := FoundEmpty(t)) else s
    case CheckFull(t) => if s.messages == s.length then s.(locker := FoundFull(t)) else s
    case PlaceR(at) =>
      s.(waitingR := s.waitingR[..at] + [s.locker.t] + s.waitingR[at..], locker := Locked)
    case PlaceS(at) =>
      s.(waitingS := s.waitingS[..at] + [s.locker.t] + s.waitingS[at..], locker := Locked)
    case UnlockTx => ReplaySends(s, s.txLock).(txLock := UNLOCKED, locker := TxUnlocked)
    case UnlockRx => ReplayReceives(s, s.rxLock).(rxLock := UNLOCKED, locker := Nobody)
    case LeaveR(t) => s.(waitingR := Without(s.waitingR, t))
    case LeaveS(t) => s.(waitingS := Without(s.waitingS, t))
  }

  // ---- Invariant ----

  function Pending(lock: int): nat {
    if lock > 0 then lock else 0
  }

  /** A waiting receiver is accounted for: each message has a woken receiver on its way to it, or will be replayed. */
  predicate ReceiversCovered(s: State) {
    s.waitingR != [] ==> s.messages <= |s.wokenR| + Pending(s.txLock)
  }

  predicate SendersCovered(s: State) {
    s.waitingS != [] ==> s.length - s.messages <= |s.wokenS| + Pending(s.rxLock)
  }

  /** The lists of waiting tasks and the sets of woken ones do not overlap. */
  predicate Apart(s: State) {
    && (forall t :: t in s.waitingR ==> t !in s.wokenR)
    && (forall t :: t in s.waitingS ==> t !in s.wokenS)
  }

  /** The task about to be placed is on no list and not among the woken. */
  predicate LockerApart(s: State) {
    s.locker.FoundEmpty? || s.locker.FoundFull? ==>
      !Blocked(s, s.locker.t) && s.locker.t !in s.wokenR && s.locker.t !in s.wokenS
  }

  predicate LocksOk(s: State) {
    match s.locker
    case Nobody => s.txLock == UNLOCKED && s.rxLock == UNLOCKED
    case TxUnlocked => s.txLock == UNLOCKED && s.rxLock >= 0
    case FoundEmpty(_) => s.txLock >= s.messages && s.rxLock >= 0
    case FoundFull(_) => s.rxLock >= s.length - s.messages && s.txLock >= 0
    case Locked => s.txLock >= 0 && s.rxLock >= 0
  }

  ghost predicate Inv(s: State) {
    && s.messages <= s.length && LocksOk(s)
    && ReceiversCovered(s) && SendersCovered(s)
    && Apart(s) && LockerApart(s) && NoDup(s.waitingR) && NoDup(s.waitingS)
  }

  /** The assertion the source makes before it counts under a lock. */
  predicate WithinCounts(s: State, e: Step) {
    && (e.IsrSend? || e.IsrOverwrite? ==> s.txLock < INT8_MAX)
    && (e.IsrReceive? ==> s.rxLock < INT8_MAX)
  }

  // ---- Waking keeps the lists apart ----

  lemma WakeReceiverWakesOne(s: State)
    requires Apart(s) && NoDup(s.waitingR)
    ensures var s' := WakeReceiver(s);
            && Apart(s') && NoDup(s'.waitingR)
            && s' == s.(waitingR := s'.waitingR, wokenR := s'.wokenR)
            && (forall t :: t in s'.waitingR ==> t in s.waitingR)
            && (forall t :: t in s'.wokenR ==> t in s.wokenR || t in s.waitingR)
            && |s'.wokenR| == |s.wokenR| + if s.waitingR == [] then 0 else 1
  {
  }

  lemma WakeSenderWakesOne(s: State)
    requires Apart(s) && NoDup(s.waitingS)
    ensures var s' := WakeSender(s);
            && Apart(s') && NoDup(s'.waitingS)
            && s' == s.(waitingS := s'.waitingS, wokenS := s'.wokenS)
            && (forall t :: t in s'.waitingS ==> t in s.waitingS)
            && (forall t :: t in s'.wokenS ==> t in s.wokenS || t in s.waitingS)
            && |s'.wokenS| == |s.wokenS| + if s.waitingS == [] then 0 else 1
  {
  }

  /** Replaying wakes as many as were counted, or everybody. */
  lemma {:induction false} ReplaySendsWakes(s: State, count: int)
    requires Apart(s) && NoDup(s.waitingR)
    ensures var s' := ReplaySends(s, count);
            && Apart(s') && NoDup(s'.waitingR)
            && s' == s.(waitingR := s'.waitingR, wokenR := s'.wokenR)
            && (forall t :: t in s'.waitingR ==> t in s.waitingR)
            && (forall t :: t in s'.wokenR ==> t in s.wokenR || t in s.waitingR)
            && |s'.wokenR| + |s'.waitingR| == |s.wokenR| + |s.waitingR|
            && (s'.waitingR == [] || |s'.wokenR| == |s.wokenR| + Pending(count))
    decreases count
  {
    if count > LOCKED_UNMODIFIED && s.waitingR != [] {
      WakeReceiverWakesOne(s);
      ReplaySendsWakes(WakeReceiver(s), count - 1);
    }
  }

  function Smaller(a: nat, b: nat): nat {
    if a < b then a else b
  }

  /** Those at the front of the list are woken, and the others stay in their order. */
  lemma {:induction false} ReplaySendsWakesFront(s: State, count: int)
    ensures ReplaySends(s, count).waitingR == s.waitingR[Smaller(Pending(count), |s.waitingR|)..]
    decreases count
  {
    if count > LOCKED_UNMODIFIED && s.waitingR != [] {
      ReplaySendsWakesFront(WakeReceiver(s), count - 1);
    }
  }

  lemma {:induction false} ReplayReceivesWakesFront(s: State, count: int)
    ensures ReplayReceives(s, count).waitingS == s.waitingS[Smaller(Pending(count), |s.waitingS|)..]
    decreases count
  {
    if count > LOCKED_UNMODIFIED && s.waitingS != [] {
      ReplayReceivesWakesFront(WakeSender(s), count - 1);
    }
  }

  lemma {:induction false} ReplayReceivesWakes(s: State, count: int)
    requires Apart(s) && NoDup(s.waitingS)
    ensures var s' := ReplayReceives(s, count);
            && Apart(s') && NoDup(s'.waitingS)
            && s' == s.(waitingS := s'.waitingS, wokenS := s'.wokenS)
            && (forall t :: t in s'.waitingS ==> t in s.waitingS)
            && (forall t :: t in s'.wokenS ==> t in s.wokenS || t in s.waitingS)
            && |s'.wokenS| + |s'.waitingS| == |s.wokenS| + |s.waitingS|
            && (s'.waitingS == [] || |s'.wokenS| == |s.wokenS| + Pending(count))
    decreases count
  {
    if count > LOCKED_UNMODIFIED && s.waitingS != [] {
      WakeSenderWakesOne(s);
      ReplayReceivesWakes(WakeSender(s), count - 1);
    }
  }

  lemma {:induction false} InsertedMembers(ts: seq<TaskId>, at: nat, t: TaskId)
    requires NoDup(ts) && at <= |ts| && t !in ts
    ensures var r := ts[..at] + [t] + ts[at..]; NoDup(r) && forall u :: u in r <==> u in ts || u == t
  {
    var r := ts[..at] + [t] + ts[at..];
    if at == 0 {
      assert r == [t] + ts;
    } else {
      InsertedMembers(ts[1..], at - 1, t);
      assert r[1..] == ts[1..][..at - 1] + [t] + ts[1..][at - 1..];
    }
  }

  lemma RerunLosesOne(s: State, t: TaskId)
    requires Apart(s)
    ensures Apart(Rerun(s, t))
    ensures |Rerun(s, t).wokenR| + 1 >= |s.wokenR| && |Rerun(s, t).wokenS| + 1 >= |s.wokenS|
  {
  }

  // ---- Every step keeps the invariant ----

  lemma SendKeepsInv(s: State, t: TaskId, overwrite: bool)
    requires Inv(s) && s.locker.Nobody? && !Blocked(s, t) && t !in s.wokenR && (overwrite ==> s.length == 1)
    ensures Inv(ApplySend(s, t, overwrite))
  {
    RerunLosesOne(s, t);
    WakeReceiverWakesOne(Added(Rerun(s, t), overwrite));
  }

  lemma ReceiveKeepsInv(s: State, t: TaskId)
    requires Inv(s) && s.locker.Nobody? && !Blocked(s, t) && t !in s.wokenS
    ensures Inv(ApplyReceive(s, t))
  {
    RerunLosesOne(s, t);
    var s1 := Rerun(s, t);
    if s1.messages > 0 {
      WakeSenderWakesOne(s1.(messages := s1.messages - 1));
    }
  }

  lemma PeekKeepsInv(s: State, t: TaskId)
    requires Inv(s) && s.locker.Nobody? && !Blocked(s, t) && t !in s.wokenS
    ensures Inv(ApplyPeek(s, t))
  {
    RerunLosesOne(s, t);
    WakeReceiverWakesOne(Rerun(s, t));
  }

  lemma IsrSendKeepsInv(s: State, overwrite: bool)
    requires Inv(s) && (overwrite ==> s.length == 1) && s.txLock < INT8_MAX
    ensures Inv(ApplyIsrSend(s, overwrite))
  {
    WakeReceiverWakesOne(Added(s, overwrite));
  }

  lemma IsrReceiveKeepsInv(s: State)
    requires Inv(s) && s.rxLock < INT8_MAX
    ensures Inv(ApplyIsrReceive(s))
  {
    if s.messages > 0 {
      WakeSenderWakesOne(s.(messages := s.messages - 1));
    }
  }

  lemma StepKeepsInv(s: State, e: Step)
    requires Inv(s) && Enabled(s, e) && WithinCounts(s, e)
    ensures Inv(Apply(s, e))
  {
    match e
    case Send(t) => SendKeepsInv(s, t, false);
    case Overwrite(t) => SendKeepsInv(s, t, true);
    case Receive(t) => ReceiveKeepsInv(s, t);
    case Peek(t) => PeekKeepsInv(s, t);
    case IsrSend => IsrSendKeepsInv(s, false);
    case IsrOverwrite => IsrSendKeepsInv(s, true);
    case IsrReceive => IsrReceiveKeepsInv(s);
    case PlaceR(at) => InsertedMembers(s.waitingR, at, s.locker.t);
    case PlaceS(at) => InsertedMembers(s.waitingS, at, s.locker.t);
    case UnlockTx => ReplaySendsWakes(s, s.txLock);
    case UnlockRx => ReplayReceivesWakes(s, s.rxLock);
    case LeaveR(t) => WithoutMembers(s.waitingR, t);
    case LeaveS(t) => WithoutMembers(s.waitingS, t);
    case Lock =>
    case CheckEmpty(_) =>
    case CheckFull(_) =>
  }

  // ---- Every run ----

  /** A queue as xQueueGenericReset leaves a new one. */
  function New(length: nat): State {
    State(length, 0, UNLOCKED, UNLOCKED, [], [], {}, {}, Nobody)
  }

  predicate RunEnabled(s: State, es: seq<Step>)
    decreases es
  {
    es != [] ==> Enabled(s, es[0]) && WithinCounts(s, es[0]) && RunEnabled(Apply(s, es[0]), es[1..])
  }

  function Run(s: State, es: seq<Step>): State
    requires RunEnabled(s, es)
    decreases es
  {
    if es == [] then s else Run(Apply(s, es[0]), es[1..])
  }

  lemma {:induction false} RunKeepsInv(s: State, es: seq<Step>)
    requires Inv(s) && RunEnabled(s, es)
    ensures Inv(Run(s, es))
    decreases es
  {
    if es != [] {
      StepKeepsInv(s, es[0]);
      RunKeepsInv(Apply(s, es[0]), es[1..]);
    }
  }

  /** In every interleaving of tasks and interrupts, messages in front of waiting receivers are matched by woken
      receivers and by counted sends; and the same for free places, waiting senders and counted receives. */
  lemma NoLostWakeUp(length: nat, es: seq<Step>)
    requires RunEnabled(New(length), es)
    ensures var s := Run(New(length), es);
            && (s.waitingR != [] ==> s.messages <= |s.wokenR| + Pending(s.txLock))
            && (s.waitingS != [] ==> s.length - s.messages <= |s.wokenS| + Pending(s.rxLock))
  {
    RunKeepsInv(New(length), es);
  }

  /** Once every woken task has run and the queue is unlocked, nobody waits for a message that is there or for a
      place that is free. */
  lemma NobodyStranded(length: nat, es: seq<Step>)
    requires RunEnabled(New(length), es)
    requires Run(New(length), es).locker.Nobody?
    requires Run(New(length), es).wokenR == {} && Run(New(length), es).wokenS == {}
    ensures var s := Run(New(length), es);
            && (s.waitingR != [] ==> s.messages == 0)
            && (s.waitingS != [] ==> s.messages == s.length)
  {
    RunKeepsInv(New(length), es);
  }

  /** The bound on the counts is needed: the 128th send under one lock makes the count negative, the replay loop
      then wakes nobody, and a receiver stays on the list of a queue that holds a message. */
  lemma WrappedCountLosesWakeUp(s: State)
    requires Inv(s) && s.locker.Locked? && s.txLock == INT8_MAX && s.messages < s.length && s.waitingR != []
    ensures var s' := Apply(Apply(s, IsrSend), UnlockTx);
            s'.messages > 0 && s'.waitingR == s.waitingR && s'.wokenR == s.wokenR && s'.txLock == UNLOCKED
  {
  }
}
