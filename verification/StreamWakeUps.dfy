/** Waiting for data and for space on a stream or message buffer: the critical sections in which a task registers itself,
    the notifications by which the other side wakes it, and the window between moving an index and notifying. */

module StreamWakeUps {
  import opened Basics

  /** The reader and the writer have nothing to do, wait registered for a notification (the writer for `required` free
      bytes), or have moved their index and not yet notified the other side. */
  datatype Reader = Resting | Waiting | Consumed
  datatype Writer = Ready | WaitingFor(required: nat) | Published

  /** The unread contents in pieces that come and go whole: single bytes of a stream, messages with their length bytes.
      A piece is larger than `need`, the bytes a receiver cannot use: none of a stream, four of a message buffer. */
  datatype State = State(
    capacity: nat, trigger: nat, need: nat, unread: seq<nat>,
    reader: Reader, taskWaitingToReceive: bool, readerNotified: bool,
    writer: Writer, taskWaitingToSend: bool, writerNotified: bool)

  datatype Step =
    | ReaderRegisters | ReaderReturns | Consume(count: nat) | ReceiveCompleted
    | WriterRegisters(required: nat) | WriterReturns | Publish(pieces: seq<nat>) | SendCompleted

  function Sum(pieces: seq<nat>): nat {
    if pieces == [] then 0 else pieces[0] + Sum(pieces[1..])
  }

  function Bytes(s: State): nat {
    Sum(s.unread)
  }

  predicate Pieces(pieces: seq<nat>, need: nat) {
    pieces != [] ==> pieces[0] > need && Pieces(pieces[1..], need)
  }

  /** Returning from the wait, notified or not, is always possible: waits have time limits. */
  predicate Enabled(s: State, e: Step) {
    match e
    case ReaderRegisters => s.reader.Resting? && Bytes(s) <= s.need
    case ReaderReturns => s.reader.Waiting?
    case Consume(count) => s.reader.Resting? && 0 < count <= |s.unread|
    case ReceiveCompleted => s.reader.Consumed?
    case WriterRegisters(required) => s.writer.Ready? && Bytes(s) + required > s.capacity >= required
    case WriterReturns => s.writer.WaitingFor?
    case Publish(pieces) =>
      s.writer.Ready? && pieces != [] && Pieces(pieces, s.need) && Bytes(s) + Sum(pieces) <= s.capacity
    case SendCompleted => s.writer.Published?
  }

  function Apply(s: State, e: Step): State
    requires Enabled(s, e)
  {
    match e
    case ReaderRegisters => s.(reader := Waiting, readerNotified := false, taskWaitingToReceive := true)
    case ReaderReturns => s.(reader := Resting, readerNotified := false, taskWaitingToReceive := false)
    case Consume(count) => s.(unread := s.unread[count..], reader := Consumed)
    case ReceiveCompleted =>
      s.(reader := Resting, writerNotified := s.writerNotified || s.taskWaitingToSend, taskWaitingToSend := false)
    case WriterRegisters(required) =>
      s.(writer := WaitingFor(required), writerNotified := false, taskWaitingToSend := true)
    case WriterReturns => s.(writer := Ready, writerNotified := false, taskWaitingToSend := false)
    case Publish(pieces) => s.(unread := s.unread + pieces, writer := Published)
    case SendCompleted =>
      if Bytes(s) >= s.trigger then
        s.(writer := Ready, readerNotified := s.readerNotified || s.taskWaitingToReceive, taskWaitingToReceive := false)
      else s.(writer := Ready)
  }

  predicate Initial(s: State) {
    && s.unread == [] && s.reader.Resting? && s.writer.Ready? && 0 < s.trigger
    && !s.taskWaitingToReceive && !s.readerNotified && !s.taskWaitingToSend && !s.writerNotified
  }

  predicate Possible(s: State, steps: seq<Step>)
    decreases steps
  {
    steps != [] ==> Enabled(s, steps[0]) && Possible(Apply(s, steps[0]), steps[1..])
  }

  function Run(s: State, steps: seq<Step>): State
    requires Possible(s, steps)
    decreases steps
  {
    if steps == [] then s else Run(Apply(s, steps[0]), steps[1..])
  }

  // ---- Invariant ----

  /** A waiting reader that has not been notified is registered, and what there is stays below the trigger level unless
      the writer is about to notify. */
  predicate ReaderServed(s: State) {
    s.reader.Waiting? && !s.readerNotified ==> s.taskWaitingToReceive && (Bytes(s) < s.trigger || s.writer.Published?)
  }

  /** The same for a waiting writer and the space it asked for. */
  predicate WriterServed(s: State) {
    s.writer.WaitingFor? && !s.writerNotified ==>
      && s.taskWaitingToSend && s.writer.required <= s.capacity
      && (Bytes(s) + s.writer.required > s.capacity || s.reader.Consumed?)
  }

  predicate Inv(s: State) {
    && 0 < s.trigger && Pieces(s.unread, s.need) && Bytes(s) <= s.capacity
    && ReaderServed(s) && WriterServed(s)
  }

  lemma {:induction false} SumSplit(a: seq<nat>, b: seq<nat>, need: nat)
    ensures Sum(a + b) == Sum(a) + Sum(b)
    ensures Pieces(a + b, need) <==> Pieces(a, need) && Pieces(b, need)
  {
    if a == [] {
      assert a + b == b;
    } else {
      assert (a + b)[1..] == a[1..] + b;
      SumSplit(a[1..], b, need);
    }
  }

  /** Less than one piece is nothing. */
  lemma LessThanAPiece(pieces: seq<nat>, need: nat)
    requires Pieces(pieces, need) && Sum(pieces) <= need
    ensures pieces == [] && Sum(pieces) == 0
  {
  }

  lemma StepKeepsInv(s: State, e: Step)
    requires Inv(s) && Enabled(s, e)
    ensures Inv(Apply(s, e))
  {
    match e
    case ReaderRegisters => LessThanAPiece(s.unread, s.need);
    case Consume(count) =>
      SumSplit(s.unread[..count], s.unread[count..], s.need);
      assert s.unread[..count] + s.unread[count..] == s.unread;
    case Publish(pieces) => SumSplit(s.unread, pieces, s.need);
    case _ =>
  }

  lemma {:induction false} RunKeepsInv(s: State, steps: seq<Step>)
    requires Inv(s) && Possible(s, steps)
    ensures Inv(Run(s, steps))
    ensures var r := Run(s, steps); r.capacity == s.capacity && r.trigger == s.trigger && r.need == s.need
    decreases steps
  {
    if steps != [] {
      StepKeepsInv(s, steps[0]);
      RunKeepsInv(Apply(s, steps[0]), steps[1..]);
    }
  }

  /** No wake-up is lost: in every interleaving, once the writer has finished its send, a reader that still waits without
      having been notified faces less than the trigger level; once the reader has finished its receive, a writer that
      still waits without having been notified faces less space than it asked for. */
  lemma NoLostWakeUp(s: State, steps: seq<Step>)
    requires Initial(s) && Possible(s, steps)
    ensures var r := Run(s, steps);
            && (r.reader.Waiting? && !r.readerNotified && !r.writer.Published? ==> Bytes(r) < r.trigger)
            && (r.writer.WaitingFor? && !r.writerNotified && !r.reader.Consumed? ==>
                  r.capacity - Bytes(r) < r.writer.required)
  {
    RunKeepsInv(s, steps);
  }

  /** Who is registered waits and has not been notified; who has been notified waits and is no longer registered. */
  predicate Sparing(s: State) {
    && (s.taskWaitingToReceive ==> s.reader.Waiting? && !s.readerNotified) && (s.readerNotified ==> s.reader.Waiting?)
    && (s.taskWaitingToSend ==> s.writer.WaitingFor? && !s.writerNotified) && (s.writerNotified ==> s.writer.WaitingFor?)
  }

  /** No notification is wasted: in every interleaving, only a task that waits has one, and nobody is notified twice for
      one wait. */
  lemma {:induction false} NoSpareNotification(s: State, steps: seq<Step>)
    requires Sparing(s) && Possible(s, steps)
    ensures Sparing(Run(s, steps))
    decreases steps
  {
    if steps != [] {
      NoSpareNotification(Apply(s, steps[0]), steps[1..]);
    }
  }

  // ---- Both waiting ----

  /** Both tasks wait, neither has been notified: only a time limit gets them out. */
  predicate Stuck(s: State, required: nat) {
    s.reader.Waiting? && !s.readerNotified && s.writer == WaitingFor(required) && !s.writerNotified
  }

  lemma OnlyTimeOutsHelp(s: State, required: nat, e: Step)
    requires Stuck(s, required) && Enabled(s, e)
    ensures e.ReaderReturns? || e.WriterReturns?
  {
  }

  /** With a trigger level of one, and for whatever a full buffer less a trigger level can take, the two tasks never wait
      for each other ... */
  lemma StuckOnlyThen(s: State, steps: seq<Step>, required: nat)
    requires Initial(s) && Possible(s, steps) && Stuck(Run(s, steps), required)
    ensures required + s.trigger >= s.capacity + 2 && s.trigger > s.need + 1
  {
    RunKeepsInv(s, steps);
    var r := Run(s, steps);
    if Bytes(r) <= r.need { LessThanAPiece(r.unread, r.need); }
  }

  function StuckRun(trigger: nat, required: nat): seq<Step>
    requires trigger > 0
  {
    [ReaderRegisters, Publish([trigger - 1]), SendCompleted, WriterRegisters(required)]
  }

  /** ... and in every other case they do: the writer leaves one byte less than the trigger level and then asks for more
      space than is left. */
  lemma StuckThen(s: State, required: nat)
    requires Initial(s) && s.trigger <= s.capacity && required <= s.capacity
    requires required + s.trigger >= s.capacity + 2 && s.trigger > s.need + 1
    ensures Possible(s, StuckRun(s.trigger, required)) && Stuck(Run(s, StuckRun(s.trigger, required)), required)
  {
    var steps := StuckRun(s.trigger, required);
    var s1 := Apply(s, steps[0]);
    var piece := [s.trigger - 1];
    assert Sum(piece) == s.trigger - 1 && Pieces(piece, s.need) by { assert piece[1..] == []; }
    assert s1.unread + piece == piece;
    var s2 := Apply(s1, steps[1]);
    var s3 := Apply(s2, steps[2]);
    var s4 := Apply(s3, steps[3]);
    assert steps[1..][1..][1..][1..] == [];
    assert steps[1..][0] == steps[1] && steps[1..][1..][0] == steps[2] && steps[1..][1..][1..][0] == steps[3];
    assert Possible(s4, []) && Run(s4, []) == s4;
    assert Possible(s3, steps[1..][1..][1..]) && Run(s3, steps[1..][1..][1..]) == s4;
    assert Possible(s2, steps[1..][1..]) && Run(s2, steps[1..][1..]) == s4;
    assert Possible(s1, steps[1..]) && Run(s1, steps[1..]) == s4;
  }
}
