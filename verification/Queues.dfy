/** Queues as queue.c keeps them: items in a ring of bytes, with the event lists and lock counts beside it. */

module Queues {
  import opened Basics
  import opened ItemRing
  import P = QueueProtocol

  /** queueSEND_TO_BACK, queueSEND_TO_FRONT and queueOVERWRITE */
  datatype Position = Back | Front | Overwrite

  // ---- The order of items ----

  datatype Event = Sends(item: seq<byte>, position: Position) | Receives(item: seq<byte>)

  /** What a send that went through and a receive that got an item do. */
  ghost predicate Leads(before: seq<seq<byte>>, e: Event, after: seq<seq<byte>>) {
    match e
    case Sends(item, Back) => after == before + [item]
    case Sends(item, Front) => after == [item] + before
    case Sends(item, Overwrite) => after == [item]
    case Receives(item) => before == [item] + after
  }

  /** The events lead from the first of the states to the last, all sends being to the back. */
  ghost predicate BackTrace(states: seq<seq<seq<byte>>>, es: seq<Event>)
    decreases es
  {
    if es == [] then |states| == 1
    else
      && |states| > 1 && Leads(states[0], es[0], states[1]) && (es[0].Sends? ==> es[0].position.Back?)
      && BackTrace(states[1..], es[1..])
  }

  function SentItems(es: seq<Event>): seq<seq<byte>> {
    if es == [] then [] else (if es[0].Sends? then [es[0].item] else []) + SentItems(es[1..])
  }

  function ReceivedItems(es: seq<Event>): seq<seq<byte>> {
    if es == [] then [] else (if es[0].Receives? then [es[0].item] else []) + ReceivedItems(es[1..])
  }

  /** First in, first out: while everything is sent to the back, what was there at first and what was sent comes out in
      that order, and the rest of it is still there. */
  lemma {:induction false} FirstInFirstOut(states: seq<seq<seq<byte>>>, es: seq<Event>)
    requires BackTrace(states, es)
    ensures |states| == |es| + 1 && states[0] + SentItems(es) == ReceivedItems(es) + states[|es|]
    decreases es
  {
    if es == [] {
      assert states[0] + [] == [] + states[0];
    } else {
      var e, sent, received := es[0], SentItems(es[1..]), ReceivedItems(es[1..]);
      FirstInFirstOut(states[1..], es[1..]);
      OneMore(states[0], e, states[1], sent, received, states[|es|]);
    }
  }

  lemma OneMore(before: seq<seq<byte>>, e: Event, after: seq<seq<byte>>, sent: seq<seq<byte>>, received: seq<seq<byte>>,
                last: seq<seq<byte>>)
    requires Leads(before, e, after) && (e.Sends? ==> e.position.Back?) && after + sent == received + last
    ensures before + ((if e.Sends? then [e.item] else []) + sent) == ((if e.Receives? then [e.item] else []) + received) + last
  {
    if e.Sends? {
      assert before + ([e.item] + sent) == (before + [e.item]) + sent;
      assert [] + received == received;
    } else {
      assert ([e.item] + after) + sent == [e.item] + (after + sent);
      assert ([e.item] + received) + last == [e.item] + (received + last);
      assert [] + sent == sent;
    }
  }

  /** What is sent to the front is what the next receive gets, and the rest is as it was. */
  lemma FrontComesNext(before: seq<seq<byte>>, item: seq<byte>, between: seq<seq<byte>>, got: seq<byte>, after: seq<seq<byte>>)
    requires Leads(before, Sends(item, Front), between) && Leads(between, Receives(got), after)
    ensures got == item && after == before
  {
    assert between[0] == item && between[1..] == before;
    assert between[0] == got && between[1..] == after;
  }

  class Queue {
    const length: nat
    const itemSize: nat
    const storage: array<byte>
    var writeTo: nat
    var readFrom: nat
    var messagesWaiting: nat
    var rxLock: int
    var txLock: int
    var waitingToSend: seq<TaskId>
    var waitingToReceive: seq<TaskId>
    /** The slots the two offsets stand for. */
    ghost var writeSlot: nat
    ghost var readSlot: nat
    /** The tasks woken and not run since, and where the task that has the queue locked stands. */
    ghost var wokenR: set<TaskId>
    ghost var wokenS: set<TaskId>
    ghost var locker: P.Locker

    ghost predicate Valid()
      reads `writeTo, `readFrom, `messagesWaiting, `writeSlot, `readSlot
    {
      && length > 0 && storage.Length == length * itemSize
      && writeSlot < length && readSlot < length
      && writeTo == writeSlot * itemSize && readFrom == readSlot * itemSize
      && messagesWaiting <= length
      && writeSlot == After(Next(readSlot, length), messagesWaiting, length)
    }

    ghost function Contents(): (r: seq<seq<byte>>)
      requires Valid()
      reads `writeTo, `readFrom, `messagesWaiting, `writeSlot, `readSlot, storage
      ensures |r| == messagesWaiting
    {
      Items(storage[..], itemSize, length, Next(readSlot, length), messagesWaiting)
    }

    /** The queue as the protocol sees it. */
    ghost function State(): P.State
      reads this
    {
      P.State(length, messagesWaiting, rxLock, txLock, waitingToReceive, waitingToSend, wokenR, wokenS, locker)
    }

    constructor (length: nat, itemSize: nat)
      requires length > 0
      ensures Valid() && fresh(storage) && Contents() == []
      ensures this.length == length && this.itemSize == itemSize
      ensures State() == P.New(length)
    {
      this.length, this.itemSize := length, itemSize;
      storage := new byte[length * itemSize];
      writeTo, readFrom, messagesWaiting := 0, (length - 1) * itemSize, 0;
      rxLock, txLock, waitingToSend, waitingToReceive := P.UNLOCKED, P.UNLOCKED, [], [];
      writeSlot, readSlot := 0, length - 1;
      wokenR, wokenS, locker := {}, {}, P.Nobody;
    }

    /** memcpy of one item into a slot. */
    method CopyIn(offset: nat, ghost slot: nat, item: seq<byte>)
      requires Valid() && slot < length && offset == slot * itemSize && |item| == itemSize
      modifies storage
      ensures Valid() && Copied(old(storage[..]), storage[..], itemSize, length, slot, item)
    {
      SlotFits(slot, itemSize, length);
      forall i | 0 <= i < itemSize { storage[offset + i] := item[i]; }
    }

    /** Moving pcWriteTo on by one item, back to the head at the tail. */
    method AdvanceWriteTo()
      requires writeSlot < length && writeTo == writeSlot * itemSize
      modifies this`writeTo, this`writeSlot
      ensures writeSlot == Next(old(writeSlot), length) && writeTo == writeSlot * itemSize
    {
      SlotFits(writeSlot, itemSize, length);
      if itemSize > 0 {
        writeTo := writeTo + itemSize;
        if writeTo >= length * itemSize {
          writeTo := 0;
        }
      }
      writeSlot := Next(writeSlot, length);
    }

    /** Moving pcReadFrom on by one item, as a receive does before it copies. */
    method AdvanceReadFrom()
      requires readSlot < length && readFrom == readSlot * itemSize
      modifies this`readFrom, this`readSlot
      ensures readSlot == Next(old(readSlot), length) && readFrom == readSlot * itemSize
    {
      SlotFits(readSlot, itemSize, length);
      if itemSize > 0 {
        readFrom := readFrom + itemSize;
        if readFrom >= length * itemSize {
          readFrom := 0;
        }
      }
      readSlot := Next(readSlot, length);
    }

    /** Moving pcReadFrom back by one item, below the head to the last slot. */
    method RetreatReadFrom()
      requires readSlot < length && readFrom == readSlot * itemSize
      modifies this`readFrom, this`readSlot
      ensures readSlot == Prev(old(readSlot), length) && readFrom == readSlot * itemSize
    {
      SlotFits(readSlot, itemSize, length);
      if itemSize > 0 {
        if readFrom - itemSize < 0 {
          readFrom := length * itemSize - itemSize;
        } else {
          readFrom := readFrom - itemSize;
          SlotFits(readSlot - 1, itemSize, length);
        }
      }
      readSlot := Prev(readSlot, length);
    }

    /** prvCopyDataToQueue for a queue or a semaphore; a semaphore's items are empty and its offsets stay. */
    method CopyDataToQueue(item: seq<byte>, position: Position)
      requires Valid() && |item| == itemSize
      requires messagesWaiting < length || position.Overwrite?
      requires position.Overwrite? ==> length == 1
      modifies this`writeTo, this`readFrom, this`messagesWaiting, this`writeSlot, this`readSlot, storage
      ensures Valid()
      ensures position.Back? ==> Contents() == old(Contents()) + [item]
      ensures position.Front? ==> Contents() == [item] + old(Contents())
      ensures position.Overwrite? ==> Contents() == [item]
      ensures messagesWaiting == if position.Overwrite? && old(messagesWaiting) > 0 then old(messagesWaiting)
                                 else old(messagesWaiting) + 1
    {
      var messages := messagesWaiting;
      ghost var before, first, r := storage[..], Next(readSlot, length), readSlot;
      AfterIsAtDistance(first, messages, length);
      AfterOneMore(first, messages, length);
      if position.Back? {
        CopyIn(writeTo, writeSlot, item);
        CopiedBehind(before, storage[..], itemSize, length, first, messages, item);
        AdvanceWriteTo();
      } else {
        CopyIn(readFrom, readSlot, item);
        if position.Overwrite? {
          if messages > 0 {
            messages := messages - 1;
          }
        }
        CopiedInFront(before, storage[..], itemSize, length, r, messages, item);
        RetreatReadFrom();
      }
      messagesWaiting := messages + 1;
    }

    /** prvCopyDataFromQueue */
    method CopyDataFromQueue() returns (item: seq<byte>)
      requires Valid() && messagesWaiting > 0
      modifies this`readFrom, this`readSlot
      ensures readSlot == Next(old(readSlot), length) && readFrom == readSlot * itemSize
      ensures item == Slot(storage[..], itemSize, length, readSlot)
    {
      AdvanceReadFrom();
      SlotFits(readSlot, itemSize, length);
      item := storage[readFrom..readFrom + itemSize];
      assert item == storage[..][readFrom..readFrom + itemSize];
    }

    /** xTaskRemoveFromEventList on the receivers' list, if there is one to remove. */
    method WakeReceiver() returns (woken: bool)
      modifies this`waitingToReceive, this`wokenR
      ensures State() == P.WakeReceiver(old(State())) && woken == (old(waitingToReceive) != [])
      ensures woken ==> old(waitingToReceive) == [old(waitingToReceive)[0]] + waitingToReceive
                        && old(waitingToReceive)[0] in wokenR
    {
      woken := waitingToReceive != [];
      if woken {
        wokenR := wokenR + {waitingToReceive[0]};
        waitingToReceive := waitingToReceive[1..];
      }
    }

    method WakeSender() returns (woken: bool)
      modifies this`waitingToSend, this`wokenS
      ensures State() == P.WakeSender(old(State())) && woken == (old(waitingToSend) != [])
      ensures woken ==> old(waitingToSend) == [old(waitingToSend)[0]] + waitingToSend
                        && old(waitingToSend)[0] in wokenS
    {
      woken := waitingToSend != [];
      if woken {
        wokenS := wokenS + {waitingToSend[0]};
        waitingToSend := waitingToSend[1..];
      }
    }

    /** The critical section at the top of the loop of xQueueGenericSend, run by task t. */
    method SendSection(t: TaskId, item: seq<byte>, position: Position) returns (sent: bool)
      requires Valid() && |item| == itemSize && (position.Overwrite? ==> length == 1)
      modifies this, storage
      ensures Valid() && State() == P.ApplySend(old(State()), t, position.Overwrite?)
      ensures unchanged(`waitingToSend, `rxLock, `txLock)
      ensures waitingToReceive == if sent && old(waitingToReceive) != [] then old(waitingToReceive)[1..] else old(waitingToReceive)
      ensures sent == (old(messagesWaiting) < length || position.Overwrite?)
      ensures sent && position.Back? ==> Contents() == old(Contents()) + [item]
      ensures sent && position.Front? ==> Contents() == [item] + old(Contents())
      ensures sent && position.Overwrite? ==> Contents() == [item]
      ensures !sent ==> Contents() == old(Contents())
    {
      hide Contents;
      wokenR, wokenS := wokenR - {t}, wokenS - {t};
      if messagesWaiting < length || position.Overwrite? {
        CopyDataToQueue(item, position);
        var _ := WakeReceiver();
        sent := true;
      } else {
        sent := false;
      }
    }

    /** xQueueGenericSendFromISR */
    method SendFromISR(item: seq<byte>, position: Position) returns (sent: bool)
      requires Valid() && |item| == itemSize && (position.Overwrite? ==> length == 1)
      modifies this, storage
      ensures Valid() && State() == P.ApplyIsrSend(old(State()), position.Overwrite?)
      ensures unchanged(`waitingToSend, `rxLock) && (sent && old(txLock) >= 0 && old(txLock) < 127 ==> txLock == old(txLock) + 1)
      ensures waitingToReceive == if sent && old(txLock) == -1 && old(waitingToReceive) != [] then old(waitingToReceive)[1..]
                                  else old(waitingToReceive)
      ensures sent == (old(messagesWaiting) < length || position.Overwrite?)
      ensures sent && position.Back? ==> Contents() == old(Contents()) + [item]
      ensures sent && position.Front? ==> Contents() == [item] + old(Contents())
      ensures sent && position.Overwrite? ==> Contents() == [item]
      ensures !sent ==> Contents() == old(Contents())
    {
      if messagesWaiting < length || position.Overwrite? {
        var lock := txLock;
        CopyDataToQueue(item, position);
        if lock == P.UNLOCKED {
          var _ := WakeReceiver();
        } else {
          txLock := P.Bump(lock);
        }
        sent := true;
      } else {
        sent := false;
      }
    }

    /** Taking the first item out: what a task's receive and an interrupt's have in common. */
    method TakeOut() returns (item: seq<byte>)
      requires Valid() && messagesWaiting > 0
      modifies this`readFrom, this`readSlot, this`messagesWaiting
      ensures Valid() && messagesWaiting == old(messagesWaiting) - 1
      ensures old(Contents()) == [item] + Contents()
    {
      item := CopyDataFromQueue();
      messagesWaiting := messagesWaiting - 1;
    }

    /** The critical section at the top of the loop of xQueueReceive, run by task t. */
    method ReceiveSection(t: TaskId) returns (received: bool, item: seq<byte>)
      requires Valid()
      modifies this
      ensures Valid() && State() == P.ApplyReceive(old(State()), t)
      ensures unchanged(`waitingToReceive, `rxLock, `txLock)
      ensures waitingToSend == if received && old(waitingToSend) != [] then old(waitingToSend)[1..] else old(waitingToSend)
      ensures received == (old(messagesWaiting) > 0)
      ensures old(Contents()) == if received then [item] + Contents() else Contents()
    {
      wokenR, wokenS := wokenR - {t}, wokenS - {t};
      received, item := messagesWaiting > 0, [];
      if received {
        item := TakeOut();
        var _ := WakeSender();
      }
    }

    /** xQueueReceiveFromISR */
    method ReceiveFromISR() returns (received: bool, item: seq<byte>)
      requires Valid()
      modifies this
      ensures Valid() && State() == P.ApplyIsrReceive(old(State()))
      ensures unchanged(`waitingToReceive, `txLock) && (received && old(rxLock) >= 0 && old(rxLock) < 127 ==> rxLock == old(rxLock) + 1)
      ensures waitingToSend == if received && old(rxLock) == -1 && old(waitingToSend) != [] then old(waitingToSend)[1..]
                               else old(waitingToSend)
      ensures received == (old(messagesWaiting) > 0)
      ensures old(Contents()) == if received then [item] + Contents() else Contents()
    {
      received, item := messagesWaiting > 0, [];
      if received {
        var lock := rxLock;
        item := TakeOut();
        if lock == P.UNLOCKED {
          var _ := WakeSender();
        } else {
          rxLock := P.Bump(lock);
        }
      }
    }

    /** The critical section at the top of the loop of xQueuePeek: the read offset is put back and the next waiting
        receiver is woken for the item still there. */
    method PeekSection(t: TaskId) returns (seen: bool, item: seq<byte>)
      requires Valid()
      modifies this
      ensures Valid() && State() == P.ApplyPeek(old(State()), t)
      ensures unchanged(`waitingToSend, `rxLock, `txLock, `messagesWaiting)
      ensures waitingToReceive == if seen && old(waitingToReceive) != [] then old(waitingToReceive)[1..] else old(waitingToReceive)
      ensures seen == (messagesWaiting > 0) && Contents() == old(Contents())
      ensures seen ==> Contents() != [] && item == Contents()[0]
    {
      wokenR, wokenS := wokenR - {t}, wokenS - {t};
      seen, item := messagesWaiting > 0, [];
      if seen {
        var originalReadPosition := readFrom;
        ghost var slot := readSlot;
        item := CopyDataFromQueue();
        readFrom := originalReadPosition;
        readSlot := slot;
        var _ := WakeReceiver();
      }
    }

    /** prvLockQueue */
    method LockQueue()
      requires Valid() && P.Enabled(State(), P.Lock)
      modifies this`rxLock, this`txLock, this`locker
      ensures Valid() && State() == P.Apply(old(State()), P.Lock)
      ensures rxLock == (if old(rxLock) == -1 then 0 else old(rxLock)) && txLock == (if old(txLock) == -1 then 0 else old(txLock))
    {
      if rxLock == P.UNLOCKED {
        rxLock := P.LOCKED_UNMODIFIED;
      }
      if txLock == P.UNLOCKED {
        txLock := P.LOCKED_UNMODIFIED;
      }
      locker := P.Locked;
    }

    /** The first critical section of prvUnlockQueue. */
    method UnlockTx()
      requires Valid() && P.Enabled(State(), P.UnlockTx)
      modifies this`waitingToReceive, this`wokenR, this`txLock, this`locker
      ensures Valid() && State() == P.Apply(old(State()), P.UnlockTx) && txLock == -1
      ensures var n := P.Smaller(P.Pending(old(txLock)), |old(waitingToReceive)|); waitingToReceive == old(waitingToReceive)[n..]
    {
      P.ReplaySendsWakesFront(State(), txLock);
      var count := txLock;
      ghost var done := P.ReplaySends(State(), count);
      while count > P.LOCKED_UNMODIFIED
        invariant Valid() && P.ReplaySends(State(), count) == done
        invariant State() == old(State()).(waitingR := waitingToReceive, wokenR := wokenR)
      {
        var woken := WakeReceiver();
        if !woken {
          break;
        }
        count := count - 1;
      }
      assert State() == done;
      txLock := P.UNLOCKED;
      locker := P.TxUnlocked;
    }

    /** The second critical section of prvUnlockQueue. */
    method UnlockRx()
      requires Valid() && P.Enabled(State(), P.UnlockRx)
      modifies this`waitingToSend, this`wokenS, this`rxLock, this`locker
      ensures Valid() && State() == P.Apply(old(State()), P.UnlockRx) && rxLock == -1
      ensures var n := P.Smaller(P.Pending(old(rxLock)), |old(waitingToSend)|); waitingToSend == old(waitingToSend)[n..]
    {
      P.ReplayReceivesWakesFront(State(), rxLock);
      var count := rxLock;
      ghost var done := P.ReplayReceives(State(), count);
      while count > P.LOCKED_UNMODIFIED
        invariant Valid() && P.ReplayReceives(State(), count) == done
        invariant State() == old(State()).(waitingS := waitingToSend, wokenS := wokenS)
      {
        var woken := WakeSender();
        if !woken {
          break;
        }
        count := count - 1;
      }
      assert State() == done;
      rxLock := P.UNLOCKED;
      locker := P.Nobody;
    }
  }
}
