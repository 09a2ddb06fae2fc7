/** The stream buffer object: bytes copied into and out of the ring in at most two pieces, indices published last. */

module StreamBuffers {
  import opened Basics
  import opened Rings
  import P = StreamProtocol
  import opened MessageFraming
  import opened Words

  /** Where place i lies in the run of bytes that starts at `start`. */
  function Offset(i: nat, start: nat, length: nat): nat
    requires i < length && start < length
  {
    if i >= start then i - start else i + length - start
  }

  /** The ring after `data` has been written from `start` on, across the end if need be. */
  ghost predicate Written(before: seq<byte>, after: seq<byte>, start: nat, data: seq<byte>) {
    && |after| == |before| && start < |before| && |data| < |before|
    && forall i :: 0 <= i < |after| ==>
         after[i] == if Offset(i, start, |before|) < |data| then data[Offset(i, start, |before|)] else before[i]
  }

  /** Free places written, nothing published: the unread bytes are untouched and the new ones follow them. */
  lemma WrittenBehind(s: P.State, buffer: seq<byte>, data: seq<byte>, at: nat)
    requires P.Inv(s) && s.writer.Idle? && |s.sent| <= at && at + |data| - |s.received| < s.length
    requires Written(s.buffer, buffer, Place(at, s.length), data)
    ensures P.Inv(s.(buffer := buffer))
    ensures forall k :: 0 <= k < |data| ==> buffer[Place(at + k, s.length)] == data[k]
    ensures forall j :: |s.received| <= j < at ==> buffer[Place(j, s.length)] == s.buffer[Place(j, s.length)]
  {
    hide Place;
    forall k | 0 <= k < |data| ensures buffer[Place(at + k, s.length)] == data[k] {
      PlaceMoves(at, k, s.length);
    }
    forall j | |s.received| <= j < at ensures buffer[Place(j, s.length)] == s.buffer[Place(j, s.length)] {
      if Offset(Place(j, s.length), Place(at, s.length), s.length) < |data| {
        var k := Offset(Place(j, s.length), Place(at, s.length), s.length);
        PlaceMoves(at, k, s.length);
        PlacesDiffer(j, at + k, s.length);
        assert false;
      }
    }
  }

  /** Publishing what has been written behind the unread bytes. */
  lemma Published(s: P.State, bytes: seq<byte>)
    requires P.Inv(s) && s.writer.Idle? && |s.sent| - |s.received| + |bytes| < s.length
    requires forall k :: 0 <= k < |bytes| ==> s.buffer[Place(|s.sent| + k, s.length)] == bytes[k]
    ensures Place(|s.sent| + |bytes|, s.length) == Moved(s.head, |bytes|, s.length)
    ensures P.Inv(s.(head := Moved(s.head, |bytes|, s.length), sent := s.sent + bytes))
  {
    hide Place, Moved;
    PlaceMoves(|s.sent|, |bytes|, s.length);
    var s1 := s.(writer := P.Copying(bytes, |bytes|));
    P.PublishHeadKeepsInv(s1);
  }

  lemma InvFacts(s: P.State)
    requires P.Inv(s)
    ensures s.length > 0 && |s.buffer| == s.length && s.head < s.length && s.tail < s.length
    ensures |s.received| <= |s.sent| < |s.received| + s.length
  {
  }

  /** Bytes written at the head and published. */
  lemma StreamWritten(s: P.State, buffer: seq<byte>, data: seq<byte>)
    requires P.Inv(s) && s.writer.Idle? && |s.sent| - |s.received| + |data| < s.length
    requires Written(s.buffer, buffer, s.head, data)
    ensures P.Inv(s.(buffer := buffer, head := Moved(s.head, |data|, s.length), sent := s.sent + data))
  {
    hide Place, Moved, Written, P.UnreadKept, P.WriterOk, P.ReaderOk;
    WrittenBehind(s, buffer, data, |s.sent|);
    Published(s.(buffer := buffer), data);
  }

  /** A length written at the head, not published. */
  lemma PrefixWritten(s: P.State, buffer: seq<byte>, n: nat)
    requires P.Inv(s) && s.writer.Idle? && |s.sent| - |s.received| + LENGTH_BYTES < s.length && n < WORD_LIMIT
    requires Written(s.buffer, buffer, s.head, WordBytes(n))
    ensures P.Inv(s.(buffer := buffer)) && Moved(s.head, LENGTH_BYTES, s.length) < s.length
  {
    WrittenBehind(s, buffer, WordBytes(n), |s.sent|);
    PlaceMoves(|s.sent|, LENGTH_BYTES, s.length);
  }

  /** Bytes written in two runs behind one another lie in the ring as one. */
  lemma WrittenTogether(buffer: seq<byte>, length: nat, at: nat, a: seq<byte>, b: seq<byte>)
    requires length > 0 && |buffer| == length
    requires forall k :: 0 <= k < |a| ==> buffer[Place(at + k, length)] == a[k]
    requires forall k :: 0 <= k < |b| ==> buffer[Place(at + |a| + k, length)] == b[k]
    ensures forall k :: 0 <= k < |a + b| ==> buffer[Place(at + k, length)] == (a + b)[k]
  {
    hide Place;
    forall k | 0 <= k < |a + b| ensures buffer[Place(at + k, length)] == (a + b)[k] {
      if k >= |a| {
        assert at + k == at + |a| + (k - |a|) && (a + b)[k] == b[k - |a|];
      }
    }
  }

  /** A length and its message written at the head and published together. */
  lemma MessageWritten(s: P.State, between: seq<byte>, buffer: seq<byte>, m: Message)
    requires P.Inv(s) && s.writer.Idle? && |s.sent| - |s.received| + LENGTH_BYTES + |m| < s.length
    requires Written(s.buffer, between, s.head, WordBytes(|m|))
    requires Written(between, buffer, Moved(s.head, LENGTH_BYTES, s.length), m)
    ensures P.Inv(s.(buffer := buffer, head := Moved(Moved(s.head, LENGTH_BYTES, s.length), |m|, s.length), sent := s.sent + Frame(m)))
  {
    hide P.UnreadKept, P.WriterOk, P.ReaderOk, Written, Place, Moved, WordBytes;
    PlaceMoves(|s.sent|, LENGTH_BYTES, s.length);
    PlaceMoves(|s.sent| + LENGTH_BYTES, |m|, s.length);
    PlaceMoves(|s.sent|, LENGTH_BYTES + |m|, s.length);
    WrittenBehind(s, between, WordBytes(|m|), |s.sent|);
    WrittenBehind(s.(buffer := between), buffer, m, |s.sent| + LENGTH_BYTES);
    WrittenTogether(buffer, s.length, |s.sent|, WordBytes(|m|), m);
    Published(s.(buffer := buffer), Frame(m));
  }

  /** The first `count` unread bytes are what the ring holds from the tail on. */
  lemma ReadAhead(s: P.State, skip: nat, count: nat, data: seq<byte>)
    requires P.Inv(s) && |s.received| + skip + count <= |s.sent| && |data| == count
    requires forall k :: 0 <= k < count ==>
               Moved(Place(|s.received| + skip, s.length), k, s.length) < s.length &&
               data[k] == s.buffer[Moved(Place(|s.received| + skip, s.length), k, s.length)]
    ensures data == s.sent[|s.received| + skip..|s.received| + skip + count]
  {
    hide Place, Moved;
    forall k | 0 <= k < count ensures data[k] == s.sent[|s.received| + skip + k] {
      PlaceMoves(|s.received| + skip, k, s.length);
    }
  }

  /** Consuming bytes that have been read. */
  lemma Consumed(s: P.State, data: seq<byte>)
    requires P.Inv(s) && s.reader.Rest? && |s.received| + |data| <= |s.sent|
    requires data == s.sent[|s.received|..|s.received| + |data|]
    ensures Place(|s.received| + |data|, s.length) == Moved(s.tail, |data|, s.length)
    ensures P.Inv(s.(tail := Moved(s.tail, |data|, s.length), received := s.received + data))
  {
    PlaceMoves(|s.received|, |data|, s.length);
    var s1 := s.(reader := P.Taking(|s.sent| - |s.received|, data));
    P.PublishTailKeepsInv(s1);
  }

  lemma StreamRead(s: P.State, data: seq<byte>)
    requires P.Inv(s) && s.reader.Rest? && |s.received| + |data| <= |s.sent| && |data| < s.length
    requires forall k :: 0 <= k < |data| ==>
               Moved(s.tail, k, s.length) < s.length && data[k] == s.buffer[Moved(s.tail, k, s.length)]
    ensures data == s.sent[|s.received|..|s.received| + |data|]
    ensures P.Inv(s.(tail := Moved(s.tail, |data|, s.length), received := s.received + data))
  {
    ReadAhead(s, 0, |data|, data);
    Consumed(s, data);
  }

  /** A message buffer holds more than a length exactly when it holds a message. */
  lemma AnyMessage(s: P.State, sent: seq<Message>, received: seq<Message>)
    requires s.sent == Frames(sent) && s.received == Frames(received) && received <= sent
    ensures |s.sent| - |s.received| > LENGTH_BYTES <==> |received| < |sent|
    ensures |received| == |sent| ==> |s.sent| == |s.received|
  {
    hide Frames, WordBytes;
    assert received == sent[..|received|] && sent == sent[..|sent|];
    if |received| < |sent| {
      NextFrame(sent, |received|);
      BoundariesOrdered(sent, |received| + 1, |sent|);
    }
  }

  /** The first bytes of a message buffer say how long the next message is, and all of it is there. */
  lemma NextMessage(s: P.State, sent: seq<Message>, received: seq<Message>, lengthBytes: seq<byte>)
    requires P.Inv(s) && s.writer.Idle? && s.reader.Rest?
    requires s.sent == Frames(sent) && s.received == Frames(received) && received <= sent
    requires |s.sent| - |s.received| > LENGTH_BYTES == |lengthBytes|
    requires forall k :: 0 <= k < LENGTH_BYTES ==>
               Moved(s.tail, k, s.length) < s.length && lengthBytes[k] == s.buffer[Moved(s.tail, k, s.length)]
    ensures |received| < |sent| && WordOf(lengthBytes) == |sent[|received|]|
    ensures LENGTH_BYTES + |sent[|received|]| <= |s.sent| - |s.received|
    ensures lengthBytes == WordBytes(|sent[|received|]|)
    ensures Moved(s.tail, LENGTH_BYTES, s.length) < s.length
  {
    hide WordBytes, WordOf, Frames, Place;
    ReadAhead(s, 0, LENGTH_BYTES, lengthBytes);
    assert sent[..|sent|] == sent;
    var ms := MessageState(s.(reader := P.Taking(|s.sent| - |s.received|, lengthBytes)), sent, received, |sent|);
    assert lengthBytes[..LENGTH_BYTES] == lengthBytes;
    LengthIsNext(ms);
    NextFrame(sent, |received|);
    assert received == sent[..|received|];
    assert lengthBytes == Frame(sent[|received|])[..LENGTH_BYTES] == WordBytes(|sent[|received|]|);
    PlaceMoves(|s.received|, LENGTH_BYTES, s.length);
  }

  /** Reading the next message takes its whole frame out. */
  lemma MessageRead(s: P.State, sent: seq<Message>, received: seq<Message>, data: seq<byte>)
    requires P.Inv(s) && s.writer.Idle? && s.reader.Rest?
    requires s.sent == Frames(sent) && s.received == Frames(received) && received <= sent && |received| < |sent|
    requires |data| == |sent[|received|]| && LENGTH_BYTES + |data| <= |s.sent| - |s.received|
    requires forall k :: 0 <= k < |data| ==>
               && Moved(Moved(s.tail, LENGTH_BYTES, s.length), k, s.length) < s.length
               && data[k] == s.buffer[Moved(Moved(s.tail, LENGTH_BYTES, s.length), k, s.length)]
    ensures data == sent[|received|] && Frames(received + [data]) == Frames(received) + Frame(data)
    ensures received + [data] <= sent
    ensures P.Inv(s.(tail := Moved(Moved(s.tail, LENGTH_BYTES, s.length), |data|, s.length), received := s.received + Frame(data)))
  {
    hide P.UnreadKept, P.WriterOk, WordBytes, Frames, Place, Moved;
    PlaceMoves(|s.received|, LENGTH_BYTES, s.length);
    PlaceMoves(|s.received| + LENGTH_BYTES, |data|, s.length);
    PlaceMoves(|s.received|, LENGTH_BYTES + |data|, s.length);
    ReadAhead(s, LENGTH_BYTES, |data|, data);
    NextFrame(sent, |received|);
    assert received == sent[..|received|];
    var m, from := sent[|received|], |s.received|;
    assert s.sent[from..from + LENGTH_BYTES + |m|] == Frame(m);
    assert data == Frame(m)[LENGTH_BYTES..] == m;
    FramesAppend(received, m);
    assert received + [m] == sent[..|received| + 1];
    Consumed(s, Frame(m));
  }

  class StreamBuffer {
    const length: nat
    const isMessageBuffer: bool
    const buffer: array<byte>
    var head: nat
    var tail: nat
    var triggerLevelBytes: nat
    /** Whether xTaskWaitingToReceive and xTaskWaitingToSend name a task. */
    var waitingToReceive: bool
    var waitingToSend: bool
    /** Everything ever accepted and ever handed out; for a message buffer also as messages. */
    ghost var sent: seq<byte>
    ghost var received: seq<byte>
    ghost var messagesSent: seq<Message>
    ghost var messagesReceived: seq<Message>

    ghost function State(): P.State
      reads this, buffer
    {
      P.State(length, buffer[..], head, tail, P.Idle, P.Rest, sent, received)
    }

    ghost predicate Valid()
      reads this, buffer
    {
      && P.Inv(State()) && 0 < triggerLevelBytes < length
      && (isMessageBuffer ==>
            sent == Frames(messagesSent) && received == Frames(messagesReceived) && messagesReceived <= messagesSent)
    }

    /** What a receiver can still get. */
    ghost function Unread(): seq<byte>
      requires |received| <= |sent|
      reads this
    {
      sent[|received|..]
    }

    /** xStreamBufferGenericCreate: one byte more than asked for, so that a full buffer differs from an empty one. */
    constructor (bufferSizeBytes: nat, triggerLevel: nat, isMessageBuffer: bool)
      requires bufferSizeBytes > (if isMessageBuffer then LENGTH_BYTES else 0) && triggerLevel <= bufferSizeBytes
      ensures Valid() && fresh(buffer) && sent == [] && received == []
      ensures length == bufferSizeBytes + 1 && this.isMessageBuffer == isMessageBuffer
      ensures triggerLevelBytes == (if triggerLevel == 0 then 1 else triggerLevel) && !waitingToReceive && !waitingToSend
    {
      length, this.isMessageBuffer := bufferSizeBytes + 1, isMessageBuffer;
      buffer := new byte[bufferSizeBytes + 1];
      head, tail, sent, received, messagesSent, messagesReceived := 0, 0, [], [], [], [];
      triggerLevelBytes := if triggerLevel == 0 then 1 else triggerLevel;
      waitingToReceive, waitingToSend := false, false;
      new;
      P.InitialInv(State());
    }

    /** prvBytesInBuffer */
    method BytesInBuffer() returns (count: nat)
      requires Valid()
      ensures count == |Unread()| < length
    {
      P.SampleHeadKeepsInv(State());
      count := length + head - tail;
      if count >= length {
        count := count - length;
      }
    }

    /** xStreamBufferSpacesAvailable, from the value of the tail that two reads agreed on. */
    method SpacesAvailable() returns (space: nat)
      requires Valid()
      ensures space == length - 1 - |Unread()|
    {
      P.SampleTailKeepsInv(State());
      space := length + tail - head;
      space := space - 1;
      if space >= length {
        space := space - length;
      }
    }

    /** prvWriteBytesToBuffer */
    method WriteBytesToBuffer(data: seq<byte>, from: nat) returns (next: nat)
      requires length == buffer.Length && from < length && 0 < |data| < length
      modifies buffer
      ensures Written(old(buffer[..]), buffer[..], from, data) && next == Moved(from, |data|, length)
    {
      var firstLength := if length - from < |data| then length - from else |data|;
      forall i | 0 <= i < firstLength { buffer[from + i] := data[i]; }
      if |data| > firstLength {
        forall i | 0 <= i < |data| - firstLength { buffer[i] := data[firstLength + i]; }
      }
      next := from + |data|;
      if next >= length {
        next := next - length;
      }
    }

    /** prvReadBytesFromBuffer */
    method ReadBytesFromBuffer(count: nat, from: nat) returns (data: seq<byte>, next: nat)
      requires length == buffer.Length && from < length && 0 < count < length
      ensures |data| == count && next == Moved(from, count, length)
      ensures forall k :: 0 <= k < count ==> Moved(from, k, length) < length && data[k] == buffer[Moved(from, k, length)]
    {
      var firstLength := if length - from < count then length - from else count;
      data := buffer[from..from + firstLength];
      if count > firstLength {
        data := data + buffer[..count - firstLength];
      }
      next := from + count;
      if next >= length {
        next := next - length;
      }
    }

    /** prvWriteMessageToBuffer: as many of the first bytes as fit, or the whole frame of a message, or nothing. */
    method WriteMessageToBuffer(data: seq<byte>, space: nat, requiredSpace: nat) returns (count: nat)
      requires Valid() && |data| < WORD_LIMIT - LENGTH_BYTES && space <= length - 1 - |Unread()|
      requires isMessageBuffer ==> requiredSpace == |data| + LENGTH_BYTES
      modifies this`head, this`sent, this`messagesSent, buffer
      ensures Valid()
      ensures !isMessageBuffer ==>
                count == (if |data| <= space then |data| else space) && sent == old(sent) + data[..count]
      ensures isMessageBuffer ==>
                if 0 < |data| <= space - LENGTH_BYTES then
                  count == |data| && sent == old(sent) + Frame(data) && messagesSent == old(messagesSent) + [data]
                else count == 0
      ensures count == 0 ==> sent == old(sent) && head == old(head) && messagesSent == old(messagesSent)
    {
      hide P.Inv, Written, Place, Moved, Frames, WordBytes, Frame;
      ghost var before := State();
      InvFacts(before);
      var nextHead := head;
      count := |data|;
      if isMessageBuffer {
        if space >= requiredSpace {
          nextHead := WriteBytesToBuffer(WordBytes(|data|), nextHead);
          PrefixWritten(before, buffer[..], |data|);
        } else {
          count := 0;
        }
      } else {
        count := if |data| < space then |data| else space;
      }
      ghost var between := buffer[..];
      if count != 0 {
        head := WriteBytesToBuffer(data[..count], nextHead);
        if isMessageBuffer {
          assert data[..count] == data;
          MessageWritten(before, between, buffer[..], data);
          FramesAppend(messagesSent, data);
          sent := sent + Frame(data);
          messagesSent := messagesSent + [data];
        } else {
          StreamWritten(before, buffer[..], data[..count]);
          sent := sent + data[..count];
        }
      }
    }

    /** prvReadMessageFromBuffer */
    method ReadMessageFromBuffer(bufferLengthBytes: nat, bytesAvailable: nat) returns (data: seq<byte>)
      requires Valid() && bytesAvailable == |Unread()| > if isMessageBuffer then LENGTH_BYTES else 0
      modifies this`tail, this`received, this`messagesReceived
      ensures Valid()
      ensures isMessageBuffer ==>
                && |old(messagesReceived)| < |messagesSent|
                && var m := messagesSent[|old(messagesReceived)|];
                   if |m| <= bufferLengthBytes then data == m && messagesReceived == old(messagesReceived) + [m]
                   else data == [] && messagesReceived == old(messagesReceived) && tail == old(tail) && received == old(received)
      ensures !isMessageBuffer ==>
                && received == old(received) + data
                && data == old(Unread())[..if bufferLengthBytes < bytesAvailable then bufferLengthBytes else bytesAvailable]
    {
      hide P.Inv, Place, Moved, Frames, WordBytes, WordOf;
      ghost var before := State();
      InvFacts(before);
      var nextTail := tail;
      var available, nextLength := bytesAvailable, bufferLengthBytes;
      if isMessageBuffer {
        var lengthBytes: seq<byte>;
        lengthBytes, nextTail := ReadBytesFromBuffer(LENGTH_BYTES, nextTail);
        NextMessage(before, messagesSent, messagesReceived, lengthBytes);
        nextLength := WordOf(lengthBytes);
        available := available - LENGTH_BYTES;
        if nextLength > bufferLengthBytes {
          nextLength := 0;
        }
      }
      var count := if nextLength < available then nextLength else available;
      data := [];
      if count != 0 {
        data, nextTail := ReadBytesFromBuffer(count, nextTail);
        if isMessageBuffer {
          MessageRead(before, messagesSent, messagesReceived, data);
          received := received + Frame(data);
          messagesReceived := messagesReceived + [data];
        } else {
          StreamRead(before, data);
          received := received + data;
        }
        tail := nextTail;
      }
    }

    /** xStreamBufferNextMessageLengthBytes */
    method NextMessageLengthBytes() returns (next: nat)
      requires Valid()
      ensures next == if isMessageBuffer
              && |messagesReceived| < |messagesSent| then |messagesSent[|messagesReceived|]| else 0
    {
      hide P.Inv, Place, Moved, Frames, WordBytes, WordOf;
      InvFacts(State());
      next := 0;
      if isMessageBuffer {
        var bytesAvailable := BytesInBuffer();
        AnyMessage(State(), messagesSent, messagesReceived);
        if bytesAvailable > LENGTH_BYTES {
          var lengthBytes, _ := ReadBytesFromBuffer(LENGTH_BYTES, tail);
          NextMessage(State(), messagesSent, messagesReceived, lengthBytes);
          next := WordOf(lengthBytes);
        }
      }
    }

    /** xStreamBufferSetTriggerLevel */
    method SetTriggerLevel(triggerLevel: nat) returns (accepted: bool)
      requires Valid()
      modifies this`triggerLevelBytes
      ensures Valid() && accepted == (triggerLevel < length)
      ensures triggerLevelBytes ==
              if !accepted then old(triggerLevelBytes) else if triggerLevel == 0 then 1 else triggerLevel
    {
      var level := if triggerLevel == 0 then 1 else triggerLevel;
      accepted := level < length;
      if accepted {
        triggerLevelBytes := level;
      }
    }

    /** The critical section of the loop in xStreamBufferSend: without the space required the sender registers. */
    method RegisterToSend(requiredSpace: nat) returns (registers: bool)
      requires Valid()
      modifies this`waitingToSend
      ensures Valid() && registers == (|Unread()| + requiredSpace > length - 1)
      ensures waitingToSend == (old(waitingToSend) || registers)
    {
      var space := SpacesAvailable();
      registers := space < requiredSpace;
      if registers {
        waitingToSend := true;
      }
    }

    /** The critical section in xStreamBufferReceive: with nothing to use in the buffer the receiver registers. */
    method RegisterToReceive() returns (registers: bool)
      requires Valid()
      modifies this`waitingToReceive
      ensures Valid() && registers == (|Unread()| <= if isMessageBuffer then LENGTH_BYTES else 0)
      ensures waitingToReceive == (old(waitingToReceive) || registers)
    {
      var bytesAvailable := BytesInBuffer();
      registers := bytesAvailable <= if isMessageBuffer then LENGTH_BYTES else 0;
      if registers {
        waitingToReceive := true;
      }
    }

    /** What xStreamBufferSend does behind the waiting: write, and notify a registered receiver once there are as many
        bytes as the trigger level. */
    method Send(data: seq<byte>) returns (count: nat, notifies: bool)
      requires Valid() && |data| < WORD_LIMIT - LENGTH_BYTES
      modifies this`head, this`sent, this`messagesSent, this`waitingToReceive, buffer
      ensures Valid()
      ensures !isMessageBuffer ==>
                var space := length - 1 - |old(Unread())|;
                count == (if |data| <= space then |data| else space) && sent == old(sent) + data[..count]
      ensures isMessageBuffer ==>
                if 0 < |data| <= length - 1 - |old(Unread())| - LENGTH_BYTES then
                  count == |data| && sent == old(sent) + Frame(data) && messagesSent == old(messagesSent) + [data]
                else count == 0
      ensures count == 0 ==> sent == old(sent) && head == old(head) && messagesSent == old(messagesSent)
      ensures notifies == (count > 0 && |Unread()| >= triggerLevelBytes && old(waitingToReceive))
      ensures waitingToReceive == (old(waitingToReceive) && !notifies)
    {
      hide P.Inv, Frames, WordBytes, Frame;
      var requiredSpace := |data|;
      var maxReportedSpace := length - 1;
      if isMessageBuffer {
        requiredSpace := requiredSpace + LENGTH_BYTES;
      } else if requiredSpace > maxReportedSpace {
        requiredSpace := maxReportedSpace;
      }
      var space := SpacesAvailable();
      count := WriteMessageToBuffer(data, space, requiredSpace);
      notifies := false;
      if count > 0 {
        var bytesInBuffer := BytesInBuffer();
        if bytesInBuffer >= triggerLevelBytes && waitingToReceive {
          notifies := true;
          waitingToReceive := false;
        }
      }
    }

    /** What xStreamBufferReceive does behind the waiting: read, and notify a registered sender if anything was read. */
    method Receive(bufferLengthBytes: nat) returns (data: seq<byte>, notifies: bool)
      requires Valid()
      modifies this`tail, this`received, this`messagesReceived, this`waitingToSend
      ensures Valid()
      ensures !isMessageBuffer ==>
                && received == old(received) + data
                && data == old(Unread())[..if bufferLengthBytes < |old(Unread())| then bufferLengthBytes else |old(Unread())|]
      ensures isMessageBuffer ==>
                if |old(messagesReceived)| < |messagesSent| && |messagesSent[|old(messagesReceived)|]| <= bufferLengthBytes then
                  && data == messagesSent[|old(messagesReceived)|]
                  && messagesReceived == old(messagesReceived) + [messagesSent[|old(messagesReceived)|]]
                else
                  data == [] && tail == old(tail) && received == old(received) && messagesReceived == old(messagesReceived)
      ensures notifies == (data != [] && old(waitingToSend)) && waitingToSend == (old(waitingToSend) && !notifies)
    {
      hide P.Inv, Frames, WordBytes, Frame;
      var bytesToStoreMessageLength := if isMessageBuffer then LENGTH_BYTES else 0;
      var bytesAvailable := BytesInBuffer();
      data := [];
      if isMessageBuffer { AnyMessage(State(), messagesSent, messagesReceived); }
      if bytesAvailable > bytesToStoreMessageLength {
        data := ReadMessageFromBuffer(bufferLengthBytes, bytesAvailable);
      }
      notifies := data != [] && waitingToSend;
      if notifies {
        waitingToSend := false;
      }
    }
  }
}
