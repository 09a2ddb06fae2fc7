/** Message buffers: each message goes through the stream behind its length. */

module MessageFraming {
  import opened Basics
  import opened StreamProtocol
  import opened Words

  /** sbBYTES_TO_STORE_MESSAGE_LENGTH: a message length is a 32-bit size_t. */
  const LENGTH_BYTES: nat := WORD_BYTES

  type Message = m: seq<byte> | 0 < |m| < WORD_LIMIT - LENGTH_BYTES witness [0]

  function Frame(m: Message): seq<byte> {
    WordBytes(|m|) + m
  }

  function Frames(ms: seq<Message>): seq<byte> {
    if ms == [] then [] else Frame(ms[0]) + Frames(ms[1..])
  }

  lemma {:induction false} FramesConcat(a: seq<Message>, b: seq<Message>)
    ensures Frames(a + b) == Frames(a) + Frames(b)
  {
    hide Frame;
    if a == [] {
      assert a + b == b;
    } else {
      FramesConcat(a[1..], b);
      assert (a + b)[1..] == a[1..] + b;
      assert Frame(a[0]) + (Frames(a[1..]) + Frames(b)) == (Frame(a[0]) + Frames(a[1..])) + Frames(b);
    }
  }

  lemma FramesAppend(ms: seq<Message>, m: Message)
    ensures Frames(ms + [m]) == Frames(ms) + Frame(m)
  {
    hide Frame;
    FramesConcat(ms, [m]);
    assert Frames([m]) == Frame(m) + [];
  }

  /** What lies ahead of a reader that has had k whole messages starts with the next one's frame. */
  lemma NextFrame(ms: seq<Message>, k: nat)
    requires k < |ms|
    ensures |Frames(ms[..k + 1])| == |Frames(ms[..k])| + |Frame(ms[k])| <= |Frames(ms)|
    ensures Frames(ms)[..|Frames(ms[..k])|] == Frames(ms[..k])
    ensures Frames(ms)[|Frames(ms[..k])|..|Frames(ms[..k + 1])|] == Frame(ms[k])
  {
    hide Frame;
    assert ms == ms[..k] + ms[k..] && ms == ms[..k + 1] + ms[k + 1..] && ms[..k + 1] == ms[..k] + [ms[k]];
    FramesConcat(ms[..k], ms[k..]);
    FramesConcat(ms[..k + 1], ms[k + 1..]);
    FramesAppend(ms[..k], ms[k]);
    var a, f, rest := Frames(ms[..k]), Frame(ms[k]), Frames(ms[k + 1..]);
    assert Frames(ms) == (a + f) + rest;
  }

  /** Frame boundaries are ordered as the messages are. */
  lemma {:induction false} BoundariesOrdered(ms: seq<Message>, j: nat, k: nat)
    requires j <= k <= |ms|
    ensures |Frames(ms[..j])| <= |Frames(ms[..k])|
    ensures j < k ==> |Frames(ms[..j])| < |Frames(ms[..k])|
    decreases k - j
  {
    if j < k {
      BoundariesOrdered(ms, j, k - 1);
      NextFrame(ms, k - 1);
    }
  }

  // ---- The message discipline on the concurrent buffer ----

  /** Messages published by the writer and taken by the reader; when the reader is at work, `visible` counts the
      messages published when it looked at the head. */
  datatype MessageState = MessageState(s: State, sent: seq<Message>, received: seq<Message>, visible: nat)

  /** The source publishes a head only behind a whole frame, and a tail only behind the length and as many bytes as it
      says, as far as they were available. */
  ghost predicate Disciplined(ms: MessageState, e: Step)
    requires Enabled(ms.s, e)
  {
    match e
    case PublishHead => exists m: Message :: ms.s.writer.bytes == Frame(m)
    case PublishTail =>
      var taken := ms.s.reader.taken;
      LENGTH_BYTES < |taken| &&
      var next := WordOf(taken[..LENGTH_BYTES]);
      var rest := ms.s.reader.available - LENGTH_BYTES;
      |taken| - LENGTH_BYTES == if next < rest then next else rest
    case _ => true
  }

  /** The indices point into the buffer. */
  predicate InBounds(s: State) {
    s.length > 0 && |s.buffer| == s.length && s.head < s.length && s.tail < s.length
  }

  ghost function ApplyMessage(ms: MessageState, e: Step): MessageState
    requires InBounds(ms.s) && Enabled(ms.s, e) && Disciplined(ms, e)
  {
    var s' := Apply(ms.s, e);
    match e
    case PublishHead =>
      var m: Message :| ms.s.writer.bytes == Frame(m);
      MessageState(s', ms.sent + [m], ms.received, ms.visible)
    case PublishTail =>
      var m := ms.s.reader.taken[LENGTH_BYTES..];
      if 0 < |m| < WORD_LIMIT - LENGTH_BYTES then MessageState(s', ms.sent, ms.received + [m], ms.visible) else ms
    case SampleHead => MessageState(s', ms.sent, ms.received, |ms.sent|)
    case _ => ms.(s := s')
  }

  ghost predicate MessageInv(ms: MessageState) {
    && Inv(ms.s)
    && ms.s.sent == Frames(ms.sent) && ms.s.received == Frames(ms.received)
    && ms.received <= ms.sent
    && (ms.s.reader.Taking? ==>
          && |ms.received| <= ms.visible <= |ms.sent|
          && |ms.s.received| + ms.s.reader.available == |Frames(ms.sent[..ms.visible])|)
  }

  /** A reader that has taken a length knows how long the next message is, and all of it is there. */
  lemma LengthIsNext(ms: MessageState)
    requires MessageInv(ms) && ms.s.reader.Taking? && |ms.s.reader.taken| >= LENGTH_BYTES
    ensures |ms.received| < |ms.sent|
    ensures var m := ms.sent[|ms.received|];
            && WordOf(ms.s.reader.taken[..LENGTH_BYTES]) == |m|
            && LENGTH_BYTES + |m| <= ms.s.reader.available
            && (|ms.s.reader.taken| == LENGTH_BYTES + |m| ==> ms.s.reader.taken == Frame(m))
  {
    hide WordBytes, WordOf, UnreadKept, WriterOk;
    var k, taken, from := |ms.received|, ms.s.reader.taken, |ms.s.received|;
    assert ms.received == ms.sent[..k];
    assert ms.visible != k;
    NextFrame(ms.sent, k);
    BoundariesOrdered(ms.sent, k + 1, ms.visible);
    var m := ms.sent[k];
    WordRoundTrip(|m|);
    assert taken[..LENGTH_BYTES] == ms.s.sent[from..from + LENGTH_BYTES];
    assert ms.s.sent[from..from + LENGTH_BYTES] == Frame(m)[..LENGTH_BYTES];
    assert Frame(m)[..LENGTH_BYTES] == WordBytes(|m|);
  }

  lemma PublishHeadKeepsMessages(ms: MessageState)
    requires MessageInv(ms) && Enabled(ms.s, PublishHead) && Disciplined(ms, PublishHead)
    ensures MessageInv(ApplyMessage(ms, PublishHead))
  {
    hide UnreadKept, WriterOk, ReaderOk, Frame;
    StepKeepsInv(ms.s, PublishHead);
    var m: Message :| ms.s.writer.bytes == Frame(m) && ApplyMessage(ms, PublishHead).sent == ms.sent + [m];
    FramesAppend(ms.sent, m);
    if ms.s.reader.Taking? { assert (ms.sent + [m])[..ms.visible] == ms.sent[..ms.visible]; }
  }

  lemma PublishTailKeepsMessages(ms: MessageState)
    requires MessageInv(ms) && Enabled(ms.s, PublishTail) && Disciplined(ms, PublishTail)
    ensures MessageInv(ApplyMessage(ms, PublishTail))
    ensures |ms.received| < |ms.sent| && ApplyMessage(ms, PublishTail).received == ms.received + [ms.sent[|ms.received|]]
  {
    hide UnreadKept, WriterOk, WordBytes, WordOf;
    StepKeepsInv(ms.s, PublishTail);
    LengthIsNext(ms);
    var m := ms.sent[|ms.received|];
    assert ms.s.reader.taken == Frame(m);
    assert ms.s.reader.taken[LENGTH_BYTES..] == m;
    FramesAppend(ms.received, m);
    assert ms.sent[..|ms.received|] + [m] == ms.sent[..|ms.received| + 1];
  }

  lemma SampleHeadKeepsMessages(ms: MessageState)
    requires MessageInv(ms) && Enabled(ms.s, SampleHead)
    ensures MessageInv(ApplyMessage(ms, SampleHead))
  {
    hide UnreadKept, WriterOk, ReaderOk;
    StepKeepsInv(ms.s, SampleHead);
    SampleHeadKeepsInv(ms.s);
    assert ms.sent[..|ms.sent|] == ms.sent;
  }

  lemma StepKeepsMessages(ms: MessageState, e: Step)
    requires MessageInv(ms) && Enabled(ms.s, e) && Disciplined(ms, e)
    ensures MessageInv(ApplyMessage(ms, e))
  {
    hide UnreadKept, WriterOk, ReaderOk, IndicesOk;
    StepKeepsInv(ms.s, e);
    match e
    case PublishHead => PublishHeadKeepsMessages(ms);
    case PublishTail => PublishTailKeepsMessages(ms);
    case SampleHead => SampleHeadKeepsMessages(ms);
    case _ =>
  }

  ghost predicate MessageRun(ms: MessageState, es: seq<Step>)
    decreases es
  {
    es != [] ==>
      && InBounds(ms.s) && Enabled(ms.s, es[0]) && Disciplined(ms, es[0])
      && MessageRun(ApplyMessage(ms, es[0]), es[1..])
  }

  ghost function RunMessages(ms: MessageState, es: seq<Step>): MessageState
    requires MessageRun(ms, es)
    decreases es
  {
    if es == [] then ms else RunMessages(ApplyMessage(ms, es[0]), es[1..])
  }

  lemma {:induction false} RunKeepsMessages(ms: MessageState, es: seq<Step>)
    requires MessageInv(ms) && MessageRun(ms, es)
    ensures MessageInv(RunMessages(ms, es))
    decreases es
  {
    hide MessageInv;
    if es != [] {
      StepKeepsMessages(ms, es[0]);
      RunKeepsMessages(ApplyMessage(ms, es[0]), es[1..]);
    }
  }

  /** However the copying of writer and reader interleaves, the messages received are the first of the messages sent,
      each whole, unmodified and in order. */
  lemma MessagesArriveInOrder(s: State, es: seq<Step>)
    requires Initial(s) && MessageRun(MessageState(s, [], [], 0), es)
    ensures RunMessages(MessageState(s, [], [], 0), es).received <= RunMessages(MessageState(s, [], [], 0), es).sent
  {
    InitialInv(s);
    RunKeepsMessages(MessageState(s, [], [], 0), es);
  }
}
