/** Stream and message buffers under concurrency: one writer and one reader, interleaved between the reading of the
    other side's index, the copying of each byte and the publication of the own index. */

module StreamProtocol {
  import opened Basics
  import opened Rings

  /** The writer has nothing to do, has computed the space, or has copied `done` of its bytes. */
  datatype Writer = Idle | Space(space: nat) | Copying(bytes: seq<byte>, done: nat)

  /** The reader has nothing to do, or has found `available` bytes and taken some of them. */
  datatype Reader = Rest | Taking(available: nat, taken: seq<byte>)

  /** `buffer`, `head` and `tail` are the shared structure; `sent` and `received` are all the bytes ever published by
      the writer and by the reader. */
  datatype State = State(
    length: nat, buffer: seq<byte>, head: nat, tail: nat,
    writer: Writer, reader: Reader,
    sent: seq<byte>, received: seq<byte>)

  datatype Step =
    | SampleTail | BeginWrite(bytes: seq<byte>) | WriteByte | PublishHead | AbandonWrite
    | SampleHead | TakeByte | PublishTail | AbandonRead

  predicate Enabled(s: State, e: Step) {
    match e
    case SampleTail => s.writer.Idle?
    case BeginWrite(bytes) => s.writer.Space? && |bytes| <= s.writer.space
    case WriteByte => s.writer.Copying? && s.writer.done < |s.writer.bytes|
    case PublishHead => s.writer.Copying? && s.writer.done == |s.writer.bytes|
    case AbandonWrite => !s.writer.Idle?
    case SampleHead => s.reader.Rest?
    case TakeByte => s.reader.Taking? && |s.reader.taken| < s.reader.available
    case PublishTail => s.reader.Taking?
    case AbandonRead => s.reader.Taking?
  }

  /** xStreamBufferSpacesAvailable: the distance from head to tail, less the one place always left free. */
  function SpacesAvailable(head: nat, tail: nat, length: nat): int {
    var space := length + tail - head - 1;
    if space >= length then space - length else space
  }

  function Apply(s: State, e: Step): State
    requires s.length > 0 && |s.buffer| == s.length && s.head < s.length && s.tail < s.length
    requires Enabled(s, e)
  {
    match e
    case SampleTail => s.(writer := Space(SpacesAvailable(s.head, s.tail, s.length)))
    case BeginWrite(bytes) => s.(writer := Copying(bytes, 0))
    case WriteByte =>
      var at := Moved(s.head, s.writer.done, s.length);
      var buffer := if at < |s.buffer| then s.buffer[at := s.writer.bytes[s.writer.done]] else s.buffer;
      s.(buffer := buffer, writer := Copying(s.writer.bytes, s.writer.done + 1))
    case PublishHead =>
      s.(head := Moved(s.head, |s.writer.bytes|, s.length), sent := s.sent + s.writer.bytes, writer := Idle)
    case AbandonWrite => s.(writer := Idle)
    case SampleHead => s.(reader := Taking(Apart(s.head, s.tail, s.length), []))
    case TakeByte =>
      var at := Moved(s.tail, |s.reader.taken|, s.length);
      var b := if at < |s.buffer| then s.buffer[at] else 0;
      s.(reader := Taking(s.reader.available, s.reader.taken + [b]))
    case PublishTail =>
      s.(tail := Moved(s.tail, |s.reader.taken|, s.length), received := s.received + s.reader.taken, reader := Rest)
    case AbandonRead => s.(reader := Rest)
  }

  // ---- Invariant ----

  ghost predicate IndicesOk(s: State) {
    && s.length > 0 && |s.buffer| == s.length
    && s.head == Place(|s.sent|, s.length) && s.tail == Place(|s.received|, s.length)
    && |s.received| <= |s.sent| < |s.received| + s.length
    && s.received == s.sent[..|s.received|]
  }

  /** Every byte published and not yet taken out is where the reader will look for it. */
  ghost predicate UnreadKept(s: State)
    requires s.length > 0 && |s.buffer| == s.length
  {
    forall i :: |s.received| <= i < |s.sent| ==> s.buffer[Place(i, s.length)] == s.sent[i]
  }

  /** What the writer found free is still free; what it has copied so far follows the last byte published. */
  ghost predicate WriterOk(s: State)
    requires s.length > 0 && |s.buffer| == s.length
  {
    var free := s.length - 1 - (|s.sent| - |s.received|);
    match s.writer
    case Idle => true
    case Space(space) => space <= free
    case Copying(bytes, done) =>
      && done <= |bytes| <= free
      && forall k :: 0 <= k < done ==> s.buffer[Place(|s.sent| + k, s.length)] == bytes[k]
  }

  /** What the reader found there is still there, and it has taken it in order. */
  ghost predicate ReaderOk(s: State) {
    s.reader.Taking? ==>
      && |s.reader.taken| <= s.reader.available
      && |s.received| + s.reader.available <= |s.sent|
      && s.reader.taken == s.sent[|s.received|..|s.received| + |s.reader.taken|]
  }

  ghost predicate Inv(s: State) {
    IndicesOk(s) && UnreadKept(s) && WriterOk(s) && ReaderOk(s)
  }

  lemma SampleTailKeepsInv(s: State)
    requires Inv(s) && s.writer.Idle?
    ensures SpacesAvailable(s.head, s.tail, s.length) == s.length - 1 - (|s.sent| - |s.received|)
    ensures Inv(Apply(s, SampleTail))
  {
    ApartIsDistance(|s.received|, |s.sent|, s.length);
  }

  lemma SampleHeadKeepsInv(s: State)
    requires Inv(s) && s.reader.Rest?
    ensures Apart(s.head, s.tail, s.length) == |s.sent| - |s.received|
    ensures Inv(Apply(s, SampleHead))
  {
    hide Place;
    ApartIsDistance(|s.received|, |s.sent|, s.length);
  }

  lemma WriteByteKeepsInv(s: State)
    requires Inv(s) && Enabled(s, WriteByte)
    ensures Inv(Apply(s, WriteByte))
  {
    hide Place, Moved;
    var s', done := Apply(s, WriteByte), s.writer.done;
    PlaceMoves(|s.sent|, done, s.length);
    forall i | |s.received| <= i < |s.sent| + done ensures Place(i, s.length) != Place(|s.sent| + done, s.length) {
      PlacesDiffer(i, |s.sent| + done, s.length);
    }
  }

  lemma PublishedKept(s: State, s': State)
    requires Inv(s) && Enabled(s, PublishHead) && s' == Apply(s, PublishHead)
    ensures |s'.buffer| == s'.length && UnreadKept(s')
  {
    hide Place, Moved;
    forall i | |s'.received| <= i < |s'.sent| ensures s'.buffer[Place(i, s.length)] == s'.sent[i] {
      if i >= |s.sent| {
        var k := i - |s.sent|;
        assert s.buffer[Place(|s.sent| + k, s.length)] == s.writer.bytes[k];
      }
    }
  }

  lemma PublishHeadKeepsInv(s: State)
    requires Inv(s) && Enabled(s, PublishHead)
    ensures Inv(Apply(s, PublishHead))
  {
    hide Place, Moved, UnreadKept;
    var s' := Apply(s, PublishHead);
    PlaceMoves(|s.sent|, |s.writer.bytes|, s.length);
    PublishedKept(s, s');
    assert s'.sent[..|s.received|] == s.sent[..|s.received|];
    if s.reader.Taking? {
      assert s'.sent[|s.received|..|s.received| + |s.reader.taken|]
             == s.sent[|s.received|..|s.received| + |s.reader.taken|];
    }
  }

  lemma TakeByteKeepsInv(s: State)
    requires Inv(s) && Enabled(s, TakeByte)
    ensures Inv(Apply(s, TakeByte))
  {
    hide Place, Moved;
    PlaceMoves(|s.received|, |s.reader.taken|, s.length);
    var at := |s.received| + |s.reader.taken|;
    assert s.sent[|s.received|..at] + [s.sent[at]] == s.sent[|s.received|..at + 1];
  }

  lemma PublishTailKeepsInv(s: State)
    requires Inv(s) && Enabled(s, PublishTail)
    ensures Inv(Apply(s, PublishTail))
  {
    hide Place, Moved;
    PlaceMoves(|s.received|, |s.reader.taken|, s.length);
    var at := |s.received| + |s.reader.taken|;
    assert s.sent[..|s.received|] + s.sent[|s.received|..at] == s.sent[..at];
  }

  lemma StepKeepsInv(s: State, e: Step)
    requires Inv(s) && Enabled(s, e)
    ensures Inv(Apply(s, e))
  {
    hide Place, Moved, Apart;
    match e
    case SampleTail => SampleTailKeepsInv(s);
    case SampleHead => SampleHeadKeepsInv(s);
    case WriteByte => WriteByteKeepsInv(s);
    case PublishHead => PublishHeadKeepsInv(s);
    case TakeByte => TakeByteKeepsInv(s);
    case PublishTail => PublishTailKeepsInv(s);
    case BeginWrite(_) =>
    case AbandonWrite =>
    case AbandonRead =>
  }

  // ---- Every run ----

  ghost predicate Initial(s: State) {
    && s.length > 0 && |s.buffer| == s.length && s.head == 0 && s.tail == 0
    && s.writer == Idle && s.reader == Rest && s.sent == [] && s.received == []
  }

  lemma InitialInv(s: State)
    requires Initial(s)
    ensures Inv(s)
  {
    assert Place(0, s.length) == 0;
  }

  ghost predicate RunEnabled(s: State, es: seq<Step>)
    decreases es
  {
    es != [] ==>
      && s.length > 0 && |s.buffer| == s.length && s.head < s.length && s.tail < s.length
      && Enabled(s, es[0]) && RunEnabled(Apply(s, es[0]), es[1..])
  }

  ghost function Run(s: State, es: seq<Step>): State
    requires RunEnabled(s, es)
    decreases es
  {
    if es == [] then s else Run(Apply(s, es[0]), es[1..])
  }

  lemma {:induction false} RunKeepsInv(s: State, es: seq<Step>)
    requires Inv(s) && RunEnabled(s, es)
    ensures Inv(Run(s, es))
    decreases es
  {
    if es != [] {
      StepKeepsInv(s, es[0]);
      RunKeepsInv(Apply(s, es[0]), es[1..]);
    }
  }

  /** However writer and reader interleave, the bytes received are a prefix of the bytes accepted, at most length - 1
      bytes are ever held, and each of them lies untouched in the ring, also while the writer is copying. */
  lemma ReceivedIsPrefix(s: State, es: seq<Step>)
    requires Initial(s) && RunEnabled(s, es)
    ensures var s' := Run(s, es);
            && s'.received <= s'.sent
            && |s'.sent| - |s'.received| <= s'.length - 1
            && (forall i :: |s'.received| <= i < |s'.sent| ==>
                  Place(i, s'.length) < |s'.buffer| && s'.buffer[Place(i, s'.length)] == s'.sent[i])
            && (s'.reader.Taking? ==> s'.received + s'.reader.taken <= s'.sent)
  {
    hide Place;
    InitialInv(s);
    RunKeepsInv(s, es);
    var s' := Run(s, es);
    if s'.reader.Taking? {
      var at := |s'.received| + |s'.reader.taken|;
      assert s'.received + s'.reader.taken == s'.sent[..at];
    }
  }
}
