/** OS/stream_buffer.c: one writer and one reader share a message buffer without locking.

    The steps are those of StreamInterleaving, a byte at a time. The writer's data is a frame, which it writes whole or
    not at all; the reader copies the length first, and it decides how much more to take, or to take nothing. */
module MessageInterleaving {
  import opened KernelConfig
  import opened MessageBuffers
  import Bytes = StreamInterleaving

  /** message is what the writer is sending; capacity is the reader's xBufferLengthBytes, and limited says whether it has
      made use of the length. sent and received are ghosts of the source. */
  datatype Link = Link(
    stream: Bytes.Stream, message: seq<byte>, capacity: nat, limited: bool, sent: seq<seq<byte>>, received: seq<seq<byte>>)

  datatype Event =
    | SendMessage(data: seq<byte>)
    | WriterStep(step: Bytes.Event)
    | Publish
    | GiveUpWrite
    | ReceiveMessage(capacity: nat)
    | ReadHead
    | CopyByte(k: nat)
    | UseLength
    | Deliver

  /** The bytes of the length have been copied. */
  predicate LengthCopied(got: map<nat, byte>) {
    forall k :: 0 <= k < sbBYTES_TO_STORE_MESSAGE_LENGTH ==> k in got
  }

  predicate Enabled(l: Link, e: Event) {
    match e
    case SendMessage(data) => |data| < LENGTH_TYPE_VALUES && l.stream.writer.WriterIdle?
    case WriterStep(step) => (step.FirstRead? || step.SecondRead? || step.ThirdRead? || step.WriteByte?) && Bytes.Enabled(l.stream, step)
    case Publish => l.message != [] && Bytes.Enabled(l.stream, Bytes.PublishHead)
    case GiveUpWrite => l.message == [] && Bytes.Enabled(l.stream, Bytes.AbandonWrite)
    case ReceiveMessage(_) => l.stream.reader.ReaderIdle?
    case ReadHead => l.stream.reader.ReadHead?
    case CopyByte(k) => Bytes.Enabled(l.stream, Bytes.ReadByte(k)) && (l.limited || k < sbBYTES_TO_STORE_MESSAGE_LENGTH)
    case UseLength => l.stream.reader.CopyOut? && !l.limited && LengthCopied(l.stream.reader.got)
    case Deliver => l.limited && Bytes.Enabled(l.stream, Bytes.PublishTail)
  }

  ghost function LengthRead(got: map<nat, byte>): nat
    requires LengthCopied(got)
  {
    LengthOf(Bytes.Collect(got, sbBYTES_TO_STORE_MESSAGE_LENGTH))
  }

  ghost function Step(l: Link, e: Event): Link
    requires Inv(l) && Enabled(l, e)
  {
    match e
    case SendMessage(data) => l.(stream := Bytes.Step(l.stream, Bytes.Send(Frame(data), true)), message := data)
    case WriterStep(step) => l.(stream := Bytes.Step(l.stream, step))
    case Publish => l.(stream := Bytes.Step(l.stream, Bytes.PublishHead), sent := l.sent + [l.message])
    case GiveUpWrite => l.(stream := Bytes.Step(l.stream, Bytes.AbandonWrite))
    case ReceiveMessage(capacity) =>
      l.(stream := Bytes.Step(l.stream, Bytes.Receive(|l.stream.buffer|, sbBYTES_TO_STORE_MESSAGE_LENGTH)),
         capacity := capacity, limited := false)
    case ReadHead => l.(stream := Bytes.Step(l.stream, Bytes.HeadRead))
    case CopyByte(k) => l.(stream := Bytes.Step(l.stream, Bytes.ReadByte(k)))
    case UseLength =>
      var n := LengthRead(l.stream.reader.got);
      if n > l.capacity then l.(stream := Bytes.Step(l.stream, Bytes.AbandonRead))
      else
        var count := Bytes.Min(l.stream.reader.count, sbBYTES_TO_STORE_MESSAGE_LENGTH + n);
        l.(stream := Bytes.Step(l.stream, Bytes.Limit(count)), limited := true)
    case Deliver =>
      var frame := Bytes.Collect(l.stream.reader.got, l.stream.reader.count);
      l.(stream := Bytes.Step(l.stream, Bytes.PublishTail),
         received := l.received + [frame[Bytes.Min(|frame|, sbBYTES_TO_STORE_MESSAGE_LENGTH)..]])
  }

  // ---- The invariant ----

  ghost predicate WriterOk(l: Link) {
    && |l.message| < LENGTH_TYPE_VALUES
    && match l.stream.writer
       case WriterIdle => true
       case CopyIn(chunk, _) => chunk == Frame(l.message)
       case _ => l.stream.writer.whole && l.stream.writer.data == Frame(l.message)
  }

  /** The messages sent and not yet received */
  function Rest(l: Link): seq<seq<byte>>
    requires |l.received| <= |l.sent|
  {
    l.sent[|l.received|..]
  }

  ghost predicate ReaderOk(l: Link)
    requires |l.received| <= |l.sent|
  {
    match l.stream.reader
    case ReaderIdle => true
    case ReadHead(wanted, least) => wanted == |l.stream.buffer| && least == sbBYTES_TO_STORE_MESSAGE_LENGTH && !l.limited
    case CopyOut(count, got) =>
      && Rest(l) != []
      && if l.limited
         then |Rest(l)[0]| <= l.capacity && count == sbBYTES_TO_STORE_MESSAGE_LENGTH + |Rest(l)[0]|
         else
           && sbBYTES_TO_STORE_MESSAGE_LENGTH + |Rest(l)[0]| <= count
           && forall k :: k in got ==> k < sbBYTES_TO_STORE_MESSAGE_LENGTH
  }

  ghost predicate Messages(l: Link) {
    && AllMessages(l.sent) && l.received <= l.sent
    && l.stream.accepted == Frames(l.sent) && l.stream.delivered == Frames(l.received)
  }

  ghost predicate Inv(l: Link) {
    Bytes.Inv(l.stream) && Messages(l) && WriterOk(l) && ReaderOk(l)
  }

  // ---- Frames of a prefix and of the rest ----

  lemma {:induction false} FramesSplit(a: seq<seq<byte>>, b: seq<seq<byte>>)
    requires AllMessages(a + b)
    ensures Frames(a + b) == Frames(a) + Frames(b) && AllMessages(b)
  {
    if a == [] {
      assert a + b == b;
    } else {
      assert (a + b)[0] == a[0] && (a + b)[1..] == a[1..] + b;
      FramesSplit(a[1..], b);
    }
  }

  /** What is stored and unread is the frames of the messages not yet received. */
  lemma {:induction false} Unread(l: Link)
    requires Messages(l)
    ensures AllMessages(Rest(l)) && l.stream.accepted == l.stream.delivered + Frames(Rest(l))
    ensures |l.stream.delivered| <= |l.stream.accepted| && l.stream.accepted[|l.stream.delivered|..] == Frames(Rest(l))
  {
    assert l.sent == l.received + Rest(l);
    FramesSplit(l.received, Rest(l));
  }

  /** The next frame, byte by byte in the accepted stream */
  lemma {:induction false} NextFrame(l: Link)
    requires Messages(l) && Rest(l) != []
    ensures 0 < |Rest(l)[0]| < LENGTH_TYPE_VALUES
    ensures var r, n := |l.stream.delivered|, sbBYTES_TO_STORE_MESSAGE_LENGTH + |Rest(l)[0]|;
      r + n <= |l.stream.accepted| && l.stream.accepted[r..r + n] == Frame(Rest(l)[0]) && |Frame(Rest(l)[0])| == n
  {
    Unread(l);
    LengthRoundTrip(|Rest(l)[0]|);
    FramesHead(Rest(l));
    var r, a, f := |l.stream.delivered|, l.stream.accepted, Frame(Rest(l)[0]);
    assert a[r..] == f + Frames(Rest(l)[1..]);
    assert a[r..][..|f|] == f;
    assert a[r..][..|f|] == a[r..r + |f|];
  }

  // ---- Every step keeps the invariant ----

  /** A step of the writer's that publishes nothing concerns the writer alone. */
  lemma {:induction false} WriterAlone(l: Link, r: Link)
    requires Inv(l) && Bytes.Inv(r.stream) && WriterOk(r)
    requires r == l.(stream := l.stream.(buffer := r.stream.buffer, writer := r.stream.writer), message := r.message)
    requires |r.stream.buffer| == |l.stream.buffer|
    ensures Inv(r)
  {
  }

  /** The writer stages the whole frame or gives up. */
  lemma {:induction false} StagesWhole(s: Bytes.Stream)
    requires Bytes.Inv(s) && s.writer.Compare? && s.writer.whole
    ensures var w := Bytes.Step(s, Bytes.ThirdRead).writer;
      w.WriterIdle? || (w.CopyIn? && w.chunk == s.writer.data) || (w.ReadTail? && w.whole && w.data == s.writer.data)
  {
    assert s.writer.data[..|s.writer.data|] == s.writer.data;
  }

  lemma {:induction false} WriterStepKeepsInv(l: Link, e: Event)
    requires Inv(l) && Enabled(l, e) && (e.SendMessage? || e.WriterStep? || e.GiveUpWrite?)
    ensures Inv(Step(l, e))
  {
    match e
    case SendMessage(data) =>
      Bytes.StepKeepsInv(l.stream, Bytes.Send(Frame(data), true));
      WriterAlone(l, Step(l, e));
    case GiveUpWrite =>
      Bytes.StepKeepsInv(l.stream, Bytes.AbandonWrite);
      WriterAlone(l, Step(l, e));
    case WriterStep(step) =>
      Bytes.StepKeepsInv(l.stream, step);
      if step.ThirdRead? {
        StagesWhole(l.stream);
      } else if step.WriteByte? {
        Bytes.HeadSlot(l.stream, step.k);
      }
      WriterAlone(l, Step(l, e));
  }

  lemma {:induction false} OneMoreSent(sent: seq<seq<byte>>, received: seq<seq<byte>>, m: seq<byte>)
    requires AllMessages(sent) && received <= sent && 0 < |m| < LENGTH_TYPE_VALUES
    ensures AllMessages(sent + [m]) && received <= sent + [m] && Frames(sent + [m]) == Frames(sent) + Frame(m)
    ensures (sent + [m])[|received|..] == sent[|received|..] + [m]
  {
    FramesSnoc(sent, m);
  }

  lemma {:induction false} OneMoreReceived(sent: seq<seq<byte>>, received: seq<seq<byte>>)
    requires received <= sent && sent[|received|..] != []
    ensures var m := sent[|received|..][0];
      received + [m] <= sent && Frames(received + [m]) == Frames(received) + Frame(m)
  {
    FramesSnoc(received, sent[|received|..][0]);
    assert received == sent[..|received|];
  }

  lemma {:induction false} PublishKeepsInv(l: Link)
    requires Inv(l) && Enabled(l, Publish)
    ensures Inv(Step(l, Publish))
  {
    Bytes.StepKeepsInv(l.stream, Bytes.PublishHead);
    OneMoreSent(l.sent, l.received, l.message);
  }

  /** Whenever the reader finds bytes, it finds a whole frame at least. */
  lemma {:induction false} ReadHeadKeepsInv(l: Link)
    requires Inv(l) && l.stream.reader.ReadHead?
    ensures Inv(Step(l, ReadHead))
  {
    Bytes.StepKeepsInv(l.stream, Bytes.HeadRead);
    Bytes.DistancesExact(|l.stream.accepted|, |l.stream.delivered|, |l.stream.buffer|);
    Unread(l);
    if Rest(l) != [] {
      NextFrame(l);
    }
  }

  /** Bytes copied from the unread ones are those of the next frame. */
  lemma {:induction false} CopiedFromFrame(l: Link, got: map<nat, byte>, n: nat)
    requires Messages(l) && Rest(l) != [] && n <= sbBYTES_TO_STORE_MESSAGE_LENGTH + |Rest(l)[0]|
    requires forall k :: 0 <= k < n ==> k in got && |l.stream.delivered| + k < |l.stream.accepted|
    requires forall k :: 0 <= k < n ==> got[k] == l.stream.accepted[|l.stream.delivered| + k]
    ensures n <= |Frame(Rest(l)[0])| && Bytes.Collect(got, n) == Frame(Rest(l)[0])[..n]
  {
    NextFrame(l);
    var r, f := |l.stream.delivered|, Frame(Rest(l)[0]);
    var b := Bytes.Collect(got, n);
    forall k | 0 <= k < n ensures b[k] == f[k] {
      assert l.stream.accepted[r..r + |f|][k] == l.stream.accepted[r + k];
    }
    assert b == f[..n];
  }

  lemma {:induction false} LengthOfFrame(m: seq<byte>)
    requires |m| < LENGTH_TYPE_VALUES
    ensures |Frame(m)| == sbBYTES_TO_STORE_MESSAGE_LENGTH + |m|
    ensures LengthOf(Frame(m)[..sbBYTES_TO_STORE_MESSAGE_LENGTH]) == |m| && Frame(m)[sbBYTES_TO_STORE_MESSAGE_LENGTH..] == m
  {
    LengthRoundTrip(|m|);
    assert Frame(m)[..sbBYTES_TO_STORE_MESSAGE_LENGTH] == LengthBytes(|m|);
  }

  /** The length the reader has copied is that of the next message. */
  lemma {:induction false} LengthIsRight(l: Link)
    requires Inv(l) && l.stream.reader.CopyOut? && LengthCopied(l.stream.reader.got)
    ensures Rest(l) != [] && LengthRead(l.stream.reader.got) == |Rest(l)[0]|
  {
    NextFrame(l);
    CopiedFromFrame(l, l.stream.reader.got, sbBYTES_TO_STORE_MESSAGE_LENGTH);
    LengthOfFrame(Rest(l)[0]);
  }

  /** A step of the reader's that publishes nothing concerns the reader alone. */
  lemma {:induction false} ReaderAlone(l: Link, r: Link)
    requires Inv(l) && Bytes.Inv(r.stream) && r == l.(stream := l.stream.(reader := r.stream.reader), limited := r.limited)
    requires ReaderOk(r)
    ensures Inv(r)
  {
  }

  lemma {:induction false} UseLengthKeepsInv(l: Link)
    requires Inv(l) && Enabled(l, UseLength)
    ensures Inv(Step(l, UseLength))
  {
    LengthIsRight(l);
    var r := Step(l, UseLength);
    if LengthRead(l.stream.reader.got) > l.capacity {
      Bytes.StepKeepsInv(l.stream, Bytes.AbandonRead);
    } else {
      Bytes.StepKeepsInv(l.stream, Bytes.Limit(sbBYTES_TO_STORE_MESSAGE_LENGTH + |Rest(l)[0]|));
    }
    ReaderAlone(l, r);
  }

  /** The bytes of a completed read are the next frame. */
  lemma {:induction false} FrameCollected(l: Link)
    requires Inv(l) && Enabled(l, Deliver)
    ensures Rest(l) != []
    ensures Bytes.Collect(l.stream.reader.got, l.stream.reader.count) == Frame(Rest(l)[0])
    ensures Frame(Rest(l)[0])[sbBYTES_TO_STORE_MESSAGE_LENGTH..] == Rest(l)[0]
  {
    NextFrame(l);
    CopiedFromFrame(l, l.stream.reader.got, l.stream.reader.count);
    LengthOfFrame(Rest(l)[0]);
    assert Frame(Rest(l)[0])[..l.stream.reader.count] == Frame(Rest(l)[0]);
  }

  lemma {:induction false} DeliverKeepsInv(l: Link)
    requires Inv(l) && Enabled(l, Deliver)
    ensures Inv(Step(l, Deliver)) && Step(l, Deliver).received == l.received + [Rest(l)[0]]
  {
    Bytes.StepKeepsInv(l.stream, Bytes.PublishTail);
    FrameCollected(l);
    OneMoreReceived(l.sent, l.received);
  }

  lemma {:induction false} StepKeepsInv(l: Link, e: Event)
    requires Inv(l) && Enabled(l, e)
    ensures Inv(Step(l, e))
  {
    match e
    case Publish => PublishKeepsInv(l);
    case ReceiveMessage(_) =>
      Bytes.StepKeepsInv(l.stream, Bytes.Receive(|l.stream.buffer|, sbBYTES_TO_STORE_MESSAGE_LENGTH));
    case ReadHead => ReadHeadKeepsInv(l);
    case CopyByte(k) => Bytes.StepKeepsInv(l.stream, Bytes.ReadByte(k));
    case UseLength => UseLengthKeepsInv(l);
    case Deliver => DeliverKeepsInv(l);
    case _ => WriterStepKeepsInv(l, e);
  }

  // ---- What a call does with a message ----

  /** The writer stages its frame exactly if that fits the space there is, and else gives up. */
  lemma {:induction false} StagesIfItFits(l: Link)
    requires Inv(l) && Enabled(l, WriterStep(Bytes.ThirdRead)) && l.stream.writer.tail0 == l.stream.tail
    ensures var s, w := l.stream, Step(l, WriterStep(Bytes.ThirdRead)).stream.writer;
      if sbBYTES_TO_STORE_MESSAGE_LENGTH + |l.message| <= |s.buffer| - 1 - (|s.accepted| - |s.delivered|)
      then w == Bytes.CopyIn(Frame(l.message), {}) else w == Bytes.WriterIdle
  {
    Bytes.StagesExactly(l.stream);
    LengthOfFrame(l.message);
    assert Frame(l.message)[..|Frame(l.message)|] == Frame(l.message);
  }

  /** The reader begins to copy exactly if a message is there. */
  lemma {:induction false} ReadsIfAny(l: Link)
    requires Inv(l) && Enabled(l, ReadHead)
    ensures Step(l, ReadHead).stream.reader.CopyOut? <==> Rest(l) != []
  {
    Bytes.TakesExactly(l.stream);
    Unread(l);
    if Rest(l) != [] {
      NextFrame(l);
    }
  }

  /** With the length read, the reader goes on to take the next message and no more exactly if its buffer can hold it; else it
      takes nothing, and the message stays the next one. */
  lemma {:induction false} TakesIfItFits(l: Link)
    requires Inv(l) && Enabled(l, UseLength)
    ensures Rest(l) != []
    ensures var r, m := Step(l, UseLength), Rest(l)[0];
      && r.received == l.received && r.sent == l.sent
      && r.stream.delivered == l.stream.delivered && r.stream.tail == l.stream.tail
      && if |m| <= l.capacity
         then r.limited && r.stream.reader == Bytes.CopyOut(sbBYTES_TO_STORE_MESSAGE_LENGTH + |m|, l.stream.reader.got)
         else r.stream.reader == Bytes.ReaderIdle
  {
    LengthIsRight(l);
  }

  // ---- Runs ----

  ghost predicate IsRun(l: Link, es: seq<Event>)
    requires Inv(l)
    decreases |es|
  {
    es != [] ==> Enabled(l, es[0]) && (StepKeepsInv(l, es[0]); IsRun(Step(l, es[0]), es[1..]))
  }

  ghost function Run(l: Link, es: seq<Event>): (r: Link)
    requires Inv(l) && IsRun(l, es)
    ensures Inv(r)
    decreases |es|
  {
    if es == [] then l else (StepKeepsInv(l, es[0]); Run(Step(l, es[0]), es[1..]))
  }

  predicate Empty(l: Link) {
    Bytes.Empty(l.stream) && l.message == [] && l.sent == [] && l.received == []
  }

  /** Over every interleaving of the single bytes, messages are received whole, once each and in the order they were
      sent, and what is published and not yet consumed is at any moment the frames of the others. */
  lemma {:induction false} MessagesWholeAndInOrder(l: Link, es: seq<Event>)
    requires Empty(l) && IsRun(l, es)
    ensures var r := Run(l, es);
      && r.received <= r.sent && |r.stream.delivered| <= |r.stream.accepted|
      && r.stream.accepted[|r.stream.delivered|..] == Frames(Rest(r))
      && Decode(r.stream.accepted[|r.stream.delivered|..]) == Rest(r)
  {
    var r := Run(l, es);
    Unread(r);
    FramesRoundTrip(Rest(r));
  }

  /** The assertion of xStreamBufferNextMessageLengthBytes, at any moment: there is nothing to read, or a length and
      more, and the length is that of the next message. */
  lemma {:induction false} NothingOrMore(l: Link, es: seq<Event>)
    requires Empty(l) && IsRun(l, es)
    ensures var s := Run(l, es).stream;
      var xBytesAvailable := Bytes.BytesInBuffer(|s.buffer|, s.tail, s.head);
      xBytesAvailable == 0 || xBytesAvailable > sbBYTES_TO_STORE_MESSAGE_LENGTH
  {
    var r := Run(l, es);
    Bytes.DistancesExact(|r.stream.accepted|, |r.stream.delivered|, |r.stream.buffer|);
    Unread(r);
    if Rest(r) != [] {
      NextFrame(r);
    }
  }
}
