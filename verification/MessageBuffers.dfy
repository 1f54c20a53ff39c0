/** OS/stream_buffer.c: the storage of a stream buffer, and the frames of a message buffer.

    Here each call runs to its end without waiting; StreamInterleaving deals with a writer and a reader that
    overtake each other. */
module MessageBuffers {
  import opened KernelConfig
  import opened StreamInterleaving

  const sbBYTES_TO_STORE_MESSAGE_LENGTH: nat := 4
  const LENGTH_TYPE_VALUES := 0x1_0000_0000

  // ---- Frames ----

  /** The first k bytes of a length as it lies in memory, least significant byte first */
  function Digits(n: nat, k: nat): seq<byte>
    decreases k
  {
    if k == 0 then [] else [n % 256] + Digits(n / 256, k - 1)
  }

  function Value(b: seq<byte>): nat {
    if b == [] then 0 else b[0] + 256 * Value(b[1..])
  }

  function Values(k: nat): nat {
    if k == 0 then 1 else 256 * Values(k - 1)
  }

  lemma {:induction false} DigitsRoundTrip(n: nat, k: nat)
    requires n < Values(k)
    ensures |Digits(n, k)| == k && Value(Digits(n, k)) == n
    decreases k
  {
    if k > 0 {
      DigitsRoundTrip(n / 256, k - 1);
    }
  }

  function LengthBytes(n: nat): seq<byte> {
    Digits(n, sbBYTES_TO_STORE_MESSAGE_LENGTH)
  }

  function LengthOf(b: seq<byte>): nat
    requires |b| >= sbBYTES_TO_STORE_MESSAGE_LENGTH
  {
    Value(b[..sbBYTES_TO_STORE_MESSAGE_LENGTH])
  }

  lemma {:induction false} LengthRoundTrip(n: nat)
    requires n < LENGTH_TYPE_VALUES
    ensures |LengthBytes(n)| == sbBYTES_TO_STORE_MESSAGE_LENGTH && LengthOf(LengthBytes(n)) == n
  {
    assert Values(2) == 65536;
    assert Values(4) == 256 * (256 * Values(2));
    DigitsRoundTrip(n, sbBYTES_TO_STORE_MESSAGE_LENGTH);
    assert LengthBytes(n)[..sbBYTES_TO_STORE_MESSAGE_LENGTH] == LengthBytes(n);
  }

  function Frame(m: seq<byte>): seq<byte> {
    LengthBytes(|m|) + m
  }

  function Frames(ms: seq<seq<byte>>): seq<byte> {
    if ms == [] then [] else Frame(ms[0]) + Frames(ms[1..])
  }

  ghost predicate AllMessages(ms: seq<seq<byte>>) {
    ms == [] || (0 < |ms[0]| < LENGTH_TYPE_VALUES && AllMessages(ms[1..]))
  }

  /** Taking frames off the front until nothing is left: the only way a reader finds the messages again. */
  function Decode(content: seq<byte>): seq<seq<byte>> {
    if |content| <= sbBYTES_TO_STORE_MESSAGE_LENGTH then []
    else
      var n := LengthOf(content);
      var rest := content[sbBYTES_TO_STORE_MESSAGE_LENGTH..];
      if n > |rest| then [rest] else [rest[..n]] + Decode(rest[n..])
  }

  lemma {:induction false} FramesHead(ms: seq<seq<byte>>)
    requires AllMessages(ms) && ms != []
    ensures var content := Frames(ms);
      && |content| == sbBYTES_TO_STORE_MESSAGE_LENGTH + |ms[0]| + |Frames(ms[1..])|
      && content[..sbBYTES_TO_STORE_MESSAGE_LENGTH] == LengthBytes(|ms[0]|)
      && LengthOf(content) == |ms[0]|
      && content[sbBYTES_TO_STORE_MESSAGE_LENGTH..][..|ms[0]|] == ms[0]
      && content[sbBYTES_TO_STORE_MESSAGE_LENGTH..][|ms[0]|..] == Frames(ms[1..])
      && content[sbBYTES_TO_STORE_MESSAGE_LENGTH + |ms[0]|..] == Frames(ms[1..])
  {
    LengthRoundTrip(|ms[0]|);
    var content := Frames(ms);
    assert content == LengthBytes(|ms[0]|) + (ms[0] + Frames(ms[1..]));
    assert content[sbBYTES_TO_STORE_MESSAGE_LENGTH..] == ms[0] + Frames(ms[1..]);
    assert content[..sbBYTES_TO_STORE_MESSAGE_LENGTH] == LengthBytes(|ms[0]|)[..sbBYTES_TO_STORE_MESSAGE_LENGTH];
  }

  /** Framing round-trips: whatever messages are framed one after the other, the reader finds the same. */
  lemma {:induction false} FramesRoundTrip(ms: seq<seq<byte>>)
    requires AllMessages(ms)
    ensures Decode(Frames(ms)) == ms
  {
    if ms != [] {
      FramesHead(ms);
      FramesRoundTrip(ms[1..]);
    }
  }

  lemma {:induction false} FramesSnoc(ms: seq<seq<byte>>, m: seq<byte>)
    ensures Frames(ms + [m]) == Frames(ms) + Frame(m)
    ensures AllMessages(ms) && 0 < |m| < LENGTH_TYPE_VALUES ==> AllMessages(ms + [m])
  {
    if ms == [] {
      assert ms + [m] == [m];
      assert Frames([]) == [] && Frames([m]) == Frame(m) + Frames([m][1..]);
    } else {
      assert (ms + [m])[1..] == ms[1..] + [m] && (ms + [m])[0] == ms[0];
      FramesSnoc(ms[1..], m);
    }
  }

  // ---- What the calls do to the messages ----

  /** The message fits behind the frames that are there. */
  predicate Fits(ms: seq<seq<byte>>, data: seq<byte>, length: nat) {
    0 < |data| && |Frames(ms)| + sbBYTES_TO_STORE_MESSAGE_LENGTH + |data| < length
  }

  function AfterSend(ms: seq<seq<byte>>, data: seq<byte>, length: nat): seq<seq<byte>> {
    if Fits(ms, data, length) then ms + [data] else ms
  }

  predicate CanReceive(ms: seq<seq<byte>>, capacity: nat) {
    ms != [] && |ms[0]| <= capacity
  }

  function AfterReceive(ms: seq<seq<byte>>, capacity: nat): seq<seq<byte>> {
    if CanReceive(ms, capacity) then ms[1..] else ms
  }

  datatype Call = Send(data: seq<byte>) | Receive(capacity: nat)

  /** The messages sent and received over a series of calls on a buffer that holds ms to begin with */
  function Sent(ms: seq<seq<byte>>, calls: seq<Call>, length: nat): seq<seq<byte>>
    decreases |calls|
  {
    if calls == [] then []
    else match calls[0]
      case Send(data) =>
        (if Fits(ms, data, length) then [data] else []) + Sent(AfterSend(ms, data, length), calls[1..], length)
      case Receive(capacity) => Sent(AfterReceive(ms, capacity), calls[1..], length)
  }

  function Received(ms: seq<seq<byte>>, calls: seq<Call>, length: nat): seq<seq<byte>>
    decreases |calls|
  {
    if calls == [] then []
    else match calls[0]
      case Send(data) => Received(AfterSend(ms, data, length), calls[1..], length)
      case Receive(capacity) =>
        (if CanReceive(ms, capacity) then [ms[0]] else []) + Received(AfterReceive(ms, capacity), calls[1..], length)
  }

  function Pending(ms: seq<seq<byte>>, calls: seq<Call>, length: nat): seq<seq<byte>>
    decreases |calls|
  {
    if calls == [] then ms
    else match calls[0]
      case Send(data) => Pending(AfterSend(ms, data, length), calls[1..], length)
      case Receive(capacity) => Pending(AfterReceive(ms, capacity), calls[1..], length)
  }

  /** Over any series of calls, messages come out whole, once each, and in the order they went in. */
  lemma {:induction false} MessagesKeepOrder(ms: seq<seq<byte>>, calls: seq<Call>, length: nat)
    ensures Received(ms, calls, length) + Pending(ms, calls, length) == ms + Sent(ms, calls, length)
    decreases |calls|
  {
    if calls != [] {
      match calls[0]
      case Send(data) =>
        var next := AfterSend(ms, data, length);
        MessagesKeepOrder(next, calls[1..], length);
        assert ms + Sent(ms, calls, length) == next + Sent(next, calls[1..], length);
      case Receive(capacity) =>
        var next := AfterReceive(ms, capacity);
        MessagesKeepOrder(next, calls[1..], length);
        assert CanReceive(ms, capacity) ==> ms == [ms[0]] + next;
        assert Received(ms, calls, length) + Pending(ms, calls, length) ==
               (if CanReceive(ms, capacity) then [ms[0]] else []) + (Received(next, calls[1..], length) + Pending(next, calls[1..], length));
    }
  }

  // ---- The buffer ----

  /** The bytes from index i on, around the end of the storage, begin with content. */
  ghost predicate Lies(buffer: seq<byte>, i: nat, content: seq<byte>) {
    && i < |buffer| && |content| <= |buffer|
    && forall k :: 0 <= k < |content| ==> buffer[Advance(i, k, |buffer|)] == content[k]
  }

  /** buffer is old except for the count bytes from index i on. */
  ghost predicate OnlyWritten(was: seq<byte>, buffer: seq<byte>, i: nat, count: nat) {
    && |was| == |buffer| && i < |buffer|
    && forall j :: 0 <= j < |buffer| && !(i <= j < i + count) && !(j + |buffer| < i + count) ==> buffer[j] == was[j]
  }

  lemma {:induction false} AdvanceTwice(i: nat, a: nat, b: nat, length: nat)
    requires i < length && a + b <= length
    ensures Advance(i, a, length) <= length && (a < length ==> Advance(i, a, length) < length)
    ensures a < length ==> Advance(Advance(i, a, length), b, length) == Advance(i, a + b, length)
  {
  }

  /** Writing behind what lies there leaves it and adds to it. */
  lemma {:induction false} WrittenBehind(was: seq<byte>, buffer: seq<byte>, i: nat, content: seq<byte>, data: seq<byte>)
    requires Lies(was, i, content) && |content| + |data| <= |was| && |content| < |was|
    requires OnlyWritten(was, buffer, Advance(i, |content|, |was|), |data|)
    requires Lies(buffer, Advance(i, |content|, |was|), data)
    ensures Lies(buffer, i, content + data)
  {
    forall k | 0 <= k < |content + data| ensures buffer[Advance(i, k, |buffer|)] == (content + data)[k] {
      if k < |content| {
        assert was[Advance(i, k, |was|)] == content[k];
      } else {
        assert buffer[Advance(Advance(i, |content|, |was|), k - |content|, |buffer|)] == data[k - |content|];
      }
    }
  }

  class StreamBuffer {
    const pucBuffer: array<byte>
    const isMessageBuffer: bool
    var xHead: nat
    var xTail: nat
    ghost var content: seq<byte>
    ghost var messages: seq<seq<byte>>

    ghost predicate Valid()
      reads this, pucBuffer
    {
      && Stores(content) && xHead == Advance(xTail, |content|, pucBuffer.Length)
      && (isMessageBuffer ==> AllMessages(messages) && content == Frames(messages))
    }

    ghost predicate Stores(bytes: seq<byte>)
      reads this, pucBuffer
    {
      xTail < pucBuffer.Length && |bytes| < pucBuffer.Length && Lies(pucBuffer[..], xTail, bytes)
    }

    /** Storage is one byte longer than asked for, so that a full buffer differs from an empty one. */
    constructor (xBufferSizeBytes: nat, message: bool)
      ensures Valid() && content == [] && messages == [] && isMessageBuffer == message
      ensures fresh(pucBuffer) && pucBuffer.Length == xBufferSizeBytes + 1
    {
      pucBuffer := new byte[xBufferSizeBytes + 1](_ => 0x55);
      isMessageBuffer, xHead, xTail, content, messages := message, 0, 0, [], [];
    }

    method MemcpyIn(offset: nat, data: seq<byte>)
      requires offset + |data| <= pucBuffer.Length
      modifies pucBuffer
      ensures forall k :: 0 <= k < |data| ==> pucBuffer[offset + k] == data[k]
      ensures forall j :: 0 <= j < pucBuffer.Length && !(offset <= j < offset + |data|) ==> pucBuffer[j] == old(pucBuffer[j])
    {
      for i := 0 to |data|
        invariant forall k :: 0 <= k < i ==> pucBuffer[offset + k] == data[k]
        invariant forall j :: 0 <= j < pucBuffer.Length && !(offset <= j < offset + i) ==> pucBuffer[j] == old(pucBuffer[j])
      {
        pucBuffer[offset + i] := data[i];
      }
    }

    /** prvWriteBytesToBuffer: xHead is where to write, the buffer's own xHead stays. */
    method WriteBytesToBuffer(pucData: seq<byte>, head: nat) returns (next: nat)
      requires 0 < |pucData| <= pucBuffer.Length && head < pucBuffer.Length
      modifies pucBuffer
      ensures next == Advance(head, |pucData|, pucBuffer.Length)
      ensures Lies(pucBuffer[..], head, pucData)
      ensures OnlyWritten(old(pucBuffer[..]), pucBuffer[..], head, |pucData|)
    {
      var xCount := |pucData|;
      var xFirstLength := Min(pucBuffer.Length - head, xCount);
      assert head + xFirstLength <= pucBuffer.Length;
      MemcpyIn(head, pucData[..xFirstLength]);
      if xCount > xFirstLength {
        MemcpyIn(0, pucData[xFirstLength..]);
      }
      next := head + xCount;
      if next >= pucBuffer.Length {
        next := next - pucBuffer.Length;
      }
    }

    /** prvReadBytesFromBuffer: likewise for xTail. */
    method ReadBytesFromBuffer(xCount: nat, tail: nat) returns (data: seq<byte>, next: nat)
      requires 0 < xCount <= pucBuffer.Length && tail < pucBuffer.Length
      ensures next == Advance(tail, xCount, pucBuffer.Length)
      ensures |data| == xCount && Lies(pucBuffer[..], tail, data)
    {
      var xFirstLength := Min(pucBuffer.Length - tail, xCount);
      data := pucBuffer[tail..tail + xFirstLength];
      if xCount > xFirstLength {
        data := data + pucBuffer[..xCount - xFirstLength];
      }
      next := tail + xCount;
      if next >= pucBuffer.Length {
        next := next - pucBuffer.Length;
      }
    }

    method GetSpacesAvailable() returns (xSpace: nat)
      requires Valid()
      ensures xSpace == pucBuffer.Length - 1 - |content|
    {
      xSpace := pucBuffer.Length + xTail - xHead;
      xSpace := xSpace - 1;
      if xSpace >= pucBuffer.Length {
        xSpace := xSpace - pucBuffer.Length;
      }
    }

    method GetBytesInBuffer() returns (xCount: nat)
      requires Valid()
      ensures xCount == |content|
    {
      xCount := pucBuffer.Length + xHead;
      xCount := xCount - xTail;
      if xCount >= pucBuffer.Length {
        xCount := xCount - pucBuffer.Length;
      }
    }

    /** Writing at the head and publishing the new one adds to the content. */
    method AppendBytes(data: seq<byte>)
      requires Stores(content) && xHead == Advance(xTail, |content|, pucBuffer.Length)
      requires 0 < |data| && |content| + |data| < pucBuffer.Length
      modifies pucBuffer, this`xHead, this`content
      ensures content == old(content) + data
      ensures Stores(content) && xHead == Advance(xTail, |content|, pucBuffer.Length)
    {
      ghost var was := pucBuffer[..];
      AdvanceTwice(xTail, |content|, |data|, pucBuffer.Length);
      xHead := WriteBytesToBuffer(data, xHead);
      WrittenBehind(was, pucBuffer[..], xTail, content, data);
      content := content + data;
    }

    /** The length bytes go to the buffer ahead of the data; they do not count until the new head is published. */
    method StageLength(xMessageLength: nat) returns (xNextHead: nat)
      requires Valid() && |content| + sbBYTES_TO_STORE_MESSAGE_LENGTH < pucBuffer.Length
      requires xMessageLength < LENGTH_TYPE_VALUES
      modifies pucBuffer
      ensures Valid()
      ensures xNextHead == Advance(xTail, |content + LengthBytes(xMessageLength)|, pucBuffer.Length)
      ensures Stores(content + LengthBytes(xMessageLength))
    {
      ghost var was := pucBuffer[..];
      LengthRoundTrip(xMessageLength);
      AdvanceTwice(xTail, |content|, sbBYTES_TO_STORE_MESSAGE_LENGTH, pucBuffer.Length);
      xNextHead := WriteBytesToBuffer(LengthBytes(xMessageLength), xHead);
      WrittenBehind(was, pucBuffer[..], xTail, content, LengthBytes(xMessageLength));
      PrefixLies(pucBuffer[..], xTail, content, LengthBytes(xMessageLength));
    }

    /** prvWriteMessageToBuffer on a message buffer. A message that does not fit, and an empty one, change nothing. */
    method WriteMessageToBuffer(data: seq<byte>, xSpace: nat, xRequiredSpace: nat) returns (sent: nat)
      requires Valid() && isMessageBuffer && |data| < LENGTH_TYPE_VALUES
      requires xSpace == pucBuffer.Length - 1 - |content| && xRequiredSpace == |data| + sbBYTES_TO_STORE_MESSAGE_LENGTH
      modifies pucBuffer, this`xHead, this`content, this`messages
      ensures Valid()
      ensures messages == AfterSend(old(messages), data, pucBuffer.Length)
      ensures sent == if Fits(old(messages), data, pucBuffer.Length) then |data| else 0
    {
      var xNextHead := xHead;
      sent := |data|;
      if xSpace >= xRequiredSpace {
        xNextHead := StageLength(|data|);
      } else {
        sent := 0;
      }
      if sent != 0 {
        PublishMessage(data, xNextHead);
      }
    }

    /** The data is written behind its length, and the new head makes both count. */
    method PublishMessage(data: seq<byte>, xNextHead: nat)
      requires Valid() && isMessageBuffer && Fits(messages, data, pucBuffer.Length) && |data| < LENGTH_TYPE_VALUES
      requires Stores(content + LengthBytes(|data|))
      requires xNextHead == Advance(xTail, |content + LengthBytes(|data|)|, pucBuffer.Length)
      modifies pucBuffer, this`xHead, this`content, this`messages
      ensures Valid() && messages == old(messages) + [data]
    {
      ghost var framed := Frames(messages) + LengthBytes(|data|) + data;
      LengthRoundTrip(|data|);
      FramesSnoc(messages, data);
      assert framed == Frames(messages + [data]) by {
        assert framed == Frames(messages) + Frame(data);
      }
      messages := messages + [data];
      content := content + LengthBytes(|data|);
      xHead := xNextHead;
      AppendBytes(data);
    }

    /** prvWriteMessageToBuffer on a stream buffer: as much as there is room for. */
    method WriteStreamToBuffer(data: seq<byte>, xSpace: nat) returns (sent: nat)
      requires Valid() && !isMessageBuffer && xSpace == pucBuffer.Length - 1 - |content|
      modifies pucBuffer, this`xHead, this`content
      ensures Valid()
      ensures sent == Min(|data|, xSpace) && content == old(content) + data[..sent]
    {
      sent := Min(|data|, xSpace);
      if sent != 0 {
        AppendBytes(data[..sent]);
      }
    }

    /** The part of xStreamBufferSend that does not wait */
    method Send(data: seq<byte>) returns (sent: nat)
      requires Valid() && (isMessageBuffer ==> |data| + sbBYTES_TO_STORE_MESSAGE_LENGTH < LENGTH_TYPE_VALUES)
      modifies pucBuffer, this`xHead, this`content, this`messages
      ensures Valid()
      ensures isMessageBuffer ==>
        && messages == AfterSend(old(messages), data, pucBuffer.Length)
        && sent == if Fits(old(messages), data, pucBuffer.Length) then |data| else 0
      ensures !isMessageBuffer ==>
        && sent == Min(|data|, pucBuffer.Length - 1 - |old(content)|)
        && content == old(content) + data[..sent]
    {
      var xSpace := GetSpacesAvailable();
      if isMessageBuffer {
        sent := WriteMessageToBuffer(data, xSpace, |data| + sbBYTES_TO_STORE_MESSAGE_LENGTH);
      } else {
        sent := WriteStreamToBuffer(data, xSpace);
      }
    }

    /** Reading at the tail and publishing the new one takes from the content. */
    method TakeBytes(xCount: nat, skipped: nat) returns (data: seq<byte>)
      requires Stores(content) && xHead == Advance(xTail, |content|, pucBuffer.Length)
      requires 0 < xCount && skipped + xCount <= |content|
      modifies this`xTail, this`content
      ensures data == old(content)[skipped..skipped + xCount] && content == old(content)[skipped + xCount..]
      ensures Stores(content) && xHead == Advance(xTail, |content|, pucBuffer.Length)
    {
      AdvanceTwice(xTail, skipped, xCount, pucBuffer.Length);
      AdvanceTwice(xTail, skipped + xCount, |content| - skipped - xCount, pucBuffer.Length);
      ghost var was := xTail;
      data, xTail := ReadBytesFromBuffer(xCount, Advance(xTail, skipped, pucBuffer.Length));
      ReadBehind(pucBuffer[..], was, content, skipped, data);
      content := content[skipped + xCount..];
    }

    /** The length in front of the next message */
    method ReadLength() returns (xNextMessageLength: nat)
      requires Valid() && isMessageBuffer && sbBYTES_TO_STORE_MESSAGE_LENGTH < |content|
      ensures messages != [] && xNextMessageLength == |messages[0]|
      ensures sbBYTES_TO_STORE_MESSAGE_LENGTH + xNextMessageLength <= |content|
    {
      var bytes, xNextTail := ReadBytesFromBuffer(sbBYTES_TO_STORE_MESSAGE_LENGTH, xTail);
      FramesHead(messages);
      ReadBehind(pucBuffer[..], xTail, content, 0, bytes);
      assert bytes[..sbBYTES_TO_STORE_MESSAGE_LENGTH] == content[..sbBYTES_TO_STORE_MESSAGE_LENGTH];
      xNextMessageLength := LengthOf(bytes);
    }

    /** prvReadMessageFromBuffer on a message buffer. A message longer than the caller has room for stays. */
    method ReadMessageFromBuffer(xBufferLengthBytes: nat, xBytesAvailable: nat) returns (data: seq<byte>)
      requires Valid() && isMessageBuffer && sbBYTES_TO_STORE_MESSAGE_LENGTH < |content| == xBytesAvailable
      modifies this`xTail, this`content, this`messages
      ensures Valid() && old(messages) != []
      ensures messages == AfterReceive(old(messages), xBufferLengthBytes)
      ensures data == if CanReceive(old(messages), xBufferLengthBytes) then old(messages)[0] else []
    {
      var xNextMessageLength := ReadLength();
      FramesHead(messages);
      if xNextMessageLength > xBufferLengthBytes {
        xNextMessageLength := 0;
      }
      var xCount := Min(xNextMessageLength, xBytesAvailable - sbBYTES_TO_STORE_MESSAGE_LENGTH);
      data := [];
      if xCount != 0 {
        ghost var n := sbBYTES_TO_STORE_MESSAGE_LENGTH + xCount;
        assert content[sbBYTES_TO_STORE_MESSAGE_LENGTH..][..xCount] == content[sbBYTES_TO_STORE_MESSAGE_LENGTH..n];
        data := TakeBytes(xCount, sbBYTES_TO_STORE_MESSAGE_LENGTH);
        messages := messages[1..];
      }
    }

    /** The part of xStreamBufferReceive that does not wait */
    method Receive(xBufferLengthBytes: nat) returns (data: seq<byte>)
      requires Valid()
      modifies this`xTail, this`content, this`messages
      ensures Valid()
      ensures isMessageBuffer ==>
        && messages == AfterReceive(old(messages), xBufferLengthBytes)
        && data == if CanReceive(old(messages), xBufferLengthBytes) then old(messages)[0] else []
      ensures !isMessageBuffer ==>
        |data| == Min(xBufferLengthBytes, |old(content)|) && old(content) == data + content
    {
      var xBytesAvailable := GetBytesInBuffer();
      data := [];
      if isMessageBuffer {
        NoShortFrames(messages);
        if xBytesAvailable > sbBYTES_TO_STORE_MESSAGE_LENGTH {
          data := ReadMessageFromBuffer(xBufferLengthBytes, xBytesAvailable);
        }
      } else if xBytesAvailable > 0 {
        var xCount := Min(xBufferLengthBytes, xBytesAvailable);
        if xCount != 0 {
          data := TakeBytes(xCount, 0);
        }
      }
    }

    /** xStreamBufferNextMessageLengthBytes: its assertion, that too few bytes for a frame means none, always holds. */
    method NextMessageLengthBytes() returns (xReturn: nat)
      requires Valid()
      ensures xReturn == if isMessageBuffer && messages != [] then |messages[0]| else 0
    {
      xReturn := 0;
      if isMessageBuffer {
        NoShortFrames(messages);
        var xBytesAvailable := GetBytesInBuffer();
        if xBytesAvailable > sbBYTES_TO_STORE_MESSAGE_LENGTH {
          xReturn := ReadLength();
        } else {
          assert xBytesAvailable == 0;
        }
      }
    }
  }

  lemma {:induction false} NoShortFrames(ms: seq<seq<byte>>)
    requires AllMessages(ms)
    ensures if ms == [] then Frames(ms) == [] else |Frames(ms)| > sbBYTES_TO_STORE_MESSAGE_LENGTH
  {
    if ms != [] {
      FramesHead(ms);
    }
  }

  lemma {:induction false} PrefixLies(buffer: seq<byte>, i: nat, a: seq<byte>, b: seq<byte>)
    requires Lies(buffer, i, a + b)
    ensures Lies(buffer, i, a)
  {
    forall k | 0 <= k < |a| ensures buffer[Advance(i, k, |buffer|)] == a[k] {
      assert (a + b)[k] == a[k];
    }
  }

  /** What is read from some way into the content is that part of it, and the rest lies behind. */
  lemma {:induction false} ReadBehind(buffer: seq<byte>, i: nat, content: seq<byte>, skipped: nat, data: seq<byte>)
    requires Lies(buffer, i, content) && |content| < |buffer| && skipped + |data| <= |content|
    requires Lies(buffer, Advance(i, skipped, |buffer|), data)
    ensures data == content[skipped..skipped + |data|]
    ensures Lies(buffer, Advance(i, skipped + |data|, |buffer|), content[skipped + |data|..])
  {
    forall k | 0 <= k < |data| ensures data[k] == content[skipped + k] {
      AdvanceTwice(i, skipped, k, |buffer|);
    }
    var n := skipped + |data|;
    forall k | 0 <= k < |content| - n ensures buffer[Advance(Advance(i, n, |buffer|), k, |buffer|)] == content[n..][k] {
      AdvanceTwice(i, n, k, |buffer|);
    }
  }
}
