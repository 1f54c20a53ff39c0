/** OS/stream_buffer.c: one writer and one reader share a stream buffer without locking.

    Every read of the other side's index, every byte copied and every publication of an index is a step of its
    own, and the steps interleave at will. */
module StreamInterleaving {
  import opened KernelConfig

  /** The index of the byte with absolute position i in a buffer of the given length */
  function Slot(i: nat, length: nat): nat
    requires 0 < length
  {
    if i < length then i else Slot(i - length, length)
  }

  /** An index moved on by count, as the copying functions do it */
  function Advance(index: nat, count: nat, length: nat): nat {
    if index + count >= length then index + count - length else index + count
  }

  lemma {:induction false} SlotInRange(i: nat, length: nat)
    requires 0 < length
    ensures Slot(i, length) < length
    decreases i
  {
    if i >= length {
      SlotInRange(i - length, length);
    }
  }

  lemma {:induction false} SlotAdvances(i: nat, count: nat, length: nat)
    requires 0 < length && count <= length
    ensures Slot(i + count, length) == Advance(Slot(i, length), count, length)
    decreases i
  {
    if i >= length {
      SlotAdvances(i - length, count, length);
    }
  }

  /** Fewer than length bytes apart, two bytes never share a slot. */
  lemma {:induction false} SlotsDiffer(i: nat, j: nat, length: nat)
    requires i < j < i + length
    ensures Slot(i, length) != Slot(j, length)
  {
    SlotInRange(i, length);
    SlotAdvances(i, j - i, length);
  }

  /** The writer's progress in xStreamBufferSend. tail0 and tail1 are its first two reads of xTail; at0 and at1, ghosts
      of the source, are how many bytes had been consumed then; retries counts the rounds of the loop. A whole
      write, of a message buffer, takes all of its data or none. */
  datatype Writer =
    | WriterIdle
    | ReadTail(data: seq<byte>, whole: bool, retries: nat)
    | ReadTailAgain(data: seq<byte>, whole: bool, retries: nat, tail0: nat, at0: nat)
    | Compare(data: seq<byte>, whole: bool, retries: nat, tail0: nat, at0: nat, tail1: nat, at1: nat)
    | CopyIn(chunk: seq<byte>, copied: set<nat>)

  /** The reader's progress in xStreamBufferReceive, which reads nothing unless more than least bytes are there. */
  datatype Reader =
    | ReaderIdle
    | ReadHead(wanted: nat, least: nat)
    | CopyOut(count: nat, got: map<nat, byte>)

  /** accepted is every byte whose write has been published, delivered every byte whose read has. */
  datatype Stream = Stream(
    buffer: seq<byte>, head: nat, tail: nat, writer: Writer, reader: Reader, accepted: seq<byte>, delivered: seq<byte>)

  /** Limit: the reader learns that it is to take fewer bytes than there are. The writer and the reader may also
      drop what they are copying, and publish nothing. */
  datatype Event =
    | Send(data: seq<byte>, whole: bool)
    | FirstRead
    | SecondRead
    | ThirdRead
    | WriteByte(k: nat)
    | PublishHead
    | AbandonWrite
    | Receive(wanted: nat, least: nat)
    | HeadRead
    | ReadByte(k: nat)
    | Limit(n: nat)
    | PublishTail
    | AbandonRead

  predicate Enabled(s: Stream, e: Event) {
    match e
    case Send(_, _) => s.writer.WriterIdle?
    case FirstRead => s.writer.ReadTail?
    case SecondRead => s.writer.ReadTailAgain?
    case ThirdRead => s.writer.Compare?
    case WriteByte(k) => s.writer.CopyIn? && k < |s.writer.chunk|
    case PublishHead => s.writer.CopyIn? && forall k :: 0 <= k < |s.writer.chunk| ==> k in s.writer.copied
    case AbandonWrite => s.writer.CopyIn?
    case Receive(_, _) => s.reader.ReaderIdle?
    case HeadRead => s.reader.ReadHead?
    case ReadByte(k) => s.reader.CopyOut? && k < s.reader.count
    case Limit(n) => s.reader.CopyOut? && n <= s.reader.count && forall k :: k in s.reader.got ==> k < n
    case PublishTail => s.reader.CopyOut? && forall k :: 0 <= k < s.reader.count ==> k in s.reader.got
    case AbandonRead => s.reader.CopyOut?
  }

  function Min(a: nat, b: nat): nat {
    if a < b then a else b
  }

  /** The arithmetic of xStreamBufferSpacesAvailable */
  function SpacesAvailable(length: nat, tail: nat, head: nat): int {
    var xSpace := length + tail - head - 1;
    if xSpace >= length then xSpace - length else xSpace
  }

  /** The arithmetic of prvBytesInBuffer */
  function BytesInBuffer(length: nat, tail: nat, head: nat): int {
    var xCount := length + head - tail;
    if xCount >= length then xCount - length else xCount
  }

  function Natural(x: int): nat {
    if x < 0 then 0 else x
  }

  /** How many of the data the writer copies, with the given space: as many as fit, or of a whole write all or none. */
  function Staged(data: seq<byte>, whole: bool, xSpace: nat): (n: nat)
    ensures n <= |data| && n <= xSpace
  {
    if !whole then Min(|data|, xSpace) else if |data| <= xSpace then |data| else 0
  }

  ghost function Collect(got: map<nat, byte>, count: nat): seq<byte>
    requires forall k :: 0 <= k < count ==> k in got
  {
    seq(count, k requires 0 <= k < count => got[k])
  }

  ghost function Step(s: Stream, e: Event): Stream
    requires Inv(s) && Enabled(s, e)
  {
    var length := |s.buffer|;
    match e
    case Send(data, whole) => s.(writer := ReadTail(data, whole, 0))
    case FirstRead => s.(writer := ReadTailAgain(s.writer.data, s.writer.whole, s.writer.retries, s.tail, |s.delivered|))
    case SecondRead =>
      s.(writer := Compare(s.writer.data, s.writer.whole, s.writer.retries, s.writer.tail0, s.writer.at0, s.tail, |s.delivered|))
    case ThirdRead =>
      if s.writer.tail0 != s.tail then s.(writer := ReadTail(s.writer.data, s.writer.whole, s.writer.retries + 1))
      else
        var n := Staged(s.writer.data, s.writer.whole, Natural(SpacesAvailable(length, s.writer.tail1, s.head)));
        s.(writer := if n == 0 then WriterIdle else CopyIn(s.writer.data[..n], {}))
    case WriteByte(k) =>
      var i := Advance(s.head, k, length);
      HeadSlot(s, k);
      s.(buffer := s.buffer[i := s.writer.chunk[k]], writer := s.writer.(copied := s.writer.copied + {k}))
    case PublishHead =>
      s.(head := Advance(s.head, |s.writer.chunk|, length), accepted := s.accepted + s.writer.chunk, writer := WriterIdle)
    case AbandonWrite => s.(writer := WriterIdle)
    case Receive(wanted, least) => s.(reader := ReadHead(wanted, least))
    case HeadRead =>
      var available := Natural(BytesInBuffer(length, s.tail, s.head));
      var n := if available <= s.reader.least then 0 else Min(s.reader.wanted, available);
      s.(reader := if n == 0 then ReaderIdle else CopyOut(n, map[]))
    case ReadByte(k) =>
      TailSlot(s, k);
      s.(reader := s.reader.(got := s.reader.got[k := s.buffer[Advance(s.tail, k, length)]]))
    case PublishTail =>
      s.(tail := Advance(s.tail, s.reader.count, length), delivered := s.delivered + Collect(s.reader.got, s.reader.count),
         reader := ReaderIdle)
    case Limit(n) => s.(reader := s.reader.(count := n))
    case AbandonRead => s.(reader := ReaderIdle)
  }

  // ---- The invariant ----

  ghost predicate Indices(s: Stream) {
    var length, w, r := |s.buffer|, |s.accepted|, |s.delivered|;
    0 < length && r <= w < r + length && s.head == Slot(w, length) && s.tail == Slot(r, length)
  }

  /** Every byte accepted and not yet consumed is in its slot. */
  ghost predicate Stored(s: Stream)
    requires 0 < |s.buffer|
  {
    forall i :: |s.delivered| <= i < |s.accepted| ==> Holds(s.buffer, i, s.accepted[i])
  }

  ghost predicate Holds(buffer: seq<byte>, i: nat, b: byte)
    requires 0 < |buffer|
  {
    Slot(i, |buffer|) < |buffer| && buffer[Slot(i, |buffer|)] == b
  }

  ghost predicate WriterOk(s: Stream)
    requires 0 < |s.buffer|
  {
    var length, w, r := |s.buffer|, |s.accepted|, |s.delivered|;
    match s.writer
    case WriterIdle => true
    case ReadTail(_, _, retries) => retries + (w - r) < length
    case ReadTailAgain(_, _, retries, tail0, at0) =>
      at0 <= r && tail0 == Slot(at0, length) && retries + (w - at0) < length
    case Compare(_, _, retries, tail0, at0, tail1, at1) =>
      at0 <= at1 <= r && tail0 == Slot(at0, length) && tail1 == Slot(at1, length) && retries + (w - at0) < length
    case CopyIn(chunk, copied) =>
      && w + |chunk| < r + length
      && forall k :: k in copied ==> k < |chunk| && Holds(s.buffer, w + k, chunk[k])
  }

  ghost predicate ReaderOk(s: Stream) {
    match s.reader
    case CopyOut(count, got) =>
      && |s.delivered| + count <= |s.accepted|
      && forall k :: k in got ==> k < count && got[k] == s.accepted[|s.delivered| + k]
    case _ => true
  }

  ghost predicate Inv(s: Stream) {
    Indices(s) && Stored(s) && WriterOk(s) && ReaderOk(s) && s.delivered <= s.accepted
  }

  lemma {:induction false} HeadSlot(s: Stream, k: nat)
    requires Indices(s) && k < |s.buffer|
    ensures Advance(s.head, k, |s.buffer|) == Slot(|s.accepted| + k, |s.buffer|) < |s.buffer|
  {
    SlotAdvances(|s.accepted|, k, |s.buffer|);
    SlotInRange(|s.accepted| + k, |s.buffer|);
  }

  lemma {:induction false} TailSlot(s: Stream, k: nat)
    requires Indices(s) && k < |s.buffer|
    ensures Advance(s.tail, k, |s.buffer|) == Slot(|s.delivered| + k, |s.buffer|) < |s.buffer|
  {
    SlotAdvances(|s.delivered|, k, |s.buffer|);
    SlotInRange(|s.delivered| + k, |s.buffer|);
  }

  /** With head w bytes on and tail r bytes on, the index arithmetic gives the exact distances. */
  lemma {:induction false} DistancesExact(w: nat, r: nat, length: nat)
    requires 0 < length && r <= w < r + length
    ensures SpacesAvailable(length, Slot(r, length), Slot(w, length)) == length - 1 - (w - r)
    ensures BytesInBuffer(length, Slot(r, length), Slot(w, length)) == w - r
  {
    SlotInRange(r, length);
    SlotAdvances(r, w - r, length);
  }

  // ---- Every step keeps the invariant ----

  /** The value the writer computes is the space there is at its third read. */
  lemma {:induction false} SpaceIsExact(s: Stream)
    requires Inv(s) && s.writer.Compare? && s.writer.tail0 == s.tail
    ensures SpacesAvailable(|s.buffer|, s.writer.tail1, s.head) == |s.buffer| - 1 - (|s.accepted| - |s.delivered|)
  {
    var at0, r := s.writer.at0, |s.delivered|;
    if at0 < r {
      SlotsDiffer(at0, r, |s.buffer|);
    }
    DistancesExact(|s.accepted|, r, |s.buffer|);
  }

  lemma {:induction false} RetryKeepsInv(s: Stream)
    requires Inv(s) && s.writer.Compare? && s.writer.tail0 != s.tail
    ensures Inv(Step(s, ThirdRead)) && s.writer.at0 < |s.delivered|
  {
  }

  lemma {:induction false} ThirdReadKeepsInv(s: Stream)
    requires Inv(s) && s.writer.Compare?
    ensures Inv(Step(s, ThirdRead))
  {
    if s.writer.tail0 != s.tail {
      RetryKeepsInv(s);
    } else {
      SpaceIsExact(s);
    }
  }

  /** A byte being written goes to a slot that no unread byte has, published or not. */
  lemma {:induction false} WriteIsSafe(s: Stream, k: nat)
    requires Inv(s) && Enabled(s, WriteByte(k))
    ensures forall i :: |s.delivered| <= i < |s.accepted| + |s.writer.chunk| && i != |s.accepted| + k ==>
      Slot(i, |s.buffer|) != Advance(s.head, k, |s.buffer|)
  {
    HeadSlot(s, k);
    var j := |s.accepted| + k;
    forall i | |s.delivered| <= i < |s.accepted| + |s.writer.chunk| && i != j
      ensures Slot(i, |s.buffer|) != Slot(j, |s.buffer|)
    {
      if i < j {
        SlotsDiffer(i, j, |s.buffer|);
      } else {
        SlotsDiffer(j, i, |s.buffer|);
      }
    }
  }

  lemma {:induction false} WriteByteKeepsInv(s: Stream, k: nat)
    requires Inv(s) && Enabled(s, WriteByte(k))
    ensures Inv(Step(s, WriteByte(k)))
  {
    HeadSlot(s, k);
    WriteIsSafe(s, k);
    var r := Step(s, WriteByte(k));
    forall i | |s.delivered| <= i < |s.accepted| ensures Holds(r.buffer, i, s.accepted[i]) {
      assert Holds(s.buffer, i, s.accepted[i]);
    }
    forall j | j in r.writer.copied ensures j < |s.writer.chunk| && Holds(r.buffer, |s.accepted| + j, s.writer.chunk[j]) {
      assert j != k ==> Holds(s.buffer, |s.accepted| + j, s.writer.chunk[j]);
    }
  }

  lemma {:induction false} PublishHeadKeepsInv(s: Stream)
    requires Inv(s) && Enabled(s, PublishHead)
    ensures Inv(Step(s, PublishHead))
  {
    var r := Step(s, PublishHead);
    SlotAdvances(|s.accepted|, |s.writer.chunk|, |s.buffer|);
    forall i | |r.delivered| <= i < |r.accepted| ensures Holds(r.buffer, i, r.accepted[i]) {
      if i < |s.accepted| {
        assert Holds(s.buffer, i, s.accepted[i]);
      } else {
        assert Holds(s.buffer, |s.accepted| + (i - |s.accepted|), s.writer.chunk[i - |s.accepted|]);
      }
    }
  }

  lemma {:induction false} HeadReadKeepsInv(s: Stream)
    requires Inv(s) && s.reader.ReadHead?
    ensures Inv(Step(s, HeadRead))
  {
    DistancesExact(|s.accepted|, |s.delivered|, |s.buffer|);
  }

  /** A byte being read has been published, and is the right one. */
  lemma {:induction false} ReadIsSafe(s: Stream, k: nat)
    requires Inv(s) && Enabled(s, ReadByte(k))
    ensures |s.delivered| + k < |s.accepted| && Advance(s.tail, k, |s.buffer|) < |s.buffer|
    ensures s.buffer[Advance(s.tail, k, |s.buffer|)] == s.accepted[|s.delivered| + k]
  {
    TailSlot(s, k);
    assert Holds(s.buffer, |s.delivered| + k, s.accepted[|s.delivered| + k]);
  }

  lemma {:induction false} CollectedIsAccepted(accepted: seq<byte>, r: nat, got: map<nat, byte>, count: nat)
    requires r + count <= |accepted| && forall k :: 0 <= k < count ==> k in got && got[k] == accepted[r + k]
    ensures accepted[..r] + Collect(got, count) == accepted[..r + count]
  {
  }

  lemma {:induction false} DeliveredGrows(s: Stream)
    requires Inv(s) && Enabled(s, PublishTail)
    ensures Step(s, PublishTail).delivered == s.accepted[..|s.delivered| + s.reader.count]
  {
    CollectedIsAccepted(s.accepted, |s.delivered|, s.reader.got, s.reader.count);
    assert s.delivered == s.accepted[..|s.delivered|];
  }

  /** Fewer bytes are left to store, and more room for what the writer is copying. */
  lemma {:induction false} ReaderMovesOn(s: Stream, r: Stream)
    requires 0 < |s.buffer| && Stored(s) && WriterOk(s) && |s.delivered| <= |r.delivered|
    requires r == s.(tail := r.tail, delivered := r.delivered, reader := ReaderIdle)
    ensures Stored(r) && WriterOk(r)
  {
    forall i | |r.delivered| <= i < |r.accepted| ensures Holds(r.buffer, i, r.accepted[i]) {
      assert Holds(s.buffer, i, s.accepted[i]);
    }
  }

  lemma {:induction false} PublishTailKeepsInv(s: Stream)
    requires Inv(s) && Enabled(s, PublishTail)
    ensures Inv(Step(s, PublishTail))
  {
    SlotAdvances(|s.delivered|, s.reader.count, |s.buffer|);
    DeliveredGrows(s);
    ReaderMovesOn(s, Step(s, PublishTail));
  }

  lemma {:induction false} StepKeepsInv(s: Stream, e: Event)
    requires Inv(s) && Enabled(s, e)
    ensures Inv(Step(s, e))
  {
    match e
    case ThirdRead => ThirdReadKeepsInv(s);
    case WriteByte(k) => WriteByteKeepsInv(s, k);
    case PublishHead => PublishHeadKeepsInv(s);
    case HeadRead => HeadReadKeepsInv(s);
    case ReadByte(k) => ReadIsSafe(s, k);
    case PublishTail => PublishTailKeepsInv(s);
    case _ =>
  }

  // ---- How much is written and read ----

  /** A writer that has read the same tail twice copies what fits the space there is at that moment: as much of its data as
      that, or of a whole write all or nothing; with nothing to copy it is done. Otherwise it goes round again. */
  lemma {:induction false} StagesExactly(s: Stream)
    requires Inv(s) && s.writer.Compare?
    ensures var x, w, space := s.writer, Step(s, ThirdRead).writer, |s.buffer| - 1 - (|s.accepted| - |s.delivered|);
      var n := if |x.data| <= space then |x.data| else if x.whole then 0 else space;
      if x.tail0 != s.tail then w == ReadTail(x.data, x.whole, x.retries + 1)
      else 0 <= n && w == if n == 0 then WriterIdle else CopyIn(x.data[..n], {})
  {
    if s.writer.tail0 == s.tail {
      SpaceIsExact(s);
    }
  }

  /** A reader takes as many bytes as it wants of those published and not consumed, or all of them if they are fewer; but none
      unless there are more than least. */
  lemma {:induction false} TakesExactly(s: Stream)
    requires Inv(s) && s.reader.ReadHead?
    ensures var x, r, there := s.reader, Step(s, HeadRead).reader, |s.accepted| - |s.delivered|;
      var n := if there <= x.wanted then there else x.wanted;
      r == if there <= x.least || n == 0 then ReaderIdle else CopyOut(n, map[])
  {
    DistancesExact(|s.accepted|, |s.delivered|, |s.buffer|);
  }

  // ---- Runs ----

  ghost predicate IsRun(s: Stream, es: seq<Event>)
    requires Inv(s)
    decreases |es|
  {
    es != [] ==> Enabled(s, es[0]) && (StepKeepsInv(s, es[0]); IsRun(Step(s, es[0]), es[1..]))
  }

  ghost function Run(s: Stream, es: seq<Event>): Stream
    requires Inv(s) && IsRun(s, es)
    decreases |es|
  {
    if es == [] then s else (StepKeepsInv(s, es[0]); Run(Step(s, es[0]), es[1..]))
  }

  lemma {:induction false} RunKeepsInv(s: Stream, es: seq<Event>)
    requires Inv(s) && IsRun(s, es)
    ensures Inv(Run(s, es))
    decreases |es|
  {
    if es != [] {
      StepKeepsInv(s, es[0]);
      RunKeepsInv(Step(s, es[0]), es[1..]);
    }
  }

  predicate Empty(s: Stream) {
    s == Stream(s.buffer, 0, 0, WriterIdle, ReaderIdle, [], []) && s.buffer != []
  }

  /** Over every interleaving the bytes delivered are a prefix of the bytes accepted, no more than length - 1 are ever
      held, and the loop of xStreamBufferSpacesAvailable has been round fewer than length times. */
  lemma {:induction false} DeliveredIsPrefixOfAccepted(s: Stream, es: seq<Event>)
    requires Empty(s) && IsRun(s, es)
    ensures var r := Run(s, es);
      && r.delivered <= r.accepted && |r.accepted| - |r.delivered| < |r.buffer|
      && (r.writer.ReadTail? || r.writer.ReadTailAgain? || r.writer.Compare? ==> r.writer.retries < |r.buffer|)
  {
    RunKeepsInv(s, es);
  }

  /** Over every interleaving a byte about to be written overwrites no unread byte, and a byte about to be read is
      published and read as it was sent. */
  lemma {:induction false} CopiesAreSafe(s: Stream, es: seq<Event>, k: nat)
    requires Empty(s) && IsRun(s, es)
    ensures Inv(Run(s, es))
    ensures var r := Run(s, es);
      && (Enabled(r, WriteByte(k)) ==>
            forall i :: |r.delivered| <= i < |r.accepted| ==> Slot(i, |r.buffer|) != Advance(r.head, k, |r.buffer|))
      && (Enabled(r, ReadByte(k)) ==>
            |r.delivered| + k < |r.accepted| && Step(r, ReadByte(k)).reader.got[k] == r.accepted[|r.delivered| + k])
  {
    var r := Run(s, es);
    RunKeepsInv(s, es);
    if Enabled(r, WriteByte(k)) {
      WriteIsSafe(r, k);
    }
    if Enabled(r, ReadByte(k)) {
      ReadIsSafe(r, k);
    }
  }
}
