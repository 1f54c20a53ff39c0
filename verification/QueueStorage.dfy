/** OS/queue.c: the storage area of a queue, proved to be a bounded double-ended queue of items. */
module QueueStorage {

  import opened KernelConfig

  datatype Position = SendToBack | SendToFront | Overwrite

  /** The offset of slot j in an area of slots of size bytes. */
  function Offset(j: nat, size: nat): nat {
    if j == 0 then 0 else Offset(j - 1, size) + size
  }

  lemma {:induction false} OffsetsApart(j: nat, k: nat, size: nat)
    requires j < k
    ensures Offset(j, size) + size <= Offset(k, size)
  {
    if j + 1 < k {
      OffsetsApart(j, k - 1, size);
    }
  }

  /** The slot k places after slot first on a ring of length slots. */
  function Around(first: nat, k: nat, length: nat): nat
    requires first < length && k <= length
  {
    if first + k < length then first + k else first + k - length
  }

  function Before(first: nat, length: nat): nat
    requires first < length
  {
    if first == 0 then length - 1 else first - 1
  }

  /** The count items on a ring of slots from first on. */
  ghost function Ring<T>(slots: seq<T>, first: nat, count: nat): (r: seq<T>)
    requires first < |slots| && count <= |slots|
    ensures |r| == count
    ensures forall k :: 0 <= k < count ==> r[k] == slots[Around(first, k, |slots|)]
  {
    seq(count, k requires 0 <= k < count => slots[Around(first, k, |slots|)])
  }

  lemma {:induction false} RingBack<T>(slots: seq<T>, first: nat, count: nat, x: T)
    requires first < |slots| && count < |slots|
    ensures Ring(slots[Around(first, count, |slots|) := x], first, count + 1) == Ring(slots, first, count) + [x]
  {
  }

  lemma {:induction false} RingFront<T>(slots: seq<T>, first: nat, count: nat, x: T)
    requires first < |slots| && count < |slots|
    ensures Ring(slots[Before(first, |slots|) := x], Before(first, |slots|), count + 1) == [x] + Ring(slots, first, count)
  {
    var front := Before(first, |slots|);
    assert forall k :: 0 <= k < count ==> Around(front, k + 1, |slots|) == Around(first, k, |slots|);
  }

  lemma {:induction false} RingPop<T>(slots: seq<T>, first: nat, count: nat)
    requires first < |slots| && 0 < count <= |slots|
    ensures [slots[first]] + Ring(slots, Around(first, 1, |slots|), count - 1) == Ring(slots, first, count)
  {
    var next := Around(first, 1, |slots|);
    assert forall k :: 0 <= k < count - 1 ==> Around(first, k + 1, |slots|) == Around(next, k, |slots|);
  }

  /** Writing before the first slot prepends, or in a queue of length one overwrites; where the next item goes stays. */
  lemma {:induction false} FrontStored(slots: seq<seq<byte>>, first: nat, count: nat, item: seq<byte>, overwrite: bool)
    requires first < |slots| && count <= |slots| && if overwrite then |slots| == 1 else count < |slots|
    ensures var f, n := Before(first, |slots|), if overwrite && count > 0 then count else count + 1;
      && n <= |slots| && Ring(slots[f := item], f, n) == (if overwrite then [item] else [item] + Ring(slots, first, count))
      && Around(f, n, |slots|) == Around(first, count, |slots|)
  {
    if count < |slots| {
      RingFront(slots, first, count, item);
    }
  }

  class QueueStorage {
    const uxLength: nat
    const uxItemSize: nat
    /** The storage area; pcHead is offset 0 and pcTail the length of the area. */
    const area: array<byte>
    var pcWriteTo: nat
    var pcReadFrom: nat
    var uxMessagesWaiting: nat
    /** The slot of the item that is next to be received. */
    ghost var first: nat

    ghost predicate Shape()
      reads this
    {
      && 0 < uxLength && area.Length == Offset(uxLength, uxItemSize) && first < uxLength
      && pcReadFrom == Offset(Before(first, uxLength), uxItemSize)
      && uxMessagesWaiting <= uxLength
    }

    ghost predicate Valid()
      reads this
    {
      Shape() && pcWriteTo == Offset(Around(first, uxMessagesWaiting, uxLength), uxItemSize)
    }

    ghost function Slot(j: nat): seq<byte>
      requires area.Length == Offset(uxLength, uxItemSize) && j < uxLength
      reads area
    {
      OffsetsApart(j, uxLength, uxItemSize);
      area[Offset(j, uxItemSize)..Offset(j, uxItemSize) + uxItemSize]
    }

    ghost function Slots(): (s: seq<seq<byte>>)
      requires area.Length == Offset(uxLength, uxItemSize)
      reads area
      ensures |s| == uxLength
      ensures forall j :: 0 <= j < |s| ==> s[j] == Slot(j)
    {
      seq(uxLength, j requires 0 <= j < uxLength && area.Length == Offset(uxLength, uxItemSize) reads area => Slot(j))
    }

    /** The items in the queue, front first. */
    ghost function Contents(): seq<seq<byte>>
      requires Shape()
      reads this, area
    {
      Ring(Slots(), first, uxMessagesWaiting)
    }

    /** memcpy of one item into slot j */
    method CopyIn(item: seq<byte>, offset: nat, ghost j: nat)
      requires area.Length == Offset(uxLength, uxItemSize) && j < uxLength
      requires offset == Offset(j, uxItemSize) && |item| == uxItemSize
      modifies area
      ensures Slots() == old(Slots())[j := item]
    {
      OffsetsApart(j, uxLength, uxItemSize);
      forall i | 0 <= i < |item| {
        area[offset + i] := item[i];
      }
      assert Slot(j) == item;
      forall i | 0 <= i < uxLength && i != j
        ensures Slot(i) == old(Slot(i))
      {
        OffsetsApart(if i < j then i else j, if i < j then j else i, uxItemSize);
        OffsetsApart(i, uxLength, uxItemSize);
      }
    }

    /** prvInitialiseNewQueue and the part of xQueueGenericReset that is about storage */
    constructor (length: nat, size: nat)
      requires 0 < length
      ensures Valid() && Contents() == [] && uxLength == length && uxItemSize == size
      ensures first == 0 && pcWriteTo == 0 && pcReadFrom == Offset(length - 1, size) && fresh(area)
    {
      uxLength, uxItemSize := length, size;
      area := new byte[Offset(length, size)];
      pcWriteTo, pcReadFrom, uxMessagesWaiting := 0, Offset(length - 1, size), 0;
      first := 0;
    }

    /** The storing branches of xQueueGenericSend and prvCopyDataToQueue. Overwriting is for queues of
        length one. An item of size zero is not stored, and overwriting one that is there then
        counts a second item: the one case in which the queue is not left valid. */
    method Send(item: seq<byte>, xPosition: Position) returns (passed: bool)
      requires Valid() && |item| == uxItemSize
      requires xPosition.Overwrite? ==> uxLength == 1
      modifies this, area
      ensures passed <==> old(uxMessagesWaiting) < uxLength || xPosition.Overwrite?
      ensures Valid() <==> !(xPosition.Overwrite? && uxItemSize == 0 && old(uxMessagesWaiting) == 1)
      ensures passed && uxItemSize == 0 ==> uxMessagesWaiting == old(uxMessagesWaiting) + 1
      ensures Valid() && !passed ==> Contents() == old(Contents())
      ensures Valid() && passed && xPosition.SendToBack? ==> Contents() == old(Contents()) + [item]
      ensures Valid() && passed && xPosition.SendToFront? ==> Contents() == [item] + old(Contents())
      ensures Valid() && passed && xPosition.Overwrite? ==> Contents() == [item]
    {
      passed := uxMessagesWaiting < uxLength || xPosition.Overwrite?;
      if passed {
        if uxItemSize == 0 {
          CountOnly();
        } else if xPosition.SendToBack? {
          StoreAtBack(item);
        } else {
          StoreAtFront(item, xPosition);
        }
      }
    }

    /** Items of a semaphore have no bytes. */
    method CountOnly()
      requires Valid() && uxItemSize == 0
      modifies this`uxMessagesWaiting
      ensures uxMessagesWaiting == old(uxMessagesWaiting) + 1
      ensures Valid() <==> old(uxMessagesWaiting) < uxLength
      ensures Valid() ==> Contents() == old(Contents()) + [[]] && Contents() == [[]] + old(Contents())
    {
      uxMessagesWaiting := uxMessagesWaiting + 1;
      forall j: nat ensures Offset(j, 0) == 0 {
        OffsetZero(j);
      }
    }

    method StoreAtBack(item: seq<byte>)
      requires Valid() && |item| == uxItemSize != 0 && uxMessagesWaiting < uxLength
      modifies this, area
      ensures Valid() && Contents() == old(Contents()) + [item]
    {
      ghost var back := Around(first, uxMessagesWaiting, uxLength);
      RingBack(Slots(), first, uxMessagesWaiting, item);
      CopyIn(item, pcWriteTo, back);
      OffsetsApart(back, uxLength, uxItemSize);
      if back + 1 < uxLength {
        OffsetsApart(back + 1, uxLength, uxItemSize);
      }
      pcWriteTo := pcWriteTo + uxItemSize;
      if pcWriteTo >= area.Length {
        pcWriteTo := 0;
      }
      uxMessagesWaiting := uxMessagesWaiting + 1;
    }

    method StoreAtFront(item: seq<byte>, xPosition: Position)
      requires Valid() && |item| == uxItemSize != 0 && !xPosition.SendToBack?
      requires if xPosition.Overwrite? then uxLength == 1 else uxMessagesWaiting < uxLength
      modifies this, area
      ensures Valid() && Contents() == if xPosition.Overwrite? then [item] else [item] + old(Contents())
    {
      FrontStored(Slots(), first, uxMessagesWaiting, item, xPosition.Overwrite?);
      StoreBefore(item);
      CountFront(xPosition);
    }

    method CountFront(xPosition: Position)
      modifies this`uxMessagesWaiting
      ensures uxMessagesWaiting == if xPosition.Overwrite? && old(uxMessagesWaiting) > 0 then old(uxMessagesWaiting) else old(uxMessagesWaiting) + 1
    {
      if xPosition.Overwrite? && uxMessagesWaiting > 0 {
        uxMessagesWaiting := uxMessagesWaiting - 1;
      }
      uxMessagesWaiting := uxMessagesWaiting + 1;
    }

    method StoreBefore(item: seq<byte>)
      requires Shape() && |item| == uxItemSize != 0
      modifies this`pcReadFrom, this`first, area
      ensures Shape() && first == Before(old(first), uxLength) && Slots() == old(Slots())[first := item]
    {
      CopyIn(item, pcReadFrom, Before(first, uxLength));
      StepBack();
    }

    /** pcReadFrom moves one slot back, around the start of the area. */
    method StepBack()
      requires Shape() && uxItemSize != 0
      modifies this`pcReadFrom, this`first
      ensures Shape() && first == Before(old(first), uxLength)
    {
      ghost var front := Before(first, uxLength);
      if front != 0 {
        OffsetsApart(0, front, uxItemSize);
      }
      var offset: int := pcReadFrom - uxItemSize;
      if offset < 0 {
        offset := area.Length - uxItemSize;
      }
      first := front;
      assert offset == Offset(Before(front, uxLength), uxItemSize);
      pcReadFrom := offset;
    }

    /** prvCopyDataFromQueue */
    method CopyDataFromQueue() returns (item: seq<byte>)
      requires Valid()
      modifies this`pcReadFrom
      ensures pcReadFrom == Offset(first, uxItemSize)
      ensures item == Slot(first)
    {
      OffsetsApart(first, uxLength, uxItemSize);
      OffsetsApart(Before(first, uxLength), uxLength, uxItemSize);
      if uxItemSize != 0 {
        pcReadFrom := pcReadFrom + uxItemSize;
        if pcReadFrom >= area.Length {
          pcReadFrom := 0;
        }
        item := area[pcReadFrom..pcReadFrom + uxItemSize];
      } else {
        OffsetZero(first);
        OffsetZero(Before(first, uxLength));
        item := [];
      }
    }

    /** xQueueReceive and xQueueReceiveFromISR, as far as storage goes */
    method Receive() returns (passed: bool, item: seq<byte>)
      requires Valid()
      modifies this
      ensures Valid() && (passed <==> old(Contents()) != [])
      ensures if passed then [item] + Contents() == old(Contents()) else Contents() == old(Contents())
    {
      passed, item := uxMessagesWaiting > 0, [];
      if passed {
        item := CopyDataFromQueue();
        RingPop(Slots(), first, uxMessagesWaiting);
        first := Around(first, 1, uxLength);
        uxMessagesWaiting := uxMessagesWaiting - 1;
      }
    }

    /** xQueuePeek and xQueuePeekFromISR, as far as storage goes */
    method Peek() returns (passed: bool, item: seq<byte>)
      requires Valid()
      modifies this`pcReadFrom
      ensures Valid() && Contents() == old(Contents()) && pcReadFrom == old(pcReadFrom)
      ensures (passed <==> Contents() != []) && (passed ==> item == Contents()[0])
    {
      passed, item := uxMessagesWaiting > 0, [];
      if passed {
        var pcOriginalReadPosition := pcReadFrom;
        item := CopyDataFromQueue();
        pcReadFrom := pcOriginalReadPosition;
      }
    }
  }

  /** On a queue of length one without item storage, a send and an overwrite leave a count of two. */
  method OverwriteCountsTwice() returns (queue: QueueStorage)
    ensures fresh(queue) && queue.uxLength == 1 && queue.uxItemSize == 0
    ensures queue.uxMessagesWaiting == 2 && !queue.Valid()
  {
    queue := new QueueStorage(1, 0);
    var sent := queue.Send([], SendToBack);
    var overwritten := queue.Send([], Overwrite);
  }

  lemma OffsetZero(j: nat)
    ensures Offset(j, 0) == 0
  {
  }
}
