/** OS/queue.c: how tasks block on a queue and are woken, with interrupts posting at any moment.

    The class QueueControl holds the critical sections as the source has them, each proved to be one of the
    functions on Control; the steps of tasks and interrupts interleave those functions. */
module QueueBlocking {
  import opened SortedLists

  const queueUNLOCKED := -1
  const queueLOCKED_UNMODIFIED := 0
  const queueINT8_MAX := 127

  /** A queue without its storage. The last two fields are ghosts of the source: the tasks that an event
      has taken off a wait list and that have not run since. */
  datatype Control = Control(
    length: nat, messages: nat, cTxLock: int, cRxLock: int, toReceive: seq<Item>, toSend: seq<Item>,
    wokenReceivers: set<nat>, wokenSenders: set<nat>)

  /** xTaskRemoveFromEventList on a wait list, if it is not empty */
  function WakeReceiver(c: Control): Control {
    if c.toReceive == [] then c
    else c.(toReceive := c.toReceive[1..], wokenReceivers := c.wokenReceivers + {c.toReceive[0].id})
  }

  function WakeSender(c: Control): Control {
    if c.toSend == [] then c
    else c.(toSend := c.toSend[1..], wokenSenders := c.wokenSenders + {c.toSend[0].id})
  }

  function WakeReceivers(c: Control, k: nat): Control
    decreases k
  {
    if k == 0 then c else WakeReceivers(WakeReceiver(c), k - 1)
  }

  function WakeSenders(c: Control, k: nat): Control
    decreases k
  {
    if k == 0 then c else WakeSenders(WakeSender(c), k - 1)
  }

  /** prvCopyDataToQueue, seen as a count */
  function Add(c: Control, overwrite: bool): Control {
    c.(messages := if overwrite && c.messages > 0 then c.messages else c.messages + 1)
  }

  predicate HasRoom(c: Control, overwrite: bool) {
    c.messages < c.length || overwrite
  }

  function SendFromTask(c: Control, overwrite: bool): Control {
    WakeReceiver(Add(c, overwrite))
  }

  function ReceiveFromTask(c: Control): Control
    requires c.messages > 0
  {
    WakeSender(c.(messages := c.messages - 1))
  }

  function SendFromISR(c: Control, overwrite: bool, uxNumberOfTasks: nat): Control {
    var d := Add(c, overwrite);
    if c.cTxLock == queueUNLOCKED then WakeReceiver(d)
    else if c.cTxLock < uxNumberOfTasks then d.(cTxLock := c.cTxLock + 1) else d
  }

  function ReceiveFromISR(c: Control, uxNumberOfTasks: nat): Control
    requires c.messages > 0
  {
    var d := c.(messages := c.messages - 1);
    if c.cRxLock == queueUNLOCKED then WakeSender(d)
    else if c.cRxLock < uxNumberOfTasks then d.(cRxLock := c.cRxLock + 1) else d
  }

  function Lock(c: Control): Control {
    c.(cRxLock := if c.cRxLock == queueUNLOCKED then queueLOCKED_UNMODIFIED else c.cRxLock,
       cTxLock := if c.cTxLock == queueUNLOCKED then queueLOCKED_UNMODIFIED else c.cTxLock)
  }

  function UnlockTx(c: Control): Control {
    (if c.cTxLock > 0 then WakeReceivers(c, c.cTxLock) else c).(cTxLock := queueUNLOCKED)
  }

  function UnlockRx(c: Control): Control {
    (if c.cRxLock > 0 then WakeSenders(c, c.cRxLock) else c).(cRxLock := queueUNLOCKED)
  }

  lemma {:induction false} NobodyLeft(c: Control, k: nat)
    ensures c.toReceive == [] ==> WakeReceivers(c, k) == c
    ensures c.toSend == [] ==> WakeSenders(c, k) == c
    decreases k
  {
    if k != 0 {
      NobodyLeft(c, k - 1);
    }
  }

  class QueueControl {
    const uxLength: nat
    var uxMessagesWaiting: nat
    var cRxLock: int
    var cTxLock: int
    var xTasksWaitingToSend: seq<Item>
    var xTasksWaitingToReceive: seq<Item>
    ghost var wokenReceivers: set<nat>
    ghost var wokenSenders: set<nat>

    ghost function Abs(): Control
      reads this
    {
      Control(uxLength, uxMessagesWaiting, cTxLock, cRxLock, xTasksWaitingToReceive, xTasksWaitingToSend,
              wokenReceivers, wokenSenders)
    }

    constructor (length: nat)
      ensures Abs() == Control(length, 0, queueUNLOCKED, queueUNLOCKED, [], [], {}, {})
    {
      uxLength, uxMessagesWaiting, cRxLock, cTxLock := length, 0, queueUNLOCKED, queueUNLOCKED;
      xTasksWaitingToSend, xTasksWaitingToReceive, wokenReceivers, wokenSenders := [], [], {}, {};
    }

    method RemoveReceiver()
      requires xTasksWaitingToReceive != []
      modifies this`xTasksWaitingToReceive, this`wokenReceivers
      ensures Abs() == WakeReceiver(old(Abs()))
    {
      wokenReceivers := wokenReceivers + {xTasksWaitingToReceive[0].id};
      xTasksWaitingToReceive := xTasksWaitingToReceive[1..];
    }

    method RemoveSender()
      requires xTasksWaitingToSend != []
      modifies this`xTasksWaitingToSend, this`wokenSenders
      ensures Abs() == WakeSender(old(Abs()))
    {
      wokenSenders := wokenSenders + {xTasksWaitingToSend[0].id};
      xTasksWaitingToSend := xTasksWaitingToSend[1..];
    }

    method CopyDataToQueue(overwrite: bool)
      modifies this`uxMessagesWaiting
      ensures Abs() == Add(old(Abs()), overwrite)
    {
      if !(overwrite && uxMessagesWaiting > 0) {
        uxMessagesWaiting := uxMessagesWaiting + 1;
      }
    }

    /** The critical section of xQueueGenericSend */
    method GenericSend(overwrite: bool) returns (passed: bool)
      modifies this
      ensures passed <==> HasRoom(old(Abs()), overwrite)
      ensures Abs() == if passed then SendFromTask(old(Abs()), overwrite) else old(Abs())
    {
      passed := uxMessagesWaiting < uxLength || overwrite;
      if passed {
        CopyDataToQueue(overwrite);
        if xTasksWaitingToReceive != [] {
          RemoveReceiver();
        }
      }
    }

    /** The critical section of xQueueReceive and of xQueueSemaphoreTake */
    method GenericReceive() returns (passed: bool)
      modifies this
      ensures passed <==> old(Abs()).messages > 0
      ensures Abs() == if passed then ReceiveFromTask(old(Abs())) else old(Abs())
    {
      passed := uxMessagesWaiting > 0;
      if passed {
        uxMessagesWaiting := uxMessagesWaiting - 1;
        if xTasksWaitingToSend != [] {
          RemoveSender();
        }
      }
    }

    /** The critical section of xQueuePeek: the item stays for the next task that waits for one. */
    method GenericPeek() returns (passed: bool)
      modifies this
      ensures passed <==> old(Abs()).messages > 0
      ensures Abs() == if passed then WakeReceiver(old(Abs())) else old(Abs())
    {
      passed := uxMessagesWaiting > 0;
      if passed {
        if xTasksWaitingToReceive != [] {
          RemoveReceiver();
        }
      }
    }

    /** xQueueGenericSendFromISR and xQueueGiveFromISR. The counter stays within int8_t for up to 127 tasks. */
    method GenericSendFromISR(overwrite: bool, uxNumberOfTasks: nat) returns (passed: bool)
      requires uxNumberOfTasks <= queueINT8_MAX && -1 <= cTxLock <= uxNumberOfTasks
      modifies this
      ensures passed <==> HasRoom(old(Abs()), overwrite)
      ensures Abs() == if passed then SendFromISR(old(Abs()), overwrite, uxNumberOfTasks) else old(Abs())
      ensures -1 <= cTxLock <= uxNumberOfTasks
    {
      passed := uxMessagesWaiting < uxLength || overwrite;
      if passed {
        var lock := cTxLock;
        CopyDataToQueue(overwrite);
        if lock == queueUNLOCKED {
          if xTasksWaitingToReceive != [] {
            RemoveReceiver();
          }
        } else {
          if lock < uxNumberOfTasks {
            assert lock != queueINT8_MAX;
            cTxLock := lock + 1;
          }
        }
      }
    }

    /** xQueueReceiveFromISR */
    method GenericReceiveFromISR(uxNumberOfTasks: nat) returns (passed: bool)
      requires uxNumberOfTasks <= queueINT8_MAX && -1 <= cRxLock <= uxNumberOfTasks
      modifies this
      ensures passed <==> old(Abs()).messages > 0
      ensures Abs() == if passed then ReceiveFromISR(old(Abs()), uxNumberOfTasks) else old(Abs())
      ensures -1 <= cRxLock <= uxNumberOfTasks
    {
      passed := uxMessagesWaiting > 0;
      if passed {
        var lock := cRxLock;
        uxMessagesWaiting := uxMessagesWaiting - 1;
        if lock == queueUNLOCKED {
          if xTasksWaitingToSend != [] {
            RemoveSender();
          }
        } else {
          if lock < uxNumberOfTasks {
            assert lock != queueINT8_MAX;
            cRxLock := lock + 1;
          }
        }
      }
    }

    /** prvLockQueue */
    method LockQueue()
      modifies this`cRxLock, this`cTxLock
      ensures Abs() == Lock(old(Abs()))
    {
      if cRxLock == queueUNLOCKED {
        cRxLock := queueLOCKED_UNMODIFIED;
      }
      if cTxLock == queueUNLOCKED {
        cTxLock := queueLOCKED_UNMODIFIED;
      }
    }

    /** The first critical section of prvUnlockQueue */
    method UnlockQueueTx()
      modifies this`cTxLock, this`xTasksWaitingToReceive, this`wokenReceivers
      ensures Abs() == UnlockTx(old(Abs()))
    {
      var lock := cTxLock;
      ghost var target := if lock > 0 then WakeReceivers(Abs(), lock) else Abs();
      while lock > queueLOCKED_UNMODIFIED
        invariant cTxLock == old(cTxLock)
        invariant target == if lock > 0 then WakeReceivers(Abs(), lock) else Abs()
      {
        if xTasksWaitingToReceive != [] {
          RemoveReceiver();
        } else {
          NobodyLeft(Abs(), lock);
          break;
        }
        lock := lock - 1;
      }
      cTxLock := queueUNLOCKED;
    }

    /** The second critical section of prvUnlockQueue */
    method UnlockQueueRx()
      modifies this`cRxLock, this`xTasksWaitingToSend, this`wokenSenders
      ensures Abs() == UnlockRx(old(Abs()))
    {
      var lock := cRxLock;
      ghost var target := if lock > 0 then WakeSenders(Abs(), lock) else Abs();
      while lock > queueLOCKED_UNMODIFIED
        invariant cRxLock == old(cRxLock)
        invariant target == if lock > 0 then WakeSenders(Abs(), lock) else Abs()
      {
        if xTasksWaitingToSend != [] {
          RemoveSender();
          lock := lock - 1;
        } else {
          NobodyLeft(Abs(), lock);
          break;
        }
      }
      cRxLock := queueUNLOCKED;
    }
  }
}
