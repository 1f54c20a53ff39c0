/** OS/queue.c: every interleaving of blocking calls, interrupts and timeouts on one queue.

    Each critical section is one step. A task in the section between vTaskSuspendAll and xTaskResumeAll keeps
    the other tasks and the tick's timeouts out, but not interrupts. */
module QueueProtocol {
  import opened SortedLists
  import opened QueueBlocking
  import opened TaskLists

  datatype Op = Receive | Peek | Send | Overwrite

  predicate TakesMessage(op: Op) {
    op.Receive? || op.Peek?
  }

  /** Where a task is. Trying: about to run the critical section of its call, for the first time or
      again (when it is not asleep on a wait list). Refused: found no message or no room, about to
      suspend the scheduler. TimedOut: about to look at the queue once more after a timeout. */
  datatype Pc = Outside | Trying(op: Op) | Refused(op: Op) | Locking(op: Op) | TimedOut(op: Op)

  datatype Next = Sleep | Retry | GiveUp

  /** Where the task that has the scheduler suspended is. */
  datatype Stage = Suspended | Locked | NotTimedOut | AboutToSleep | UnlockTx(next: Next) | UnlockRx(next: Next) | Resume(next: Next)

  datatype Locker = Nobody | Locker(task: nat, stage: Stage)

  datatype System = System(c: Control, pcs: map<nat, Pc>, locker: Locker)

  datatype Event =
    | Create(task: nat)
    | Call(task: nat, op: Op)
    | Try(task: nat, mayBlock: bool)
    | LookAgain(task: nat)
    | Suspend(task: nat)
    | LockQueue
    | CheckTimeOut(expired: bool)
    | TestQueue
    | PlaceOnEventList(priorityValue: nat)
    | Unlock
    | ResumeAll
    | Timeout(task: nat)
    | SendISR(overwrite: bool)
    | ReceiveISR

  ghost predicate Asleep(s: System, task: nat) {
    HasId(s.c.toReceive, task) || HasId(s.c.toSend, task)
  }

  ghost predicate Enabled(s: System, e: Event) {
    match e
    case Create(t) => s.locker.Nobody? && t !in s.pcs
    case Call(t, op) => s.locker.Nobody? && t in s.pcs && s.pcs[t].Outside? && (op.Overwrite? ==> s.c.length == 1)
    case Try(t, _) => s.locker.Nobody? && t in s.pcs && s.pcs[t].Trying? && !Asleep(s, t)
    case LookAgain(t) => s.locker.Nobody? && t in s.pcs && s.pcs[t].TimedOut?
    case Suspend(t) => s.locker.Nobody? && t in s.pcs && s.pcs[t].Refused?
    case LockQueue => s.locker.Locker? && s.locker.stage.Suspended?
    case CheckTimeOut(_) => s.locker.Locker? && s.locker.stage.Locked?
    case TestQueue => s.locker.Locker? && s.locker.stage.NotTimedOut?
    case PlaceOnEventList(_) => s.locker.Locker? && s.locker.stage.AboutToSleep?
    case Unlock => s.locker.Locker? && (s.locker.stage.UnlockTx? || s.locker.stage.UnlockRx?)
    case ResumeAll => s.locker.Locker? && s.locker.stage.Resume?
    case Timeout(t) => s.locker.Nobody? && Asleep(s, t)
    case SendISR(overwrite) => HasRoom(s.c, overwrite) && (overwrite ==> s.c.length == 1)
    case ReceiveISR => s.c.messages > 0
  }

  /** The task runs again: it no longer counts as woken and not yet run. */
  function Rerun(c: Control, task: nat): Control {
    c.(wokenReceivers := c.wokenReceivers - {task}, wokenSenders := c.wokenSenders - {task})
  }

  function TryOnce(s: System, t: nat, op: Op, mayBlock: bool): System {
    var c := Rerun(s.c, t);
    if TakesMessage(op) && c.messages > 0 then
      System(if op.Receive? then ReceiveFromTask(c) else WakeReceiver(c), s.pcs[t := Outside], s.locker)
    else if !TakesMessage(op) && HasRoom(c, op.Overwrite?) then
      System(SendFromTask(c, op.Overwrite?), s.pcs[t := Outside], s.locker)
    else System(c, s.pcs[t := if mayBlock then Refused(op) else Outside], s.locker)
  }

  function At(s: System, stage: Stage): System
    requires s.locker.Locker?
  {
    s.(locker := s.locker.(stage := stage))
  }

  /** prvIsQueueEmpty or prvIsQueueFull */
  predicate NothingForIt(c: Control, op: Op) {
    if TakesMessage(op) then c.messages == 0 else c.messages == c.length
  }

  function Place(c: Control, op: Op, x: Item): Control {
    if TakesMessage(op) then c.(toReceive := Insert(c.toReceive, x)) else c.(toSend := Insert(c.toSend, x))
  }

  function AfterResume(op: Op, next: Next): Pc {
    match next
    case Sleep => Trying(op)
    case Retry => Trying(op)
    case GiveUp => if TakesMessage(op) then TimedOut(op) else Outside
  }

  ghost predicate WellTyped(s: System) {
    s.locker.Locker? ==> s.locker.task in s.pcs && s.pcs[s.locker.task].Locking?
  }

  ghost function Step(s: System, e: Event): System
    requires WellTyped(s) && Enabled(s, e)
  {
    var n := |s.pcs|;
    match e
    case Create(t) => s.(pcs := s.pcs[t := Outside])
    case Call(t, op) => s.(pcs := s.pcs[t := Trying(op)])
    case Try(t, mayBlock) => TryOnce(s, t, s.pcs[t].op, mayBlock)
    case LookAgain(t) => s.(pcs := s.pcs[t := if s.c.messages == 0 then Outside else Trying(s.pcs[t].op)])
    case Suspend(t) => System(s.c, s.pcs[t := Locking(s.pcs[t].op)], Locker(t, Suspended))
    case LockQueue => At(s.(c := Lock(s.c)), Locked)
    case CheckTimeOut(expired) => At(s, if expired then UnlockTx(GiveUp) else NotTimedOut)
    case TestQueue =>
      At(s, if NothingForIt(s.c, s.pcs[s.locker.task].op) then AboutToSleep else UnlockTx(Retry))
    case PlaceOnEventList(v) =>
      At(s.(c := Place(s.c, s.pcs[s.locker.task].op, Item(v, s.locker.task))), UnlockTx(Sleep))
    case Unlock =>
      if s.locker.stage.UnlockTx? then At(s.(c := QueueBlocking.UnlockTx(s.c)), UnlockRx(s.locker.stage.next))
      else At(s.(c := QueueBlocking.UnlockRx(s.c)), Resume(s.locker.stage.next))
    case ResumeAll =>
      System(s.c, s.pcs[s.locker.task := AfterResume(s.pcs[s.locker.task].op, s.locker.stage.next)], Nobody)
    case Timeout(t) => s.(c := s.c.(toReceive := Drop(s.c.toReceive, t), toSend := Drop(s.c.toSend, t)))
    case SendISR(overwrite) => s.(c := SendFromISR(s.c, overwrite, n))
    case ReceiveISR => s.(c := ReceiveFromISR(s.c, n))
  }

  // ---- The invariant ----

  /** Task t went to sleep for op and has not tried again. */
  ghost predicate WentToSleep(s: System, t: nat, takesMessage: bool) {
    && t in s.pcs
    && match s.pcs[t]
       case Trying(op) => TakesMessage(op) == takesMessage
       case Locking(op) =>
         && TakesMessage(op) == takesMessage && s.locker.Locker? && s.locker.task == t
         && (match s.locker.stage
             case UnlockTx(next) => next.Sleep?
             case UnlockRx(next) => next.Sleep?
             case Resume(next) => next.Sleep?
             case _ => false)
       case _ => false
  }

  ghost predicate Side(s: System, list: seq<Item>, woken: set<nat>, takesMessage: bool) {
    && Unique(list)
    && (forall t :: t in woken || HasId(list, t) ==> WentToSleep(s, t, takesMessage))
    && (forall t :: t in woken ==> !HasId(list, t))
  }

  ghost predicate TxLocked(s: System) {
    s.locker.Locker? && (s.locker.stage.Locked? || s.locker.stage.NotTimedOut? || s.locker.stage.AboutToSleep? || s.locker.stage.UnlockTx?)
  }

  ghost predicate RxLocked(s: System) {
    TxLocked(s) || (s.locker.Locker? && s.locker.stage.UnlockRx?)
  }

  ghost predicate Structure(s: System) {
    && WellTyped(s)
    && (forall t :: t in s.pcs && s.pcs[t].Locking? ==> s.locker.Locker? && s.locker.task == t)
    && s.c.messages <= s.c.length && 0 < s.c.length
    && (forall t :: t in s.pcs && !s.pcs[t].Outside? && s.pcs[t].op.Overwrite? ==> s.c.length == 1)
    && Side(s, s.c.toReceive, s.c.wokenReceivers, true)
    && Side(s, s.c.toSend, s.c.wokenSenders, false)
    && (if TxLocked(s) then 0 <= s.c.cTxLock <= |s.pcs| else s.c.cTxLock == queueUNLOCKED)
    && (if RxLocked(s) then 0 <= s.c.cRxLock <= |s.pcs| else s.c.cRxLock == queueUNLOCKED)
  }

  /** available units are spoken for: by tasks already woken, by the wake-ups the lock counter still owes,
      or because the capped counter owes a wake-up to everyone. */
  ghost predicate Covered(available: int, woken: set<nat>, lock: int, tasks: nat) {
    available <= |woken| + (if lock < 0 then 0 else lock) || lock >= tasks
  }

  /** No wake-up is lost: whoever sleeps on the queue does so while every message, or every free slot,
      is spoken for. */
  ghost predicate NoLostWakeUp(s: System)
    requires WellTyped(s)
  {
    && (s.c.toReceive != [] || (s.locker.Locker? && s.locker.stage.AboutToSleep? && TakesMessage(s.pcs[s.locker.task].op)) ==>
          Covered(s.c.messages, s.c.wokenReceivers, s.c.cTxLock, |s.pcs|))
    && (s.c.toSend != [] || (s.locker.Locker? && s.locker.stage.AboutToSleep? && !TakesMessage(s.pcs[s.locker.task].op)) ==>
          Covered(s.c.length - s.c.messages, s.c.wokenSenders, s.c.cRxLock, |s.pcs|))
  }

  ghost predicate Inv(s: System) {
    Structure(s) && NoLostWakeUp(s)
  }

  ghost predicate Init(s: System) {
    && s.c == Control(s.c.length, 0, queueUNLOCKED, queueUNLOCKED, [], [], {}, {}) && 0 < s.c.length
    && s.locker == Nobody && forall t :: t in s.pcs ==> s.pcs[t] == Outside
  }

  // ---- Waking ----

  /** What woken tasks and sleepers know of the system is only where tasks are. */
  lemma {:induction false} SideMoves(s: System, s': System, list: seq<Item>, woken: set<nat>, takesMessage: bool)
    requires Side(s, list, woken, takesMessage)
    requires forall t :: (t in woken || HasId(list, t)) && WentToSleep(s, t, takesMessage) ==> WentToSleep(s', t, takesMessage)
    ensures Side(s', list, woken, takesMessage)
  {
  }

  /** A task that is neither woken nor asleep can move freely. */
  lemma {:induction false} SideFreeMove(s: System, s': System, list: seq<Item>, woken: set<nat>, takesMessage: bool, t: nat)
    requires Side(s, list, woken, takesMessage) && t !in woken && !HasId(list, t)
    requires s'.locker == s.locker && t in s'.pcs && s'.pcs == s.pcs[t := s'.pcs[t]]
    ensures Side(s', list, woken, takesMessage)
  {
  }

  lemma {:induction false} SideWakes(s: System, list: seq<Item>, woken: set<nat>, takesMessage: bool)
    requires Side(s, list, woken, takesMessage) && list != []
    ensures Side(s, list[1..], woken + {list[0].id}, takesMessage)
    ensures |woken + {list[0].id}| == |woken| + 1
  {
    assert list[0] in list;
    assert forall x :: x in list[1..] ==> x in list;
  }

  lemma {:induction false} SideReruns(s: System, list: seq<Item>, woken: set<nat>, takesMessage: bool, t: nat)
    requires Side(s, list, woken, takesMessage)
    ensures Side(s, list, woken - {t}, takesMessage)
    ensures |woken - {t}| == |woken| - if t in woken then 1 else 0
  {
  }

  lemma {:induction false} SideDrops(s: System, list: seq<Item>, woken: set<nat>, takesMessage: bool, t: nat)
    requires Side(s, list, woken, takesMessage)
    ensures Side(s, Drop(list, t), woken, takesMessage)
    ensures Drop(list, t) != [] ==> list != []
  {
    UniqueDrop(list, t);
    forall x | x in Drop(list, t) ensures x in list {
      DropMembers(list, t, x);
    }
  }

  lemma {:induction false} SideInserts(s: System, list: seq<Item>, woken: set<nat>, takesMessage: bool, x: Item)
    requires Side(s, list, woken, takesMessage)
    requires !HasId(list, x.id) && x.id !in woken && WentToSleep(s, x.id, takesMessage)
    ensures Side(s, Insert(list, x), woken, takesMessage)
  {
    UniqueInsert(list, x);
    forall y ensures y in Insert(list, x) <==> y in list || y == x {
      InsertMembers(list, x, y);
    }
  }

  /** Fewer tasks sleep than there are. */
  lemma {:induction false} FewSleepers(s: System, list: seq<Item>, woken: set<nat>, takesMessage: bool)
    requires Side(s, list, woken, takesMessage)
    ensures |list| <= |s.pcs|
  {
    UniqueSize(list);
    forall t | t in IdSet(list) ensures t in s.pcs.Keys {
      assert HasId(list, t);
    }
    SubsetSize(IdSet(list), s.pcs.Keys);
  }

  /** k wake-ups take k tasks off the list, or all of them. */
  lemma {:induction false} ReceiversWoken(s: System, c: Control, k: nat)
    requires Side(s, c.toReceive, c.wokenReceivers, true)
    ensures var d := WakeReceivers(c, k);
      && Side(s, d.toReceive, d.wokenReceivers, true)
      && d == c.(toReceive := d.toReceive, wokenReceivers := d.wokenReceivers)
      && (d.toReceive != [] ==> |d.wokenReceivers| == |c.wokenReceivers| + k && k < |c.toReceive|)
    decreases k
  {
    if k != 0 {
      if c.toReceive != [] {
        SideWakes(s, c.toReceive, c.wokenReceivers, true);
      }
      ReceiversWoken(s, WakeReceiver(c), k - 1);
    }
  }

  lemma {:induction false} SendersWoken(s: System, c: Control, k: nat)
    requires Side(s, c.toSend, c.wokenSenders, false)
    ensures var d := WakeSenders(c, k);
      && Side(s, d.toSend, d.wokenSenders, false)
      && d == c.(toSend := d.toSend, wokenSenders := d.wokenSenders)
      && (d.toSend != [] ==> |d.wokenSenders| == |c.wokenSenders| + k && k < |c.toSend|)
    decreases k
  {
    if k != 0 {
      if c.toSend != [] {
        SideWakes(s, c.toSend, c.wokenSenders, false);
      }
      SendersWoken(s, WakeSender(c), k - 1);
    }
  }

  // ---- Every step keeps the invariant ----

  lemma {:induction false} CallKeepsInv(s: System, e: Event)
    requires Inv(s) && Enabled(s, e) && (e.Create? || e.Call? || e.LookAgain? || e.Suspend?)
    ensures Inv(Step(s, e))
  {
    var r := Step(s, e);
    SideMoves(s, r, s.c.toReceive, s.c.wokenReceivers, true);
    SideMoves(s, r, s.c.toSend, s.c.wokenSenders, false);
  }

  /** Between rerunning a task and what the task then does to the queue: each side may be one wake-up short. */
  ghost predicate Reran(m: System, receivers: nat, senders: nat) {
    && Structure(m) && m.locker.Nobody?
    && (m.c.toReceive != [] ==> m.c.messages <= |m.c.wokenReceivers| + receivers)
    && (m.c.toSend != [] ==> m.c.length - m.c.messages <= |m.c.wokenSenders| + senders)
  }

  lemma {:induction false} RerunSides(s: System, t: nat, pc: Pc)
    requires Structure(s) && s.locker.Nobody? && t in s.pcs && !Asleep(s, t)
    ensures var m := System(Rerun(s.c, t), s.pcs[t := pc], Nobody);
      && Side(m, m.c.toReceive, m.c.wokenReceivers, true)
      && Side(m, m.c.toSend, m.c.wokenSenders, false)
  {
    var m := System(Rerun(s.c, t), s.pcs[t := pc], Nobody);
    SideReruns(s, s.c.toReceive, s.c.wokenReceivers, true, t);
    SideReruns(s, s.c.toSend, s.c.wokenSenders, false, t);
    SideFreeMove(s, m, m.c.toReceive, m.c.wokenReceivers, true, t);
    SideFreeMove(s, m, m.c.toSend, m.c.wokenSenders, false, t);
  }

  lemma {:induction false} RerunStructure(s: System, t: nat, pc: Pc)
    requires Structure(s) && s.locker.Nobody? && t in s.pcs && s.pcs[t].Trying? && !Asleep(s, t)
    requires pc.Outside? || pc == Refused(s.pcs[t].op)
    ensures Structure(System(Rerun(s.c, t), s.pcs[t := pc], Nobody))
  {
    RerunSides(s, t, pc);
  }

  /** A task that runs again uses up its own wake-up, on its own side only. */
  lemma {:induction false} Reruns(s: System, t: nat, pc: Pc)
    requires Inv(s) && s.locker.Nobody? && t in s.pcs && s.pcs[t].Trying? && !Asleep(s, t)
    requires pc.Outside? || pc == Refused(s.pcs[t].op)
    ensures var takes := TakesMessage(s.pcs[t].op);
      Reran(System(Rerun(s.c, t), s.pcs[t := pc], Nobody), if takes then 1 else 0, if takes then 0 else 1)
  {
    RerunStructure(s, t, pc);
    SideReruns(s, s.c.toReceive, s.c.wokenReceivers, true, t);
    SideReruns(s, s.c.toSend, s.c.wokenSenders, false, t);
    assert t in s.c.wokenReceivers ==> WentToSleep(s, t, true);
    assert t in s.c.wokenSenders ==> WentToSleep(s, t, false);
  }

  lemma {:induction false} Received(m: System)
    requires Reran(m, 1, 0) && m.c.messages > 0
    ensures Inv(m.(c := ReceiveFromTask(m.c)))
  {
    if m.c.toSend != [] {
      SideWakes(m, m.c.toSend, m.c.wokenSenders, false);
    }
    var r := m.(c := ReceiveFromTask(m.c));
    SideMoves(m, r, r.c.toReceive, r.c.wokenReceivers, true);
    SideMoves(m, r, r.c.toSend, r.c.wokenSenders, false);
  }

  lemma {:induction false} Peeked(m: System)
    requires Reran(m, 1, 0)
    ensures Inv(m.(c := WakeReceiver(m.c)))
  {
    if m.c.toReceive != [] {
      SideWakes(m, m.c.toReceive, m.c.wokenReceivers, true);
    }
    var r := m.(c := WakeReceiver(m.c));
    SideMoves(m, r, r.c.toReceive, r.c.wokenReceivers, true);
    SideMoves(m, r, r.c.toSend, r.c.wokenSenders, false);
  }

  lemma {:induction false} Sent(m: System, overwrite: bool)
    requires Reran(m, 0, 1) && HasRoom(m.c, overwrite) && (overwrite ==> m.c.length == 1)
    ensures Inv(m.(c := SendFromTask(m.c, overwrite)))
  {
    if m.c.toReceive != [] {
      SideWakes(m, m.c.toReceive, m.c.wokenReceivers, true);
    }
    var r := m.(c := SendFromTask(m.c, overwrite));
    SideMoves(m, r, r.c.toReceive, r.c.wokenReceivers, true);
    SideMoves(m, r, r.c.toSend, r.c.wokenSenders, false);
  }

  lemma {:induction false} TryKeepsInv(s: System, t: nat, mayBlock: bool)
    requires Inv(s) && Enabled(s, Try(t, mayBlock))
    ensures Inv(Step(s, Try(t, mayBlock)))
  {
    var op, c := s.pcs[t].op, Rerun(s.c, t);
    var out := System(c, s.pcs[t := Outside], s.locker);
    Reruns(s, t, Outside);
    if TakesMessage(op) && c.messages > 0 {
      if op.Receive? {
        Received(out);
      } else {
        Peeked(out);
      }
    } else if !TakesMessage(op) && HasRoom(c, op.Overwrite?) {
      Sent(out, op.Overwrite?);
    } else if mayBlock {
      Reruns(s, t, Refused(op));
    }
  }

  lemma {:induction false} LockingKeepsInv(s: System, e: Event)
    requires Inv(s) && Enabled(s, e) && (e.LockQueue? || e.CheckTimeOut? || e.TestQueue?)
    ensures Inv(Step(s, e))
  {
    var r := Step(s, e);
    SideMoves(s, r, s.c.toReceive, s.c.wokenReceivers, true);
    SideMoves(s, r, s.c.toSend, s.c.wokenSenders, false);
  }

  lemma {:induction false} PlaceKeepsInv(s: System, v: nat)
    requires Inv(s) && Enabled(s, PlaceOnEventList(v))
    ensures Inv(Step(s, PlaceOnEventList(v)))
  {
    var r, t := Step(s, PlaceOnEventList(v)), s.locker.task;
    assert !WentToSleep(s, t, true) && !WentToSleep(s, t, false);
    SideMoves(s, r, s.c.toReceive, s.c.wokenReceivers, true);
    SideMoves(s, r, s.c.toSend, s.c.wokenSenders, false);
    if TakesMessage(s.pcs[t].op) {
      SideInserts(r, s.c.toReceive, s.c.wokenReceivers, true, Item(v, t));
    } else {
      SideInserts(r, s.c.toSend, s.c.wokenSenders, false, Item(v, t));
    }
  }

  lemma {:induction false} UnlockKeepsInv(s: System)
    requires Inv(s) && Enabled(s, Unlock)
    ensures Inv(Step(s, Unlock))
  {
    var r := Step(s, Unlock);
    FewSleepers(s, s.c.toReceive, s.c.wokenReceivers, true);
    FewSleepers(s, s.c.toSend, s.c.wokenSenders, false);
    if s.locker.stage.UnlockTx? {
      ReceiversWoken(s, s.c, s.c.cTxLock);
    } else {
      SendersWoken(s, s.c, s.c.cRxLock);
    }
    SideMoves(s, r, r.c.toReceive, r.c.wokenReceivers, true);
    SideMoves(s, r, r.c.toSend, r.c.wokenSenders, false);
  }

  lemma {:induction false} ResumeKeepsInv(s: System)
    requires Inv(s) && Enabled(s, ResumeAll)
    ensures Inv(Step(s, ResumeAll))
  {
    var r := Step(s, ResumeAll);
    SideMoves(s, r, r.c.toReceive, r.c.wokenReceivers, true);
    SideMoves(s, r, r.c.toSend, r.c.wokenSenders, false);
  }

  lemma {:induction false} TimeoutKeepsInv(s: System, t: nat)
    requires Inv(s) && Enabled(s, Timeout(t))
    ensures Inv(Step(s, Timeout(t)))
  {
    var r := Step(s, Timeout(t));
    SideDrops(s, s.c.toReceive, s.c.wokenReceivers, true, t);
    SideDrops(s, s.c.toSend, s.c.wokenSenders, false, t);
    SideMoves(s, r, r.c.toReceive, r.c.wokenReceivers, true);
    SideMoves(s, r, r.c.toSend, r.c.wokenSenders, false);
  }

  lemma {:induction false} SendISRKeepsInv(s: System, overwrite: bool)
    requires Inv(s) && Enabled(s, SendISR(overwrite))
    ensures Inv(Step(s, SendISR(overwrite)))
  {
    if s.c.cTxLock == queueUNLOCKED {
      SendISRUnlocked(s, overwrite);
    } else {
      var r := Step(s, SendISR(overwrite));
      SideMoves(s, r, r.c.toReceive, r.c.wokenReceivers, true);
      SideMoves(s, r, r.c.toSend, r.c.wokenSenders, false);
    }
  }

  lemma {:induction false} SendISRUnlocked(s: System, overwrite: bool)
    requires Inv(s) && Enabled(s, SendISR(overwrite)) && s.c.cTxLock == queueUNLOCKED
    ensures Inv(Step(s, SendISR(overwrite)))
  {
    var r := Step(s, SendISR(overwrite));
    if s.c.toReceive != [] {
      SideWakes(s, s.c.toReceive, s.c.wokenReceivers, true);
    }
    SideMoves(s, r, r.c.toReceive, r.c.wokenReceivers, true);
    SideMoves(s, r, r.c.toSend, r.c.wokenSenders, false);
  }

  lemma {:induction false} ReceiveISRKeepsInv(s: System)
    requires Inv(s) && Enabled(s, ReceiveISR)
    ensures Inv(Step(s, ReceiveISR))
  {
    var r := Step(s, ReceiveISR);
    if s.c.toSend != [] {
      SideWakes(s, s.c.toSend, s.c.wokenSenders, false);
    }
    SideMoves(s, r, r.c.toReceive, r.c.wokenReceivers, true);
    SideMoves(s, r, r.c.toSend, r.c.wokenSenders, false);
  }

  lemma {:induction false} StepKeepsInv(s: System, e: Event)
    requires Inv(s) && Enabled(s, e)
    ensures Inv(Step(s, e))
  {
    match e
    case Create(_) => CallKeepsInv(s, e);
    case Call(_, _) => CallKeepsInv(s, e);
    case LookAgain(_) => CallKeepsInv(s, e);
    case Suspend(_) => CallKeepsInv(s, e);
    case Try(t, mayBlock) => TryKeepsInv(s, t, mayBlock);
    case LockQueue => LockingKeepsInv(s, e);
    case CheckTimeOut(_) => LockingKeepsInv(s, e);
    case TestQueue => LockingKeepsInv(s, e);
    case PlaceOnEventList(v) => PlaceKeepsInv(s, v);
    case Unlock => UnlockKeepsInv(s);
    case ResumeAll => ResumeKeepsInv(s);
    case Timeout(t) => TimeoutKeepsInv(s, t);
    case SendISR(overwrite) => SendISRKeepsInv(s, overwrite);
    case ReceiveISR => ReceiveISRKeepsInv(s);
  }

  // ---- Runs ----

  ghost predicate IsRun(s: System, es: seq<Event>)
    decreases |es|
  {
    WellTyped(s) && (es != [] ==> Enabled(s, es[0]) && IsRun(Step(s, es[0]), es[1..]))
  }

  ghost function Run(s: System, es: seq<Event>): System
    requires IsRun(s, es)
    decreases |es|
  {
    if es == [] then s else Run(Step(s, es[0]), es[1..])
  }

  lemma {:induction false} RunKeepsInv(s: System, es: seq<Event>)
    requires Inv(s) && IsRun(s, es)
    ensures Inv(Run(s, es))
    decreases |es|
  {
    if es != [] {
      StepKeepsInv(s, es[0]);
      RunKeepsInv(Step(s, es[0]), es[1..]);
    }
  }

  /** Over every run: while the receive side is unlocked, tasks wait for messages only if every message there
      is has a woken task still to take it; likewise senders and free slots. So once the woken tasks have
      run, waiting receivers mean an empty queue and waiting senders a full one. */
  lemma {:induction false} NoWakeUpIsEverLost(s: System, es: seq<Event>)
    requires Init(s) && IsRun(s, es)
    ensures var c := Run(s, es).c;
      && (c.cTxLock == queueUNLOCKED && c.toReceive != [] ==> c.messages <= |c.wokenReceivers|)
      && (c.cRxLock == queueUNLOCKED && c.toSend != [] ==> c.length - c.messages <= |c.wokenSenders|)
      && c.messages <= c.length
  {
    RunKeepsInv(s, es);
  }

  /** Over every run the lock counters never pass the number of tasks, and so stay within int8_t for up to
      127 of them: the assertion in prvIncrementQueueTxLock and prvIncrementQueueRxLock never fails. */
  lemma {:induction false} LockCountersFit(s: System, es: seq<Event>)
    requires Init(s) && IsRun(s, es)
    ensures var r := Run(s, es);
      && -1 <= r.c.cTxLock <= |r.pcs| && -1 <= r.c.cRxLock <= |r.pcs|
      && (|r.pcs| <= queueINT8_MAX && r.c.cTxLock < |r.pcs| ==> r.c.cTxLock != queueINT8_MAX)
      && (|r.pcs| <= queueINT8_MAX && r.c.cRxLock < |r.pcs| ==> r.c.cRxLock != queueINT8_MAX)
  {
    RunKeepsInv(s, es);
  }

  /** A task woken for the queue is really awake: it is on no wait list, and unless it is still on its way out
      of the section that put it to sleep it is about to try again. */
  lemma {:induction false} WokenTasksCanRun(s: System, es: seq<Event>, t: nat)
    requires Init(s) && IsRun(s, es)
    ensures var r := Run(s, es);
      t in r.c.wokenReceivers + r.c.wokenSenders ==>
        !Asleep(r, t) && t in r.pcs && (r.pcs[t].Trying? || (r.locker.Locker? && r.locker.task == t))
  {
    RunKeepsInv(s, es);
    var r := Run(s, es);
    if t in r.c.wokenReceivers {
      assert WentToSleep(r, t, true);
    } else if t in r.c.wokenSenders {
      assert WentToSleep(r, t, false);
    }
  }

  /** xQueueGenericReset on an existing queue, from a task */
  function Reset(c: Control): Control {
    WakeSender(c.(messages := 0, cRxLock := queueUNLOCKED, cTxLock := queueUNLOCKED))
  }

  /** Emptying the queue wakes a single sender. Every free slot is still spoken for exactly if at most one
      sender was waiting, or there are no more slots than woken senders counting that one. */
  lemma {:induction false} ResetWakesEnoughIff(s: System)
    requires Inv(s) && s.locker.Nobody?
    ensures NoLostWakeUp(s.(c := Reset(s.c))) <==>
      |s.c.toSend| <= 1 || s.c.length <= |s.c.wokenSenders| + 1
  {
    if s.c.toSend != [] {
      SideWakes(s, s.c.toSend, s.c.wokenSenders, false);
    }
  }

  lemma {:induction false} RunAppend(s: System, es: seq<Event>, fs: seq<Event>)
    requires IsRun(s, es) && IsRun(Run(s, es), fs)
    ensures IsRun(s, es + fs) && Run(s, es + fs) == Run(Run(s, es), fs)
    decreases |es|
  {
    if es == [] {
      assert es + fs == fs;
    } else {
      assert (es + fs)[0] == es[0] && (es + fs)[1..] == es[1..] + fs;
      RunAppend(Step(s, es[0]), es[1..], fs);
    }
  }

  lemma {:induction false} RunOne(s: System, e: Event)
    requires WellTyped(s) && Enabled(s, e) && WellTyped(Step(s, e))
    ensures IsRun(s, [e]) && Run(s, [e]) == Step(s, e)
  {
    assert [e][1..] == [];
  }

  /** Nobody has the queue locked or is woken for it, and there is nothing in it for op. */
  ghost predicate Unlocked(s: System, op: Op) {
    && s.locker.Nobody? && s.c.cTxLock == queueUNLOCKED && s.c.cRxLock == queueUNLOCKED
    && s.c.wokenReceivers == {} && s.c.wokenSenders == {} && !op.Overwrite?
    && if TakesMessage(op) then s.c.messages == 0 && s.c.toSend == [] else s.c.messages == s.c.length && s.c.toReceive == []
  }

  /** How a task falls asleep: refused, scheduler suspended, queue locked, not timed out, still nothing for it. */
  lemma {:induction false} CallRefused(s: System, t: nat, op: Op) returns (es: seq<Event>)
    requires Unlocked(s, op) && t in s.pcs && s.pcs[t].Outside? && !Asleep(s, t)
    ensures IsRun(s, es)
    ensures Run(s, es) == System(s.c, s.pcs[t := Locking(op)], Locker(t, Suspended))
  {
    var s1 := Step(s, Call(t, op));
    RunOne(s, Call(t, op));
    assert s1.pcs[t] == Trying(op) && !Asleep(s1, t);
    var s2 := Step(s1, Try(t, true));
    assert s2.c == s.c;
    RunOne(s1, Try(t, true));
    RunOne(s2, Event.Suspend(t));
    assert s.pcs[t := Trying(op)][t := Refused(op)][t := Locking(op)] == s.pcs[t := Locking(op)];
    RunAppend(s, [Call(t, op)], [Try(t, true)]);
    es := [Call(t, op)] + [Try(t, true)];
    RunAppend(s, es, [Event.Suspend(t)]);
    es := es + [Event.Suspend(t)];
  }

  lemma {:induction false} CallPlaced(s: System, t: nat, op: Op) returns (es: seq<Event>)
    requires Unlocked(s.(locker := Nobody), op) && s.locker == Locker(t, Suspended) && t in s.pcs && s.pcs[t] == Locking(op)
    ensures IsRun(s, es)
    ensures Run(s, es) == System(Place(s.c, op, Item(0, t)).(cTxLock := 0, cRxLock := 0), s.pcs, Locker(t, UnlockTx(Sleep)))
  {
    var s1 := Step(s, LockQueue);
    RunOne(s, LockQueue);
    var s2 := Step(s1, CheckTimeOut(false));
    RunOne(s1, CheckTimeOut(false));
    var s3 := Step(s2, TestQueue);
    RunOne(s2, TestQueue);
    RunOne(s3, PlaceOnEventList(0));
    RunAppend(s, [LockQueue], [CheckTimeOut(false)]);
    es := [LockQueue] + [CheckTimeOut(false)];
    RunAppend(s, es, [TestQueue]);
    es := es + [TestQueue];
    RunAppend(s, es, [PlaceOnEventList(0)]);
    es := es + [PlaceOnEventList(0)];
  }

  lemma {:induction false} CallUnlocks(s: System, t: nat, op: Op) returns (es: seq<Event>)
    requires s.locker == Locker(t, UnlockTx(Sleep)) && t in s.pcs && s.pcs[t] == Locking(op)
    requires s.c.cTxLock == 0 && s.c.cRxLock == 0
    ensures IsRun(s, es)
    ensures Run(s, es) == System(s.c.(cTxLock := queueUNLOCKED, cRxLock := queueUNLOCKED), s.pcs[t := Trying(op)], Nobody)
  {
    var s1 := Step(s, Unlock);
    RunOne(s, Unlock);
    var s2 := Step(s1, Unlock);
    RunOne(s1, Unlock);
    RunOne(s2, ResumeAll);
    RunAppend(s, [Unlock], [Unlock]);
    es := [Unlock] + [Unlock];
    RunAppend(s, es, [ResumeAll]);
    es := es + [ResumeAll];
  }

  lemma {:induction false} CallSleeps(s: System, t: nat, op: Op) returns (es: seq<Event>)
    requires Unlocked(s, op) && t in s.pcs && s.pcs[t].Outside? && !Asleep(s, t)
    ensures IsRun(s, es)
    ensures Run(s, es) == System(Place(s.c, op, Item(0, t)), s.pcs[t := Trying(op)], Nobody)
  {
    es := CallRefused(s, t, op);
    var s1 := Run(s, es);
    var fs := CallPlaced(s1, t, op);
    RunAppend(s, es, fs);
    var s2 := Run(s1, fs);
    var gs := CallUnlocks(s2, t, op);
    RunAppend(s, es + fs, gs);
    es := es + fs + gs;
    assert s.pcs[t := Locking(op)][t := Trying(op)] == s.pcs[t := Trying(op)];
  }

  const TWO_TASKS := map[1 := Outside, 2 := Outside]
  const EMPTY_PAIR := System(Control(2, 0, queueUNLOCKED, queueUNLOCKED, [], [], {}, {}), TWO_TASKS, Nobody)
  const FULL_PAIR := System(Control(2, 2, queueUNLOCKED, queueUNLOCKED, [], [], {}, {}), TWO_TASKS, Nobody)

  lemma {:induction false} QueueFills() returns (es: seq<Event>)
    ensures IsRun(EMPTY_PAIR, es) && Run(EMPTY_PAIR, es) == FULL_PAIR
  {
    var s := Step(EMPTY_PAIR, SendISR(false));
    RunOne(EMPTY_PAIR, SendISR(false));
    RunOne(s, SendISR(false));
    RunAppend(EMPTY_PAIR, [SendISR(false)], [SendISR(false)]);
    es := [SendISR(false)] + [SendISR(false)];
  }

  lemma {:induction false} BothSendersSleep() returns (es: seq<Event>)
    ensures IsRun(FULL_PAIR, es)
    ensures Run(FULL_PAIR, es).locker.Nobody? && Run(FULL_PAIR, es).c.length == 2
    ensures |Run(FULL_PAIR, es).c.toSend| == 2 && Run(FULL_PAIR, es).c.wokenSenders == {}
  {
    es := CallSleeps(FULL_PAIR, 1, Send);
    var s := Run(FULL_PAIR, es);
    assert s.c.toSend == [Item(0, 1)];
    var fs := CallSleeps(s, 2, Send);
    RunAppend(FULL_PAIR, es, fs);
    es := es + fs;
    InsertSize([Item(0, 1)], Item(0, 2));
  }

  lemma {:induction false} InsertSize(s: seq<Item>, x: Item)
    ensures |Insert(s, x)| == |s| + 1
  {
    if s != [] {
      InsertSize(s[1..], x);
    }
  }

  /** A run in which the single wake-up is too few: with a queue of length two full, two senders go to sleep; a reset
      then frees two slots and wakes one of them, and the other sleeps on beside a free slot. */
  lemma {:induction false} ResetLosesWakeUp() returns (es: seq<Event>)
    ensures Init(EMPTY_PAIR) && IsRun(EMPTY_PAIR, es)
    ensures var r := Run(EMPTY_PAIR, es);
      r.locker.Nobody? && |r.c.toSend| == 2 && WellTyped(r) && !NoLostWakeUp(r.(c := Reset(r.c)))
  {
    es := QueueFills();
    var fs := BothSendersSleep();
    RunAppend(EMPTY_PAIR, es, fs);
    es := es + fs;
    RunKeepsInv(EMPTY_PAIR, es);
    ResetWakesEnoughIff(Run(EMPTY_PAIR, es));
  }
}
