/** OS/tasks.c: direct-to-task notifications, one index of the notification array.

    The critical sections of a task's call are methods of the class NotifiedTask, each proved to be one of the functions
    on Task; tasks, interrupts and timeouts interleave those functions. */
module Notifications {
  import opened TaskLists

  const VALUES: nat := 0x1_0000_0000

  type word = x: nat | x < VALUES

  datatype NotifyState = NotWaiting | Waiting | Received

  datatype Action = SetBits(bits: word) | Increment | SetValueWithOverwrite(value: word) | SetValueWithoutOverwrite(value: word) | NoAction

  /** The call a task makes: ulTaskGenericNotifyTake or xTaskGenericNotifyWait */
  datatype Call = Take(clearOnExit: bool) | Wait(bitsOnEntry: word, bitsOnExit: word)

  /** Where a task is. Entered: scheduler suspended. Checked: past the first critical section. Placed: on the delayed or
      suspended list. Leaving: past xTaskResumeAll; whether it is asleep then is in the field ready. */
  datatype Pc =
    | Outside
    | Entered(call: Call, mayBlock: bool)
    | Checked(call: Call, block: bool)
    | Placed(call: Call)
    | Leaving(call: Call)

  /** The last three fields are ghosts of the source: gives, takes that found the value non-zero, and wrap-arounds. */
  datatype Task = Task(value: word, state: NotifyState, pc: Pc, ready: bool, gives: nat, takes: nat, wraps: nat)

  // ---- One task ----

  /** Bit by bit, a or b, or a and not b */
  function Bits(a: nat, b: nat, clear: bool, k: nat): nat
    decreases k
  {
    if k == 0 then 0
    else
      var x, y := a % 2 == 1, b % 2 == 1;
      (if (if clear then x && !y else x || y) then 1 else 0) + 2 * Bits(a / 2, b / 2, clear, k - 1)
  }

  function Pow2(k: nat): nat {
    if k == 0 then 1 else 2 * Pow2(k - 1)
  }

  lemma {:induction false} Pow2Adds(j: nat, k: nat)
    requires Pow2(k) == 256
    ensures Pow2(j + k) == 256 * Pow2(j)
    decreases j
  {
    if j > 0 {
      Pow2Adds(j - 1, k);
    }
  }

  lemma {:induction false} WordsFit()
    ensures Pow2(32) == VALUES
  {
    assert Pow2(8) == 256;
    Pow2Adds(8, 8);
    Pow2Adds(16, 8);
    Pow2Adds(24, 8);
  }

  lemma {:induction false} BitsFit(a: nat, b: nat, clear: bool, k: nat)
    ensures Bits(a, b, clear, k) < Pow2(k)
    decreases k
  {
    if k > 0 {
      BitsFit(a / 2, b / 2, clear, k - 1);
    }
  }

  function BitOr(a: word, b: word): word {
    BitsFit(a, b, false, 32);
    WordsFit();
    Bits(a, b, false, 32)
  }

  function BitClear(a: word, b: word): word {
    BitsFit(a, b, true, 32);
    WordsFit();
    Bits(a, b, true, 32)
  }

  /** Bit i of a word */
  predicate Bit(a: nat, i: nat)
    decreases i
  {
    if i == 0 then a % 2 == 1 else Bit(a / 2, i - 1)
  }

  lemma {:induction false} BitsExact(a: nat, b: nat, clear: bool, k: nat, i: nat)
    requires i < k
    ensures Bit(Bits(a, b, clear, k), i) <==> if clear then Bit(a, i) && !Bit(b, i) else Bit(a, i) || Bit(b, i)
    decreases k
  {
    var rest := Bits(a / 2, b / 2, clear, k - 1);
    assert Bits(a, b, clear, k) / 2 == rest;
    if i != 0 {
      BitsExact(a / 2, b / 2, clear, k - 1, i - 1);
    }
  }

  /** Setting bits sets exactly those asked for and keeps the others; clearing bits clears exactly those. */
  lemma {:induction false} WordsBitByBit(a: word, b: word, i: nat)
    requires i < 32
    ensures Bit(BitOr(a, b), i) <==> Bit(a, i) || Bit(b, i)
    ensures Bit(BitClear(a, b), i) <==> Bit(a, i) && !Bit(b, i)
  {
    BitsExact(a, b, false, 32, i);
    BitsExact(a, b, true, 32, i);
  }

  /** A word is what its bits are. */
  lemma {:induction false} WordIsItsBits(a: nat, b: nat, k: nat)
    requires a < Pow2(k) && b < Pow2(k) && forall i: nat :: i < k ==> (Bit(a, i) <==> Bit(b, i))
    ensures a == b
    decreases k
  {
    if k != 0 {
      assert Bit(a, 0) <==> Bit(b, 0);
      forall i: nat | i < k - 1 ensures Bit(a / 2, i) <==> Bit(b / 2, i) {
        assert Bit(a, i + 1) <==> Bit(b, i + 1);
      }
      WordIsItsBits(a / 2, b / 2, k - 1);
    }
  }

  function Give(x: Task): Task {
    if x.value + 1 == VALUES then x.(value := 0, state := Received, gives := x.gives + 1, wraps := x.wraps + 1)
    else x.(value := x.value + 1, state := Received, gives := x.gives + 1)
  }

  function Notify(x: Task, action: Action): Task {
    match action
    case SetBits(bits) => x.(value := BitOr(x.value, bits), state := Received)
    case Increment => Give(x)
    case SetValueWithOverwrite(value) => x.(value := value, state := Received)
    case SetValueWithoutOverwrite(value) => if x.state.Received? then x else x.(value := value, state := Received)
    case NoAction => x.(state := Received)
  }

  /** The first critical section: only a task with nothing to receive is marked as waiting. */
  function Check(x: Task): Task
    requires x.pc.Entered?
  {
    match x.pc.call
    case Take(_) =>
      if x.value == 0 then x.(state := Waiting, pc := Checked(x.pc.call, x.pc.mayBlock)) else x.(pc := Checked(x.pc.call, false))
    case Wait(bitsOnEntry, _) =>
      if !x.state.Received? then
        x.(value := BitClear(x.value, bitsOnEntry), state := Waiting, pc := Checked(x.pc.call, x.pc.mayBlock))
      else x.(pc := Checked(x.pc.call, false))
  }

  /** The last critical section */
  function Finish(x: Task): Task
    requires x.pc.Leaving?
  {
    match x.pc.call
    case Take(clearOnExit) =>
      if x.value == 0 then x.(state := NotWaiting, pc := Outside)
      else
        x.(value := if clearOnExit then 0 else x.value - 1, state := NotWaiting, pc := Outside, takes := x.takes + 1)
    case Wait(_, bitsOnExit) =>
      x.(value := if x.state.Received? then BitClear(x.value, bitsOnExit) else x.value, state := NotWaiting, pc := Outside)
  }

  /** What a notification makes of a task's value, bit by bit where it sets bits; afterwards one has been received. */
  lemma {:induction false} NotifyExact(x: Task, action: Action)
    ensures var r := Notify(x, action);
      && r.state == Received && r.pc == x.pc && r.ready == x.ready && r.takes == x.takes
      && match action
         case SetBits(bits) => forall i: nat :: i < 32 ==> (Bit(r.value, i) <==> Bit(x.value, i) || Bit(bits, i))
         case Increment => r.value == (x.value + 1) % VALUES && r.gives == x.gives + 1
         case SetValueWithOverwrite(value) => r.value == value
         case SetValueWithoutOverwrite(value) => r.value == if x.state == Received then x.value else value
         case NoAction => r.value == x.value
  {
    if action.SetBits? {
      forall i: nat | i < 32 ensures Bit(BitOr(x.value, action.bits), i) <==> Bit(x.value, i) || Bit(action.bits, i) {
        WordsBitByBit(x.value, action.bits, i);
      }
    }
  }

  /** The first section: a take of a zero value, or a wait with nothing received, marks the task as waiting and blocks exactly
      if it may; only a wait that marks it clears its bits on entry, and no other. */
  lemma {:induction false} CheckExact(x: Task)
    requires x.pc.Entered?
    ensures var r, none := Check(x), if x.pc.call.Take? then x.value == 0 else x.state != Received;
      && r.state == (if none then Waiting else x.state) && r.ready == x.ready
      && r.pc == Checked(x.pc.call, none && x.pc.mayBlock)
      && (none && x.pc.call.Wait? ==> forall i: nat :: i < 32 ==>
            (Bit(r.value, i) <==> Bit(x.value, i) && !Bit(x.pc.call.bitsOnEntry, i)))
      && (!none || x.pc.call.Take? ==> r.value == x.value)
  {
    match x.pc.call
    case Take(_) =>
    case Wait(bitsOnEntry, _) =>
      forall i: nat | i < 32 ensures Bit(BitClear(x.value, bitsOnEntry), i) <==> Bit(x.value, i) && !Bit(bitsOnEntry, i) {
        WordsBitByBit(x.value, bitsOnEntry, i);
      }
  }

  /** The last section: a take that clears leaves zero, another take one less, or zero where there was none; a wait clears its
      bits on exit, and no other, exactly if it has received something. The task no longer waits. */
  lemma {:induction false} FinishExact(x: Task)
    requires x.pc.Leaving?
    ensures var r := Finish(x);
      && r.state == NotWaiting && r.pc == Outside && r.ready == x.ready && r.gives == x.gives
      && match x.pc.call
         case Take(clearOnExit) =>
           && r.value == (if clearOnExit || x.value == 0 then 0 else x.value - 1)
           && r.takes == x.takes + if x.value == 0 then 0 else 1
         case Wait(_, bitsOnExit) =>
           && (x.state != Received ==> r.value == x.value)
           && (x.state == Received ==> forall i: nat :: i < 32 ==>
                 (Bit(r.value, i) <==> Bit(x.value, i) && !Bit(bitsOnExit, i)))
  {
    match x.pc.call
    case Take(_) =>
    case Wait(_, bitsOnExit) =>
      forall i: nat | i < 32 ensures Bit(BitClear(x.value, bitsOnExit), i) <==> Bit(x.value, i) && !Bit(bitsOnExit, i) {
        WordsBitByBit(x.value, bitsOnExit, i);
      }
  }

  class NotifiedTask {
    var ulNotifiedValue: word
    var ucNotifyState: NotifyState
    ghost var gives: nat
    ghost var takes: nat
    ghost var wraps: nat

    ghost function Abs(pc: Pc, ready: bool): Task
      reads this
    {
      Task(ulNotifiedValue, ucNotifyState, pc, ready, gives, takes, wraps)
    }

    /** ( ulNotifiedValue )++ on a uint32_t */
    method IncrementValue()
      requires ucNotifyState == Received
      modifies this
      ensures forall pc, ready :: Abs(pc, ready) == Give(old(Abs(pc, ready)))
    {
      gives := gives + 1;
      if ulNotifiedValue + 1 == VALUES {
        ulNotifiedValue, wraps := 0, wraps + 1;
      } else {
        ulNotifiedValue := ulNotifiedValue + 1;
      }
    }

    /** The switch of xTaskGenericNotify and xTaskGenericNotifyFromISR */
    method GenericNotify(eAction: Action) returns (passed: bool, wasWaiting: bool)
      modifies this
      ensures forall pc, ready :: Abs(pc, ready) == Notify(old(Abs(pc, ready)), eAction)
      ensures wasWaiting <==> old(ucNotifyState) == Waiting
      ensures !passed <==> eAction.SetValueWithoutOverwrite? && old(ucNotifyState) == Received
    {
      passed := true;
      var ucOriginalNotifyState := ucNotifyState;
      ucNotifyState := Received;
      match eAction {
        case SetBits(bits) => ulNotifiedValue := BitOr(ulNotifiedValue, bits);
        case Increment => IncrementValue();
        case SetValueWithOverwrite(value) => ulNotifiedValue := value;
        case SetValueWithoutOverwrite(value) =>
          if ucOriginalNotifyState != Received {
            ulNotifiedValue := value;
          } else {
            passed := false;
          }
        case NoAction =>
      }
      wasWaiting := ucOriginalNotifyState == Waiting;
    }

    /** The first critical section of ulTaskGenericNotifyTake */
    method TakeEntry(clearOnExit: bool, mayBlock: bool) returns (xShouldBlock: bool)
      modifies this
      ensures forall ready ::
        Abs(Checked(Take(clearOnExit), xShouldBlock), ready) == Check(old(Abs(Entered(Take(clearOnExit), mayBlock), ready)))
    {
      xShouldBlock := false;
      if ulNotifiedValue == 0 {
        ucNotifyState := Waiting;
        if mayBlock {
          xShouldBlock := true;
        }
      }
    }

    /** The last critical section of ulTaskGenericNotifyTake */
    method TakeExit(clearOnExit: bool) returns (ulReturn: nat)
      modifies this
      ensures forall ready :: Abs(Outside, ready) == Finish(old(Abs(Leaving(Take(clearOnExit)), ready)))
      ensures ulReturn == old(ulNotifiedValue)
    {
      ulReturn := ulNotifiedValue;
      if ulReturn != 0 {
        takes := takes + 1;
        if clearOnExit {
          ulNotifiedValue := 0;
        } else {
          ulNotifiedValue := ulReturn - 1;
        }
      }
      ucNotifyState := NotWaiting;
    }

    /** The first critical section of xTaskGenericNotifyWait */
    method WaitEntry(bitsOnEntry: word, bitsOnExit: word, mayBlock: bool) returns (xShouldBlock: bool)
      modifies this
      ensures forall ready ::
        var call := Wait(bitsOnEntry, bitsOnExit);
        Abs(Checked(call, xShouldBlock), ready) == Check(old(Abs(Entered(call, mayBlock), ready)))
    {
      xShouldBlock := false;
      if ucNotifyState != Received {
        ulNotifiedValue := BitClear(ulNotifiedValue, bitsOnEntry);
        ucNotifyState := Waiting;
        if mayBlock {
          xShouldBlock := true;
        }
      }
    }

    /** The last critical section of xTaskGenericNotifyWait */
    method WaitExit(bitsOnEntry: word, bitsOnExit: word) returns (received: bool, value: word)
      modifies this
      ensures forall ready :: Abs(Outside, ready) == Finish(old(Abs(Leaving(Wait(bitsOnEntry, bitsOnExit)), ready)))
      ensures value == old(ulNotifiedValue) && (received <==> old(ucNotifyState) == Received)
    {
      value := ulNotifiedValue;
      if ucNotifyState != Received {
        received := false;
      } else {
        ulNotifiedValue := BitClear(ulNotifiedValue, bitsOnExit);
        received := true;
      }
      ucNotifyState := NotWaiting;
    }
  }

  // ---- The steps ----

  /** suspended is uxSchedulerSuspended, locker the task that suspended the scheduler, pending xPendingReadyList. */
  datatype System = System(tasks: map<nat, Task>, pending: seq<nat>, suspended: nat, locker: nat)

  datatype Event =
    | Create(task: nat)
    | SuspendAll(task: nat)
    | ResumeAll(task: nat)
    | Enter(task: nat, call: Call, mayBlock: bool)
    | CheckValue(task: nat)
    | AddToDelayedList(task: nat)
    | Leave(task: nat)
    | FinishCall(task: nat)
    | NotifyISR(task: nat, action: Action)
    | NotifyTask(from: nat, task: nat, action: Action)
    | Timeout(task: nat)

  /** t can run: it is ready, and no other task has the scheduler suspended. */
  predicate Runs(s: System, t: nat) {
    t in s.tasks && s.tasks[t].ready && (s.suspended == 0 || s.locker == t)
  }

  predicate Enabled(s: System, e: Event) {
    match e
    case Create(t) => t !in s.tasks && s.suspended == 0
    case SuspendAll(t) => Runs(s, t) && s.tasks[t].pc.Outside?
    case ResumeAll(t) => Runs(s, t) && s.tasks[t].pc.Outside? && s.suspended > 0
    case Enter(t, _, _) => Runs(s, t) && s.tasks[t].pc.Outside?
    case CheckValue(t) => Runs(s, t) && s.tasks[t].pc.Entered?
    case AddToDelayedList(t) => Runs(s, t) && s.tasks[t].pc.Checked? && s.tasks[t].pc.block
    case Leave(t) =>
      t in s.tasks && s.suspended > 0 && s.locker == t &&
      (s.tasks[t].pc.Placed? || (s.tasks[t].pc.Checked? && !s.tasks[t].pc.block))
    case FinishCall(t) => Runs(s, t) && s.tasks[t].pc.Leaving?
    case NotifyISR(t, _) => t in s.tasks
    case NotifyTask(from, t, _) => Runs(s, from) && s.tasks[from].pc.Outside? && t in s.tasks
    case Timeout(t) => t in s.tasks && s.suspended == 0 && !s.tasks[t].ready
  }

  /** The calls are not made with the scheduler already suspended. */
  predicate Disciplined(s: System, e: Event) {
    e.Enter? ==> s.suspended == 0
  }

  function Update(s: System, t: nat, x: Task): System {
    s.(tasks := s.tasks[t := x])
  }

  function MakeReady(tasks: map<nat, Task>, pending: seq<nat>): map<nat, Task> {
    if pending == [] then tasks
    else if pending[0] in tasks then MakeReady(tasks[pending[0] := tasks[pending[0]].(ready := true)], pending[1..])
    else MakeReady(tasks, pending[1..])
  }

  function Resume(s: System): System
    requires s.suspended > 0
  {
    if s.suspended == 1 then System(MakeReady(s.tasks, s.pending), [], 0, s.locker) else s.(suspended := s.suspended - 1)
  }

  /** A task that was waiting is taken off its list, or held pending while the scheduler is suspended. */
  function NotifyFromISR(s: System, t: nat, action: Action): System
    requires t in s.tasks
  {
    var x := Notify(s.tasks[t], action);
    if !s.tasks[t].state.Waiting? then Update(s, t, x)
    else if s.suspended == 0 then Update(s, t, x.(ready := true))
    else Update(s, t, x).(pending := s.pending + [t])
  }

  function NotifyFromTask(s: System, t: nat, action: Action): System
    requires t in s.tasks
  {
    var x := Notify(s.tasks[t], action);
    Update(s, t, if s.tasks[t].state.Waiting? then x.(ready := true) else x)
  }

  function Step(s: System, e: Event): System
    requires Enabled(s, e)
  {
    match e
    case Create(t) => Update(s, t, Task(0, NotWaiting, Outside, true, 0, 0, 0))
    case SuspendAll(t) => s.(suspended := s.suspended + 1, locker := t)
    case ResumeAll(t) => Resume(s)
    case Enter(t, call, mayBlock) =>
      Update(s, t, s.tasks[t].(pc := Entered(call, mayBlock))).(suspended := s.suspended + 1, locker := t)
    case CheckValue(t) => Update(s, t, Check(s.tasks[t]))
    case AddToDelayedList(t) => Update(s, t, s.tasks[t].(ready := false, pc := Placed(s.tasks[t].pc.call)))
    case Leave(t) => Resume(Update(s, t, s.tasks[t].(pc := Leaving(s.tasks[t].pc.call))))
    case FinishCall(t) => Update(s, t, Finish(s.tasks[t]))
    case NotifyISR(t, action) => NotifyFromISR(s, t, action)
    case NotifyTask(_, t, action) => NotifyFromTask(s, t, action)
    case Timeout(t) => Update(s, t, s.tasks[t].(ready := true))
  }

  // ---- The invariant ----

  ghost predicate TaskOk(s: System, t: nat, x: Task) {
    && (x.pc.Entered? || x.pc.Checked? || x.pc.Placed? ==> s.suspended == 1 && s.locker == t)
    && (x.pc.Leaving? ==> s.suspended == 0 || s.locker != t)
    && (!x.ready ==> (x.pc.Placed? || x.pc.Leaving?) && (x.state.Waiting? || t in s.pending))
    && (x.state.Waiting? ==> x.pc.Checked? || x.pc.Placed? || x.pc.Leaving?)
    && (x.state.Waiting? && x.pc.call.Take? ==> x.value == 0)
    && (x.pc.Checked? && x.pc.block ==> x.state.Waiting? || t in s.pending)
    && (t in s.pending ==> x.state.Received? && (x.pc.Checked? || x.pc.Placed? || x.pc.Leaving?))
  }

  ghost predicate Inv(s: System) {
    && (forall t :: t in s.tasks ==> TaskOk(s, t, s.tasks[t]))
    && (forall t :: t in s.pending ==> t in s.tasks)
    && NoDuplicates(s.pending)
    && (s.suspended == 0 ==> s.pending == [])
  }

  lemma {:induction false} MakeReadyExact(tasks: map<nat, Task>, pending: seq<nat>)
    requires forall t :: t in pending ==> t in tasks
    ensures var r := MakeReady(tasks, pending);
      && r.Keys == tasks.Keys
      && forall t :: t in tasks ==> r[t] == (if t in pending then tasks[t].(ready := true) else tasks[t])
  {
    if pending != [] {
      assert pending == [pending[0]] + pending[1..];
      MakeReadyExact(tasks[pending[0] := tasks[pending[0]].(ready := true)], pending[1..]);
    }
  }

  lemma {:induction false} ResumeKeepsInv(s: System)
    requires Inv(s) && s.suspended > 0
    requires forall t :: t in s.tasks ==> s.tasks[t].pc.Outside? || s.tasks[t].pc.Leaving?
    ensures Inv(Resume(s))
  {
    MakeReadyExact(s.tasks, s.pending);
    var r := Resume(s);
    forall t | t in r.tasks ensures TaskOk(r, t, r.tasks[t]) {
      assert TaskOk(s, t, s.tasks[t]);
    }
  }

  /** One task changes; the scheduler and the pending list stay. */
  lemma {:induction false} UpdateKeepsInv(s: System, t: nat, x: Task)
    requires Inv(s) && TaskOk(s, t, x) && (t in s.tasks || t !in s.pending)
    ensures Inv(Update(s, t, x))
  {
    var r := Update(s, t, x);
    forall u | u in r.tasks ensures TaskOk(r, u, r.tasks[u]) {
      assert u != t ==> TaskOk(s, u, s.tasks[u]);
    }
  }

  /** The running task suspends the scheduler, alone or as the start of a call. */
  lemma {:induction false} SuspendKeepsInv(s: System, t: nat, pc: Pc)
    requires Inv(s) && Runs(s, t) && s.tasks[t].pc.Outside?
    requires pc.Outside? || (pc.Entered? && s.suspended == 0)
    ensures Inv(Update(s, t, s.tasks[t].(pc := pc)).(suspended := s.suspended + 1, locker := t))
  {
    var r := Update(s, t, s.tasks[t].(pc := pc)).(suspended := s.suspended + 1, locker := t);
    assert TaskOk(s, t, s.tasks[t]);
    forall u | u in r.tasks ensures TaskOk(r, u, r.tasks[u]) {
      assert TaskOk(s, u, s.tasks[u]);
    }
  }

  lemma {:induction false} LeaveKeepsInv(s: System, t: nat)
    requires Inv(s) && Enabled(s, Leave(t))
    ensures Inv(Step(s, Leave(t)))
  {
    assert TaskOk(s, t, s.tasks[t]);
    var x := s.tasks[t].(pc := Leaving(s.tasks[t].pc.call));
    MakeReadyExact(s.tasks[t := x], s.pending);
    var r := Step(s, Leave(t));
    forall u | u in r.tasks ensures TaskOk(r, u, r.tasks[u]) {
      assert TaskOk(s, u, s.tasks[u]);
    }
  }

  lemma {:induction false} ResumeAllKeepsInv(s: System, t: nat)
    requires Inv(s) && Enabled(s, ResumeAll(t))
    ensures Inv(Step(s, ResumeAll(t)))
  {
    forall u | u in s.tasks ensures s.tasks[u].pc.Outside? || s.tasks[u].pc.Leaving? {
      assert TaskOk(s, u, s.tasks[u]);
    }
    ResumeKeepsInv(s);
  }

  /** A task on the pending list has been marked as notified, so it is never put there twice. */
  lemma {:induction false} NotifyISRKeepsInv(s: System, t: nat, action: Action)
    requires Inv(s) && t in s.tasks
    ensures Inv(NotifyFromISR(s, t, action))
  {
    var x := Notify(s.tasks[t], action);
    assert TaskOk(s, t, s.tasks[t]);
    if s.tasks[t].state.Waiting? && s.suspended != 0 {
      AppendKeepsUnique(s.pending, t);
      var r := Update(s, t, x).(pending := s.pending + [t]);
      forall u | u in r.tasks ensures TaskOk(r, u, r.tasks[u]) {
        assert TaskOk(s, u, s.tasks[u]);
      }
    } else {
      UpdateKeepsInv(s, t, if s.tasks[t].state.Waiting? then x.(ready := true) else x);
    }
  }

  lemma {:induction false} NotifyTaskKeepsInv(s: System, from: nat, t: nat, action: Action)
    requires Inv(s) && Enabled(s, NotifyTask(from, t, action))
    ensures Inv(NotifyFromTask(s, t, action))
  {
    assert TaskOk(s, t, s.tasks[t]) && TaskOk(s, from, s.tasks[from]);
    var x := Notify(s.tasks[t], action);
    UpdateKeepsInv(s, t, if s.tasks[t].state.Waiting? then x.(ready := true) else x);
  }

  lemma {:induction false} StepKeepsInv(s: System, e: Event)
    requires Inv(s) && Enabled(s, e) && Disciplined(s, e)
    ensures Inv(Step(s, e))
  {
    match e
    case Create(t) => UpdateKeepsInv(s, t, Task(0, NotWaiting, Outside, true, 0, 0, 0));
    case SuspendAll(t) =>
      SuspendKeepsInv(s, t, Outside);
      assert s.tasks[t := s.tasks[t].(pc := Outside)] == s.tasks;
    case ResumeAll(t) => ResumeAllKeepsInv(s, t);
    case Enter(t, call, mayBlock) => SuspendKeepsInv(s, t, Entered(call, mayBlock));
    case CheckValue(t) => assert TaskOk(s, t, s.tasks[t]); UpdateKeepsInv(s, t, Check(s.tasks[t]));
    case AddToDelayedList(t) => assert TaskOk(s, t, s.tasks[t]); UpdateKeepsInv(s, t, Step(s, e).tasks[t]);
    case Leave(t) => LeaveKeepsInv(s, t);
    case FinishCall(t) => assert TaskOk(s, t, s.tasks[t]); UpdateKeepsInv(s, t, Finish(s.tasks[t]));
    case NotifyISR(t, action) => NotifyISRKeepsInv(s, t, action);
    case NotifyTask(from, t, action) => NotifyTaskKeepsInv(s, from, t, action);
    case Timeout(t) => assert TaskOk(s, t, s.tasks[t]); UpdateKeepsInv(s, t, Step(s, e).tasks[t]);
  }

  // ---- Who sleeps and who is woken ----

  /** The step ends the outermost suspension of the scheduler. */
  predicate Unsuspends(s: System, e: Event) {
    (e.ResumeAll? || e.Leave?) && s.suspended == 1
  }

  /** The step notifies task t while it is marked as waiting. */
  predicate NotifiesWaiting(s: System, e: Event, t: nat)
    requires t in s.tasks
  {
    (e.NotifyISR? || e.NotifyTask?) && e.task == t && s.tasks[t].state.Waiting?
  }

  /** A task goes to sleep only by putting itself on a delayed list. It wakes by a timeout, or when it is notified while it is
      marked as waiting: at once, or if an interrupt does it while the scheduler is suspended, when that ends. */
  lemma {:induction false} ReadyExactly(s: System, e: Event, t: nat)
    requires Inv(s) && Enabled(s, e) && t in s.tasks
    ensures var r := Step(s, e);
      && t in r.tasks
      && (!r.tasks[t].ready <==>
            || e == AddToDelayedList(t)
            || (!s.tasks[t].ready && e != Timeout(t) && !(Unsuspends(s, e) && t in s.pending)
                && !(NotifiesWaiting(s, e, t) && (e.NotifyTask? || s.suspended == 0))))
      && (t in r.pending <==>
            (t in s.pending && !Unsuspends(s, e)) || (NotifiesWaiting(s, e, t) && e.NotifyISR? && s.suspended > 0))
  {
    match e
    case ResumeAll(_) => MakeReadyExact(s.tasks, s.pending);
    case Leave(u) =>
      MakeReadyExact(s.tasks[u := s.tasks[u].(pc := Leaving(s.tasks[u].pc.call))], s.pending);
    case _ =>
  }

  /** A step changes the value and the state of the task it is about by the section it runs, and of no other. */
  lemma {:induction false} ValueExactly(s: System, e: Event, t: nat)
    requires Inv(s) && Enabled(s, e) && t in s.tasks
    ensures t in Step(s, e).tasks
    ensures var x, y := s.tasks[t], Step(s, e).tasks[t];
      if (e.NotifyISR? || e.NotifyTask?) && e.task == t then
        y.value == Notify(x, e.action).value && y.state == Received && y.pc == x.pc
      else if e == CheckValue(t) then y == Check(x)
      else if e == FinishCall(t) then y == Finish(x)
      else
        && y.value == x.value && y.state == x.state
        && y.pc == match e
             case Enter(u, call, mayBlock) => if u == t then Entered(call, mayBlock) else x.pc
             case AddToDelayedList(u) => if u == t then Placed(x.pc.call) else x.pc
             case Leave(u) => if u == t then Leaving(x.pc.call) else x.pc
             case _ => x.pc
  {
    match e
    case ResumeAll(_) => MakeReadyExact(s.tasks, s.pending);
    case Leave(u) =>
      MakeReadyExact(s.tasks[u := s.tasks[u].(pc := Leaving(s.tasks[u].pc.call))], s.pending);
    case _ =>
  }

  // ---- Runs ----

  const START := System(map[], [], 0, 0)

  predicate IsRun(s: System, es: seq<Event>)
    decreases |es|
  {
    es != [] ==> Enabled(s, es[0]) && IsRun(Step(s, es[0]), es[1..])
  }

  predicate DisciplinedRun(s: System, es: seq<Event>)
    requires IsRun(s, es)
    decreases |es|
  {
    es != [] ==> Disciplined(s, es[0]) && DisciplinedRun(Step(s, es[0]), es[1..])
  }

  function Run(s: System, es: seq<Event>): System
    requires IsRun(s, es)
    decreases |es|
  {
    if es == [] then s else Run(Step(s, es[0]), es[1..])
  }

  lemma {:induction false} RunKeepsInv(s: System, es: seq<Event>)
    requires Inv(s) && IsRun(s, es) && DisciplinedRun(s, es)
    ensures Inv(Run(s, es))
    decreases |es|
  {
    if es != [] {
      StepKeepsInv(s, es[0]);
      RunKeepsInv(Step(s, es[0]), es[1..]);
    }
  }

  /** Over every run, whenever an interrupt strikes: once the scheduler is fully resumed nobody sleeps with a
      notification, a task asleep in a take has nothing to take, and the pending list is empty. */
  lemma {:induction false} NoNotificationIsLost(es: seq<Event>, t: nat)
    requires IsRun(START, es) && DisciplinedRun(START, es)
    ensures var r := Run(START, es);
      && NoDuplicates(r.pending)
      && (r.suspended == 0 ==> r.pending == [])
      && (r.suspended == 0 && t in r.tasks && !r.tasks[t].ready ==>
            r.tasks[t].state.Waiting? && r.tasks[t].pc.Leaving? && (r.tasks[t].pc.call.Take? ==> r.tasks[t].value == 0))
  {
    RunKeepsInv(START, es);
    var r := Run(START, es);
    assert t in r.tasks ==> TaskOk(r, t, r.tasks[t]);
  }

  /** A run that ends with a task asleep in a take of nothing; a give from an interrupt then wakes it. */
  lemma {:induction false} SleepsInTake() returns (es: seq<Event>)
    ensures IsRun(START, es) && DisciplinedRun(START, es)
    ensures var r := Run(START, es);
      && r == System(map[7 := Task(0, Waiting, Leaving(Take(true)), false, 0, 0, 0)], [], 0, 7)
      && Step(r, NotifyISR(7, Increment)).tasks[7] == Task(1, Received, Leaving(Take(true)), true, 1, 0, 0)
  {
    var take := Take(true);
    es := [Create(7)];
    assert IsRun(START, es) && Run(START, es) == System(map[7 := Task(0, NotWaiting, Outside, true, 0, 0, 0)], [], 0, 0);
    assert DisciplinedRun(START, es);
    ExtendDisciplined(START, es, Enter(7, take, true));
    es := es + [Enter(7, take, true)];
    ExtendDisciplined(START, es, CheckValue(7));
    es := es + [CheckValue(7)];
    ExtendDisciplined(START, es, AddToDelayedList(7));
    es := es + [AddToDelayedList(7)];
    ExtendDisciplined(START, es, Leave(7));
    es := es + [Leave(7)];
  }

  lemma {:induction false} ExtendDisciplined(s: System, es: seq<Event>, e: Event)
    requires IsRun(s, es) && DisciplinedRun(s, es) && Enabled(Run(s, es), e) && Disciplined(Run(s, es), e)
    ensures IsRun(s, es + [e]) && DisciplinedRun(s, es + [e]) && Run(s, es + [e]) == Step(Run(s, es), e)
    decreases |es|
  {
    if es == [] {
      assert es + [e] == [e] && [e][1..] == [];
    } else {
      assert (es + [e])[1..] == es[1..] + [e];
      ExtendDisciplined(Step(s, es[0]), es[1..], e);
    }
  }

  // ---- Counting ----

  predicate Counted(x: Task) {
    x.gives == x.takes + x.value + VALUES * x.wraps
  }

  /** Nothing but gives, and takes that decrement, touches the value of task t. */
  predicate GivesAndTakes(e: Event, t: nat) {
    match e
    case Enter(u, call, _) => u == t ==> call.Take? && !call.clearOnExit
    case NotifyISR(u, action) => u == t ==> action.Increment?
    case NotifyTask(_, u, action) => u == t ==> action.Increment?
    case _ => true
  }

  predicate TakesOnly(pc: Pc) {
    pc.Outside? || (pc.call.Take? && !pc.call.clearOnExit)
  }

  predicate CountedIn(s: System, t: nat) {
    t in s.tasks ==> Counted(s.tasks[t]) && TakesOnly(s.tasks[t].pc)
  }

  lemma {:induction false} StepKeepsCount(s: System, e: Event, t: nat)
    requires Inv(s) && Enabled(s, e) && Disciplined(s, e) && GivesAndTakes(e, t) && CountedIn(s, t)
    ensures CountedIn(Step(s, e), t)
  {
    match e
    case ResumeAll(u) => MakeReadyExact(s.tasks, s.pending);
    case Leave(u) =>
      var r := Update(s, u, s.tasks[u].(pc := Leaving(s.tasks[u].pc.call)));
      MakeReadyExact(r.tasks, r.pending);
    case _ =>
  }

  lemma {:induction false} RunKeepsCount(s: System, es: seq<Event>, t: nat)
    requires Inv(s) && IsRun(s, es) && DisciplinedRun(s, es) && CountedIn(s, t)
    requires forall i :: 0 <= i < |es| ==> GivesAndTakes(es[i], t)
    ensures CountedIn(Run(s, es), t)
    decreases |es|
  {
    if es != [] {
      StepKeepsInv(s, es[0]);
      StepKeepsCount(s, es[0], t);
      assert forall i :: 0 <= i < |es| - 1 ==> es[1..][i] == es[i + 1];
      RunKeepsCount(Step(s, es[0]), es[1..], t);
    }
  }

  /** With gives and decrementing takes only, gives less successful takes is the notification value, up to
      multiples of 2 to the 32. */
  lemma {:induction false} GivesMinusTakes(es: seq<Event>, t: nat)
    requires IsRun(START, es) && DisciplinedRun(START, es) && t in Run(START, es).tasks
    requires forall i :: 0 <= i < |es| ==> GivesAndTakes(es[i], t)
    ensures var x := Run(START, es).tasks[t]; x.gives - x.takes == x.value + VALUES * x.wraps
  {
    RunKeepsCount(START, es, t);
  }

  // ---- The assertion, without the discipline ----

  /** What the notify functions assert of a task that was waiting, before they go on: its event list item is on no list.
      Without assertions the functions for interrupts would insert the item again. */
  predicate Asserted(s: System, t: nat)
    requires t in s.tasks
  {
    s.tasks[t].state.Waiting? ==> t !in s.pending
  }

  /** Whatever interrupt comes now, the assertion holds. */
  ghost predicate AssertionSafe(s: System) {
    forall t :: t in s.tasks ==> Asserted(s, t)
  }

  /** A task that an interrupt has put on the pending list finds nothing to receive in a further call, and is marked as
      waiting. */
  predicate MarksPending(s: System, e: Event)
    requires Enabled(s, e)
  {
    e.CheckValue? && e.task in s.pending &&
    (var x := s.tasks[e.task]; if x.pc.call.Take? then x.value == 0 else !x.state.Received?)
  }

  /** A pending task is listed a second time exactly if the assertion fails. */
  lemma {:induction false} ListedTwiceIff(s: System, t: nat, action: Action)
    requires t in s.tasks && NoDuplicates(s.pending) && (s.suspended == 0 ==> s.pending == [])
    ensures NoDuplicates(NotifyFromISR(s, t, action).pending) <==> Asserted(s, t)
  {
    if t !in s.pending {
      AppendKeepsUnique(s.pending, t);
    } else {
      TwiceIsDuplicate(s.pending, t);
    }
  }

  lemma {:induction false} TwiceIsDuplicate(s: seq<nat>, t: nat)
    requires t in s
    ensures !NoDuplicates(s + [t])
  {
    assert s == [s[0]] + s[1..] && (s + [t])[1..] == s[1..] + [t];
    if t in s[1..] {
      TwiceIsDuplicate(s[1..], t);
    } else {
      assert t in (s + [t])[1..];
    }
  }

  /** What stays true of the pending list while the assertion holds */
  ghost predicate Sound(s: System) {
    && NoDuplicates(s.pending) && (s.suspended == 0 ==> s.pending == [])
    && (forall t :: t in s.pending ==> t in s.tasks)
  }

  lemma {:induction false} ResumeSafe(s: System)
    requires Sound(s) && AssertionSafe(s) && s.suspended > 0
    ensures Sound(Resume(s)) && AssertionSafe(Resume(s))
  {
    MakeReadyExact(s.tasks, s.pending);
  }

  /** One step, from a state in which no interrupt can fail the assertion, leads to another such state exactly if it
      does not mark a pending task as waiting. */
  lemma {:induction false} StepSafeIff(s: System, e: Event)
    requires Sound(s) && AssertionSafe(s) && Enabled(s, e)
    ensures Sound(Step(s, e)) && (AssertionSafe(Step(s, e)) <==> !MarksPending(s, e))
  {
    match e
    case ResumeAll(_) => ResumeSafe(s);
    case Leave(t) =>
      var x := s.tasks[t].(pc := Leaving(s.tasks[t].pc.call));
      assert Asserted(s, t);
      ResumeSafe(Update(s, t, x));
    case NotifyISR(t, action) =>
      assert Asserted(s, t);
      ListedTwiceIff(s, t, action);
    case CheckValue(t) =>
      var r := Step(s, e);
      assert Asserted(s, t) && (Asserted(r, t) <==> !MarksPending(s, e));
      forall u | u in r.tasks && u != t ensures Asserted(r, u) {
        assert Asserted(s, u);
      }
    case _ =>
  }

  /** At no point of the run can an interrupt fail the assertion. */
  ghost predicate AlwaysSafe(s: System, es: seq<Event>)
    requires IsRun(s, es)
    decreases |es|
  {
    AssertionSafe(s) && (es != [] ==> AlwaysSafe(Step(s, es[0]), es[1..]))
  }

  predicate NeverMarksPending(s: System, es: seq<Event>)
    requires IsRun(s, es)
    decreases |es|
  {
    es != [] ==> !MarksPending(s, es[0]) && NeverMarksPending(Step(s, es[0]), es[1..])
  }

  lemma {:induction false} SafeIff(s: System, es: seq<Event>)
    requires Sound(s) && AssertionSafe(s) && IsRun(s, es)
    ensures AlwaysSafe(s, es) <==> NeverMarksPending(s, es)
    decreases |es|
  {
    if es != [] {
      StepSafeIff(s, es[0]);
      if MarksPending(s, es[0]) {
        assert !AssertionSafe(Step(s, es[0]));
      } else {
        SafeIff(Step(s, es[0]), es[1..]);
      }
    }
  }

  /** Over every run, disciplined or not: the assertion holds whatever interrupts strike whenever, exactly if no task
      on the pending list is ever marked as waiting; and the pending list never holds a task twice then. */
  lemma {:induction false} AssertionHoldsIff(es: seq<Event>)
    requires IsRun(START, es)
    ensures AlwaysSafe(START, es) <==> NeverMarksPending(START, es)
    ensures NeverMarksPending(START, es) ==> NoDuplicates(Run(START, es).pending)
  {
    SafeIff(START, es);
    if NeverMarksPending(START, es) {
      RunKeepsSound(START, es);
    }
  }

  lemma {:induction false} RunKeepsSound(s: System, es: seq<Event>)
    requires Sound(s) && AssertionSafe(s) && IsRun(s, es) && NeverMarksPending(s, es)
    ensures Sound(Run(s, es)) && AssertionSafe(Run(s, es))
    decreases |es|
  {
    if es != [] {
      StepSafeIff(s, es[0]);
      RunKeepsSound(Step(s, es[0]), es[1..]);
    }
  }

  /** In disciplined runs the assertion holds at every notification. */
  lemma {:induction false} AssertionHoldsWhenDisciplined(es: seq<Event>)
    requires IsRun(START, es) && DisciplinedRun(START, es)
    ensures AssertionSafe(Run(START, es))
  {
    RunKeepsInv(START, es);
    var r := Run(START, es);
    forall t | t in r.tasks ensures Asserted(r, t) {
      assert TaskOk(r, t, r.tasks[t]);
    }
  }

  lemma {:induction false} Extend(s: System, es: seq<Event>, e: Event)
    requires IsRun(s, es) && Enabled(Run(s, es), e)
    ensures IsRun(s, es + [e]) && Run(s, es + [e]) == Step(Run(s, es), e)
    decreases |es|
  {
    if es == [] {
      assert es + [e] == [e] && [e][1..] == [];
    } else {
      assert (es + [e])[1..] == es[1..] + [e];
      Extend(Step(s, es[0]), es[1..], e);
    }
  }

  /** The input that fails it: a task that takes without blocking while it has the scheduler suspended itself is put on
      the pending list by one give, consumes that give, and is marked as waiting by its next take. A further give from
      an interrupt then fails the assertion, and would list the task twice if assertions were compiled out. */
  lemma {:induction false} TakeWhileSuspendedFailsAssertion() returns (es: seq<Event>)
    ensures IsRun(START, es)
    ensures var r := Run(START, es);
      && 7 in r.tasks && !Asserted(r, 7) && Enabled(r, NotifyISR(7, Increment))
      && !NoDuplicates(Step(r, NotifyISR(7, Increment)).pending)
  {
    var take, waiting := Take(false), Checked(Take(false), false);
    es := TakeOnceWhileSuspended();
    Extend(START, es, Enter(7, take, false));
    es := es + [Enter(7, take, false)];
    Extend(START, es, CheckValue(7));
    es := es + [CheckValue(7)];
    var r := Run(START, es);
    assert r == System(map[7 := Task(0, Waiting, waiting, true, 1, 1, 0)], [7], 2, 7);
    assert [7][1..] == [];
    ListedTwiceIff(r, 7, Increment);
  }

  lemma {:induction false} TakeOnceWhileSuspended() returns (es: seq<Event>)
    ensures IsRun(START, es)
    ensures Run(START, es) == System(map[7 := Task(0, NotWaiting, Outside, true, 1, 1, 0)], [7], 1, 7)
  {
    es := GiveWhileSuspended();
    Extend(START, es, Leave(7));
    es := es + [Leave(7)];
    Extend(START, es, FinishCall(7));
    es := es + [FinishCall(7)];
  }

  lemma {:induction false} GiveWhileSuspended() returns (es: seq<Event>)
    ensures IsRun(START, es)
    ensures Run(START, es) == System(map[7 := Task(1, Received, Checked(Take(false), false), true, 1, 0, 0)], [7], 2, 7)
  {
    var take := Take(false);
    es := [Create(7)];
    assert IsRun(START, es) && Run(START, es) == System(map[7 := Task(0, NotWaiting, Outside, true, 0, 0, 0)], [], 0, 0);
    Extend(START, es, SuspendAll(7));
    es := es + [SuspendAll(7)];
    Extend(START, es, Enter(7, take, false));
    es := es + [Enter(7, take, false)];
    Extend(START, es, CheckValue(7));
    es := es + [CheckValue(7)];
    Extend(START, es, NotifyISR(7, Increment));
    es := es + [NotifyISR(7, Increment)];
  }
}
