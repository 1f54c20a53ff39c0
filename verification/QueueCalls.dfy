/** OS/queue.c: what every step of QueueProtocol does to the queue and to the task that takes it, and what a call comes to.

    A call is answered exactly when there is something in the queue for it, sleeps exactly when there is not, and ends
    unanswered only if it may not block or its time is over. */
module QueueCalls {
  import opened SortedLists
  import opened QueueBlocking
  import opened QueueProtocol

  /** The queue has a message to take or to look at, or a free slot. */
  predicate Answerable(c: Control, op: Op) {
    match op
    case Receive => 0 < c.messages
    case Peek => 0 < c.messages
    case Send => c.messages < c.length
    case Overwrite => true
  }

  /** How many messages there are once op is answered */
  function MessagesAfter(c: Control, op: Op): int {
    match op
    case Receive => c.messages - 1
    case Peek => c.messages
    case Send => c.messages + 1
    case Overwrite => if c.messages == 0 then 1 else c.messages
  }

  /** The first n of a list are woken and the rest wait on. */
  ghost predicate Woken(list: seq<Item>, woken: set<nat>, list': seq<Item>, woken': set<nat>, n: nat) {
    n <= |list| && list' == list[n..] && woken' == woken + IdSet(list[..n])
  }

  /** One waiting task is woken, if there is one. */
  ghost predicate OneWoken(list: seq<Item>, woken: set<nat>, list': seq<Item>, woken': set<nat>) {
    Woken(list, woken, list', woken', if list == [] then 0 else 1)
  }

  lemma {:induction false} HeadWoken(c: Control)
    ensures var d := WakeReceiver(c); OneWoken(c.toReceive, c.wokenReceivers, d.toReceive, d.wokenReceivers)
    ensures var d := WakeSender(c); OneWoken(c.toSend, c.wokenSenders, d.toSend, d.wokenSenders)
  {
    if c.toReceive != [] {
      assert c.toReceive[..1] == [c.toReceive[0]];
    }
    if c.toSend != [] {
      assert c.toSend[..1] == [c.toSend[0]];
    }
  }

  /** op is answered: the count changes by its own message alone, and one task is woken that waits for the opposite, or
      another that waits for the item op has only looked at. */
  ghost predicate Answered(c: Control, d: Control, op: Op) {
    && d.messages == MessagesAfter(c, op)
    && (if op.Receive? then d.toReceive == c.toReceive && d.wokenReceivers == c.wokenReceivers
        else OneWoken(c.toReceive, c.wokenReceivers, d.toReceive, d.wokenReceivers))
    && (if op.Receive? then OneWoken(c.toSend, c.wokenSenders, d.toSend, d.wokenSenders)
        else d.toSend == c.toSend && d.wokenSenders == c.wokenSenders)
    && d.cTxLock == c.cTxLock && d.cRxLock == c.cRxLock && d.length == c.length
  }

  lemma {:induction false} TakesExact(c: Control)
    ensures 0 < c.messages ==> Answered(c, ReceiveFromTask(c), Receive)
    ensures Answered(c, WakeReceiver(c), Peek)
  {
    HeadWoken(c);
    if 0 < c.messages {
      HeadWoken(c.(messages := c.messages - 1));
    }
  }

  lemma {:induction false} SendsExact(c: Control, overwrite: bool)
    ensures Answered(c, SendFromTask(c, overwrite), if overwrite then Overwrite else Send)
  {
    HeadWoken(Add(c, overwrite));
  }

  /** A try is answered exactly if the queue has something for it, and then ends the call; refused, it ends the call exactly if
      it may not block, and changes nothing. Either way the task no longer counts as woken. */
  lemma {:induction false} TryExact(s: System, t: nat, mayBlock: bool)
    requires WellTyped(s) && Enabled(s, Try(t, mayBlock))
    ensures var op, r, q := s.pcs[t].op, Step(s, Try(t, mayBlock)), Rerun(s.c, t);
      && r.locker == s.locker
      && if Answerable(s.c, op) then r.pcs == s.pcs[t := Outside] && Answered(q, r.c, op)
         else r.pcs == s.pcs[t := if mayBlock then Refused(op) else Outside] && r.c == q
  {
    TakesExact(Rerun(s.c, t));
    SendsExact(Rerun(s.c, t), s.pcs[t].op.Overwrite?);
  }

  lemma {:induction false} RerunExact(c: Control, t: nat)
    ensures Rerun(c, t) == c.(wokenReceivers := Rerun(c, t).wokenReceivers, wokenSenders := Rerun(c, t).wokenSenders)
    ensures forall u :: u in Rerun(c, t).wokenReceivers <==> u in c.wokenReceivers && u != t
    ensures forall u :: u in Rerun(c, t).wokenSenders <==> u in c.wokenSenders && u != t
  {
  }

  /** An interrupt's send or receive wakes one task at once if that side of the queue is unlocked, and else counts it. */
  lemma {:induction false} ISRExact(s: System, e: Event)
    requires WellTyped(s) && Enabled(s, e) && (e.SendISR? || e.ReceiveISR?)
    ensures var r, n := Step(s, e), |s.pcs|;
      && r.pcs == s.pcs && r.locker == s.locker && r.c.length == s.c.length
      && r.c.messages == MessagesAfter(s.c, if e.ReceiveISR? then Receive else if e.overwrite then Overwrite else Send)
      && (if e.SendISR? && s.c.cTxLock == queueUNLOCKED then
            OneWoken(s.c.toReceive, s.c.wokenReceivers, r.c.toReceive, r.c.wokenReceivers) && r.c.cTxLock == s.c.cTxLock
          else
            && r.c.toReceive == s.c.toReceive && r.c.wokenReceivers == s.c.wokenReceivers
            && r.c.cTxLock == (if e.SendISR? && s.c.cTxLock < n then s.c.cTxLock + 1 else s.c.cTxLock))
      && (if e.ReceiveISR? && s.c.cRxLock == queueUNLOCKED then
            OneWoken(s.c.toSend, s.c.wokenSenders, r.c.toSend, r.c.wokenSenders) && r.c.cRxLock == s.c.cRxLock
          else
            && r.c.toSend == s.c.toSend && r.c.wokenSenders == s.c.wokenSenders
            && r.c.cRxLock == (if e.ReceiveISR? && s.c.cRxLock < n then s.c.cRxLock + 1 else s.c.cRxLock))
  {
    match e
    case SendISR(overwrite) => HeadWoken(Add(s.c, overwrite));
    case ReceiveISR => HeadWoken(s.c.(messages := s.c.messages - 1));
  }

  lemma {:induction false} HeadAndRest(list: seq<Item>, n: nat)
    requires list != [] && n <= |list[1..]|
    ensures list[n + 1..] == list[1..][n..] && IdSet(list[..n + 1]) == {list[0].id} + IdSet(list[1..][..n])
  {
    assert list[..n + 1] == [list[0]] + list[1..][..n];
    IdSetCons(list[0], list[1..][..n]);
  }

  lemma {:induction false} ReceiversExact(c: Control, k: nat) returns (n: nat)
    ensures n == if k < |c.toReceive| then k else |c.toReceive|
    ensures var d := WakeReceivers(c, k);
      && Woken(c.toReceive, c.wokenReceivers, d.toReceive, d.wokenReceivers, n)
      && d == c.(toReceive := d.toReceive, wokenReceivers := d.wokenReceivers)
    decreases k
  {
    n := 0;
    if k != 0 {
      var m := ReceiversExact(WakeReceiver(c), k - 1);
      n := m;
      if c.toReceive != [] {
        n := m + 1;
        HeadAndRest(c.toReceive, m);
      }
    }
  }

  lemma {:induction false} SendersExact(c: Control, k: nat) returns (n: nat)
    ensures n == if k < |c.toSend| then k else |c.toSend|
    ensures var d := WakeSenders(c, k);
      && Woken(c.toSend, c.wokenSenders, d.toSend, d.wokenSenders, n)
      && d == c.(toSend := d.toSend, wokenSenders := d.wokenSenders)
    decreases k
  {
    n := 0;
    if k != 0 {
      var m := SendersExact(WakeSender(c), k - 1);
      n := m;
      if c.toSend != [] {
        n := m + 1;
        HeadAndRest(c.toSend, m);
      }
    }
  }

  /** Unlocking a side wakes as many tasks as that side's lock counts, or all there are, and leaves it unlocked. */
  lemma {:induction false} UnlockExact(s: System) returns (n: nat)
    requires Inv(s) && Enabled(s, Unlock)
    ensures var r, next := Step(s, Unlock), s.locker.stage.next;
      && r.pcs == s.pcs && r.locker.Locker? && r.locker.task == s.locker.task
      && if s.locker.stage.UnlockTx? then
           && n == (if s.c.cTxLock < |s.c.toReceive| then s.c.cTxLock else |s.c.toReceive|)
           && Woken(s.c.toReceive, s.c.wokenReceivers, r.c.toReceive, r.c.wokenReceivers, n)
           && r.c == s.c.(cTxLock := queueUNLOCKED, toReceive := r.c.toReceive, wokenReceivers := r.c.wokenReceivers)
           && r.locker.stage == UnlockRx(next)
         else
           && n == (if s.c.cRxLock < |s.c.toSend| then s.c.cRxLock else |s.c.toSend|)
           && Woken(s.c.toSend, s.c.wokenSenders, r.c.toSend, r.c.wokenSenders, n)
           && r.c == s.c.(cRxLock := queueUNLOCKED, toSend := r.c.toSend, wokenSenders := r.c.wokenSenders)
           && r.locker.stage == Stage.Resume(next)
  {
    if s.locker.stage.UnlockTx? {
      n := ReceiversExact(s.c, s.c.cTxLock);
    } else {
      n := SendersExact(s.c, s.c.cRxLock);
    }
  }

  // ---- Going to sleep ----

  /** With the queue locked and time left, a task whose call still cannot be answered goes onto the list of those that wait
      for what it wants, and onto no other, and sleeps there until it is woken or timed out. */
  lemma {:induction false} SleepsIfNothing(s: System, v: nat)
    requires Inv(s) && Enabled(s, TestQueue)
    requires var op := s.pcs[s.locker.task].op;
      if op.Receive? || op.Peek? then s.c.messages == 0 else s.c.messages == s.c.length
    ensures var t, op, m := s.locker.task, s.pcs[s.locker.task].op, Step(s, TestQueue);
      && Inv(m) && m.c == s.c && Enabled(m, PlaceOnEventList(v))
      && var r := Step(m, PlaceOnEventList(v));
        && Inv(r) && r.locker == Locker(t, UnlockTx(Sleep)) && r.pcs == s.pcs
        && (if op.Receive? || op.Peek? then
              && (forall x :: x in r.c.toReceive <==> x in s.c.toReceive || x == Item(v, t))
              && HasId(r.c.toReceive, t) && r.c == s.c.(toReceive := r.c.toReceive)
            else
              && (forall x :: x in r.c.toSend <==> x in s.c.toSend || x == Item(v, t))
              && HasId(r.c.toSend, t) && r.c == s.c.(toSend := r.c.toSend))
  {
    var t, op, m := s.locker.task, s.pcs[s.locker.task].op, Step(s, TestQueue);
    StepKeepsInv(s, TestQueue);
    StepKeepsInv(m, PlaceOnEventList(v));
    forall x ensures x in Insert(s.c.toReceive, Item(v, t)) <==> x in s.c.toReceive || x == Item(v, t) {
      InsertMembers(s.c.toReceive, Item(v, t), x);
    }
    forall x ensures x in Insert(s.c.toSend, Item(v, t)) <==> x in s.c.toSend || x == Item(v, t) {
      InsertMembers(s.c.toSend, Item(v, t), x);
    }
    var r := Step(m, PlaceOnEventList(v));
    assert Item(v, t) in if TakesMessage(op) then r.c.toReceive else r.c.toSend;
  }

  /** A task whose call can be answered by now does not go to sleep: it unlocks the queue and tries again. */
  lemma {:induction false} RetriesIfSomething(s: System)
    requires Inv(s) && Enabled(s, TestQueue)
    requires var op := s.pcs[s.locker.task].op;
      if op.Receive? || op.Peek? then 0 < s.c.messages else s.c.messages < s.c.length
    ensures var r := Step(s, TestQueue);
      Inv(r) && r.c == s.c && r.pcs == s.pcs && r.locker == Locker(s.locker.task, UnlockTx(Retry)) && !Asleep(r, s.locker.task)
  {
    StepKeepsInv(s, TestQueue);
    assert !WentToSleep(s, s.locker.task, true) && !WentToSleep(s, s.locker.task, false);
  }

  /** Resuming the scheduler, a task whose time is not over is about to try again, asleep until it is woken if it has gone to
      sleep; one whose time is over looks at the queue once more if it wants a message, and else ends its call. */
  lemma {:induction false} ResumeExact(s: System)
    requires WellTyped(s) && Enabled(s, ResumeAll)
    ensures var t, op, r := s.locker.task, s.pcs[s.locker.task].op, Step(s, ResumeAll);
      && r.c == s.c && r.locker == Nobody
      && r.pcs == s.pcs[t := if !s.locker.stage.next.GiveUp? then Trying(op)
                             else if op.Receive? || op.Peek? then TimedOut(op)
                             else Outside]
  {
  }

  // ---- How a call ends ----

  /** Task t's call ends with step e. */
  ghost predicate Ends(s: System, e: Event, t: nat) {
    && WellTyped(s) && Enabled(s, e)
    && t in s.pcs && !s.pcs[t].Outside? && t in Step(s, e).pcs && Step(s, e).pcs[t].Outside?
  }

  /** Task t's time is over, and it is on its way out. */
  ghost predicate TimeOver(s: System, t: nat) {
    t in s.pcs && !s.pcs[t].Outside? &&
    (s.pcs[t].TimedOut? ||
     (s.locker.Locker? && s.locker.task == t && match s.locker.stage
        case UnlockTx(next) => next.GiveUp?
        case UnlockRx(next) => next.GiveUp?
        case Resume(next) => next.GiveUp?
        case _ => false))
  }

  /** A call ends with a try that is answered or may not block, or when its time is over and, if it wants a message, there is
      still none. */
  lemma {:induction false} EndsIff(s: System, e: Event, t: nat)
    requires WellTyped(s) && Enabled(s, e) && t in s.pcs && !s.pcs[t].Outside?
    ensures var op := s.pcs[t].op;
      Ends(s, e, t) <==>
        || (e.Try? && e.task == t && (Answerable(s.c, op) || !e.mayBlock))
        || (e == LookAgain(t) && s.c.messages == 0)
        || (e == ResumeAll && s.locker.task == t && TimeOver(s, t) && !op.Receive? && !op.Peek?)
  {
    if e.Try? {
      TryExact(s, e.task, e.mayBlock);
    }
  }

  /** A task's time is over only by its own check of its timeout. */
  lemma {:induction false} TimeOverOnlyIf(s: System, e: Event, t: nat)
    requires WellTyped(s) && Enabled(s, e) && TimeOver(Step(s, e), t)
    ensures TimeOver(s, t) || (e == CheckTimeOut(true) && s.locker.task == t)
    ensures !e.Call? || e.task != t
  {
    if e.Try? {
      TryExact(s, e.task, e.mayBlock);
    }
  }

  /** The state before step k */
  ghost function RunState(s: System, es: seq<Event>, k: nat): System
    requires IsRun(s, es) && k <= |es|
    decreases k
  {
    if k == 0 then s else RunState(Step(s, es[0]), es[1..], k - 1)
  }

  /** Step k is task t's check that finds its time over, and t has begun no other call since. */
  ghost predicate FoundTimeOver(s: System, es: seq<Event>, t: nat, k: nat)
    requires IsRun(s, es)
  {
    && k < |es| && es[k] == CheckTimeOut(true) && RunState(s, es, k).locker.Locker? && RunState(s, es, k).locker.task == t
    && forall j :: k < j < |es| ==> !(es[j].Call? && es[j].task == t)
  }

  /** If a task's time is over at the end of a run, it was over at first, and the task has begun no call, or it was found
      over at some step k. */
  lemma {:induction false} TimeOverIsFound(s: System, es: seq<Event>, t: nat) returns (k: int)
    requires Inv(s) && IsRun(s, es) && TimeOver(Run(s, es), t)
    ensures if k < 0 then TimeOver(s, t) && forall e :: e in es ==> !(e.Call? && e.task == t)
            else FoundTimeOver(s, es, t, k)
    decreases |es|
  {
    k := -1;
    if es != [] {
      var m, rest := Step(s, es[0]), es[1..];
      StepKeepsInv(s, es[0]);
      var j := TimeOverIsFound(m, rest, t);
      assert es == [es[0]] + rest;
      if j < 0 {
        TimeOverOnlyIf(s, es[0], t);
        if !TimeOver(s, t) {
          k := 0;
          assert RunState(s, es, 0) == s;
        }
      } else {
        k := j + 1;
        FoundLater(s, es, t, j);
      }
    }
  }

  lemma {:induction false} FoundLater(s: System, es: seq<Event>, t: nat, j: nat)
    requires IsRun(s, es) && es != [] && FoundTimeOver(Step(s, es[0]), es[1..], t, j)
    ensures FoundTimeOver(s, es, t, j + 1)
  {
    assert RunState(s, es, j + 1) == RunState(Step(s, es[0]), es[1..], j);
    forall i | j + 1 < i < |es| ensures !(es[i].Call? && es[i].task == t) {
      assert es[i] == es[1..][i - 1];
    }
  }

  /** Over every run: a call ends unanswered only if it may not block or it has found its time over since it began; and if it
      wanted a message there is none, or if it tried to send there is no free slot. */
  lemma {:induction false} UnansweredOnlyIf(s: System, es: seq<Event>, e: Event, t: nat) returns (k: int)
    requires Init(s) && IsRun(s, es) && Ends(Run(s, es), e, t)
    requires !(e.Try? && Answerable(Run(s, es).c, Run(s, es).pcs[t].op))
    ensures e == Try(t, false) || (0 <= k && FoundTimeOver(s, es, t, k))
    ensures var m := Run(s, es);
      && (m.pcs[t].op.Receive? || m.pcs[t].op.Peek? ==> m.c.messages == 0)
      && (e.Try? && m.pcs[t].op.Send? ==> m.c.messages == m.c.length)
  {
    k := -1;
    RunKeepsInv(s, es);
    var m := Run(s, es);
    EndsIff(m, e, t);
    if !e.Try? {
      assert TimeOver(m, t);
      k := TimeOverIsFound(s, es, t);
    }
  }

  /** The steps in between: the queue is locked with both counts at zero; a call finds its time over exactly when it has
      expired; after a timeout a task that finds a message tries again; and a timeout takes its task, and no other, off the
      lists. */
  lemma {:induction false} BetweenExact(s: System, e: Event)
    requires Inv(s) && Enabled(s, e)
    ensures var r := Step(s, e);
      match e
      case LockQueue =>
        r.c == s.c.(cTxLock := 0, cRxLock := 0) && r.pcs == s.pcs && r.locker == Locker(s.locker.task, Locked)
      case CheckTimeOut(expired) =>
        && r.c == s.c && r.pcs == s.pcs && r.locker.Locker? && r.locker.task == s.locker.task
        && (TimeOver(r, s.locker.task) <==> expired) && (!expired ==> r.locker.stage == NotTimedOut)
      case LookAgain(t) =>
        r.c == s.c && (0 < s.c.messages ==> r.pcs == s.pcs[t := Trying(s.pcs[t].op)])
      case Timeout(t) =>
        && r == s.(c := s.c.(toReceive := r.c.toReceive, toSend := r.c.toSend))
        && (forall x :: x in r.c.toReceive <==> x in s.c.toReceive && x.id != t)
        && (forall x :: x in r.c.toSend <==> x in s.c.toSend && x.id != t)
      case _ => true
  {
    match e
    case Timeout(t) =>
      forall x
        ensures x in Drop(s.c.toReceive, t) <==> x in s.c.toReceive && x.id != t
        ensures x in Drop(s.c.toSend, t) <==> x in s.c.toSend && x.id != t
      {
        DropMembers(s.c.toReceive, t, x);
        DropMembers(s.c.toSend, t, x);
      }
    case _ =>
  }

  /** A run from an empty queue that ends with a receiver asleep, and goes on: a message posted by an interrupt wakes the
      receiver, which takes it. */
  lemma {:induction false} ReceiverSleeps() returns (es: seq<Event>)
    ensures Init(EMPTY_PAIR) && IsRun(EMPTY_PAIR, es)
    ensures var r := Run(EMPTY_PAIR, es);
      && r.locker == Nobody && r.c == EMPTY_PAIR.c.(toReceive := [Item(0, 1)]) && r.pcs[1 := Trying(Receive)] == r.pcs
      && WellTyped(r) && Enabled(r, SendISR(false))
      && var m := Step(r, SendISR(false));
        && m.c == EMPTY_PAIR.c.(messages := 1, wokenReceivers := {1}) && Enabled(m, Try(1, true))
        && Step(m, Try(1, true)) == EMPTY_PAIR
  {
    es := CallSleeps(EMPTY_PAIR, 1, Receive);
    var r := Run(EMPTY_PAIR, es);
    assert r.c.toReceive == [Item(0, 1)];
    var m := Step(r, SendISR(false));
    assert m.c.toReceive == [];
    assert Step(m, Try(1, true)).pcs == EMPTY_PAIR.pcs;
  }
}
