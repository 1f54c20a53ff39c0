/** OS/tasks.c: blocked tasks and the tick, with its wrap to zero and its suspension.

    The two delayed lists, the tick count and xNextTaskUnblockTime are proved to be a plain calendar:
    an unbounded clock and one agenda of absolute wake times. */
module DelayedTasks {
  import opened SortedLists
  import opened TaskLists
  import opened TimeWheel

  /** The clock, who wakes when, and who was made ready when. */
  datatype Calendar = Calendar(clock: nat, agenda: seq<Item>, log: seq<Item>)

  ghost predicate Future(c: Calendar) {
    Sorted(c.agenda) && forall y :: y in c.agenda ==> c.clock < y.value
  }

  /** The items of s as made ready at one time. */
  function Stamp(s: seq<Item>, now: nat): seq<Item> {
    if s == [] then [] else [Item(now, s[0].id)] + Stamp(s[1..], now)
  }

  lemma {:induction false} StampCons(log: seq<Item>, x: Item, s: seq<Item>, now: nat)
    ensures log + Stamp([x] + s, now) == log + [Item(now, x.id)] + Stamp(s, now)
  {
    assert ([x] + s)[1..] == s;
  }

  /** One tick readies everything due by the new time, in agenda order. */
  function Tick(c: Calendar): Calendar {
    Calendar(c.clock + 1, Rest(c.agenda, c.clock + 1), c.log + Stamp(Due(c.agenda, c.clock + 1), c.clock + 1))
  }

  function Sleep(c: Calendar, id: nat, until: nat): Calendar {
    c.(agenda := Insert(c.agenda, Item(until, id)))
  }

  /** An event readies a task before its time. */
  function Wake(c: Calendar, id: nat): Calendar {
    c.(agenda := Drop(c.agenda, id), log := c.log + [Item(c.clock, id)])
  }

  function WakeAll(c: Calendar, ids: seq<nat>): Calendar
    decreases |ids|
  {
    if ids == [] then c else WakeAll(Wake(c, ids[0]), ids[1..])
  }

  function Ticks(c: Calendar, n: nat): Calendar
    decreases n
  {
    if n == 0 then c else Ticks(Tick(c), n - 1)
  }

  // ---- A task readied before its time ----

  /** A wake takes its task, and no other, out of the agenda and adds it once to the log, now. */
  lemma {:induction false} WakeExact(c: Calendar, id: nat, other: nat)
    ensures var r := Wake(c, id);
      && r.clock == c.clock && r.log == c.log + [Item(c.clock, id)]
      && Of(r.agenda, other) == (if other == id then [] else Of(c.agenda, other))
  {
    if other == id {
      OfDropped(c.agenda, id);
    } else {
      OfDrop(c.agenda, id, other);
    }
  }

  lemma {:induction false} OfDropped(s: seq<Item>, id: nat)
    ensures Of(Drop(s, id), id) == []
  {
    if s != [] {
      OfDropped(s[1..], id);
      assert s[0].id != id ==> Drop(s, id)[1..] == Drop(s[1..], id);
    }
  }

  lemma {:induction false} NotListed(s: seq<Item>, id: nat)
    ensures Of(s, id) == [] <==> !HasId(s, id)
  {
    if s != [] {
      assert s == [s[0]] + s[1..];
      NotListed(s[1..], id);
    }
  }

  /** Waking several tasks takes them, and no others, out of the agenda, and logs them in turn, now. */
  lemma {:induction false} WakeAllExact(c: Calendar, ids: seq<nat>, other: nat)
    ensures var r := WakeAll(c, ids);
      && r.clock == c.clock && Of(r.agenda, other) == (if other in ids then [] else Of(c.agenda, other))
      && |r.log| == |c.log| + |ids|
      && (forall i :: 0 <= i < |c.log| ==> r.log[i] == c.log[i])
      && (forall i :: 0 <= i < |ids| ==> r.log[|c.log| + i] == Item(c.clock, ids[i]))
  {
    WakeAllAgenda(c, ids, other);
    WakeAllLog(c, ids);
  }

  lemma {:induction false} WakeAllAgenda(c: Calendar, ids: seq<nat>, other: nat)
    ensures Of(WakeAll(c, ids).agenda, other) == (if other in ids then [] else Of(c.agenda, other))
    decreases |ids|
  {
    if ids != [] {
      assert ids == [ids[0]] + ids[1..];
      WakeExact(c, ids[0], other);
      WakeAllAgenda(Wake(c, ids[0]), ids[1..], other);
    }
  }

  lemma {:induction false} WakeAllLog(c: Calendar, ids: seq<nat>)
    ensures var r := WakeAll(c, ids);
      && r.clock == c.clock && |r.log| == |c.log| + |ids|
      && (forall i :: 0 <= i < |c.log| ==> r.log[i] == c.log[i])
      && (forall i :: 0 <= i < |ids| ==> r.log[|c.log| + i] == Item(c.clock, ids[i]))
    decreases |ids|
  {
    if ids != [] {
      var m, r := Wake(c, ids[0]), WakeAll(c, ids);
      WakeExact(c, ids[0], 0);
      WakeAllLog(m, ids[1..]);
      assert r == WakeAll(m, ids[1..]);
      forall i | 0 <= i < |c.log| ensures r.log[i] == c.log[i] {
        assert r.log[i] == m.log[i];
      }
      forall i | 0 <= i < |ids| ensures r.log[|c.log| + i] == Item(c.clock, ids[i]) {
        if i == 0 {
          assert r.log[|c.log|] == m.log[|c.log|];
        } else {
          assert r.log[|m.log| + (i - 1)] == Item(c.clock, ids[1..][i - 1]);
        }
      }
    }
  }

  /** Ticks put nobody into the agenda. */
  lemma {:induction false} TicksLeaveOut(c: Calendar, n: nat, id: nat)
    requires Of(c.agenda, id) == []
    ensures Of(Ticks(c, n).agenda, id) == []
    decreases n
  {
    if n != 0 {
      OfNone(c.agenda, c.clock + 1, id);
      TicksLeaveOut(Tick(c), n - 1, id);
    }
  }

  lemma {:induction false} RunFromFirst(c: Calendar, es: seq<Event>)
    requires es != []
    ensures Run(c, es) == Run(Step(c, es[0]), es[1..])
    decreases |es|
  {
    var n := |es| - 1;
    if n == 0 {
      assert es[..0] == [] && es[1..] == [];
    } else {
      RunFromFirst(c, es[..n]);
      assert es[..n][1..] == es[1..][..n - 1] && es[1..][n - 1] == es[n];
    }
  }

  /** Making up n ticks is a run of n ticks. */
  lemma {:induction false} TicksAreRun(c: Calendar, n: nat) returns (es: seq<Event>)
    ensures |es| == n && (forall e :: e in es ==> e == Ticked) && Ticks(c, n) == Run(c, es)
    decreases n
  {
    es := [];
    if n != 0 {
      var fs := TicksAreRun(Tick(c), n - 1);
      es := [Ticked] + fs;
      assert es[1..] == fs;
      RunFromFirst(c, es);
    }
  }

  /** Since the log was was, task x.id has been made ready once, at x.value, and is not in the agenda. */
  ghost predicate Up(was: seq<Item>, c: Calendar, x: Item) {
    was <= c.log && Of(c.agenda, x.id) == [] && Of(c.log[|was|..], x.id) == [x]
  }

  lemma {:induction false} StepStaysUp(was: seq<Item>, c: Calendar, e: Event, x: Item)
    requires Up(was, c, x) && LeavesAlone(e, x.id)
    ensures Up(was, Step(c, e), x)
  {
    match e
    case Ticked =>
      var now := c.clock + 1;
      OfNone(c.agenda, now, x.id);
      OfStamp(Due(c.agenda, now), now, x.id);
      OfAdded(was, c.log, Stamp(Due(c.agenda, now), now), x.id);
    case Slept(id, wait) => OfInsert(c.agenda, Item(c.clock + wait, id), x.id);
    case Woken(id) =>
      OfDrop(c.agenda, id, x.id);
      OfAdded(was, c.log, [Item(c.clock, id)], x.id);
  }

  lemma {:induction false} StaysUp(was: seq<Item>, c: Calendar, es: seq<Event>, x: Item)
    requires Up(was, c, x) && Undisturbed(es, x.id)
    ensures Up(was, Run(c, es), x)
  {
    if es != [] {
      var n := |es| - 1;
      forall e | e in es[..n] ensures e in es {
      }
      StaysUp(was, c, es[..n], x);
      assert es[n] in es;
      StepStaysUp(was, Run(c, es[..n]), es[n], x);
    }
  }

  /** A task readied by an event is readied by that event alone: over every run in which it is neither put to sleep nor woken
      again, the log has exactly one entry of it since, at the time of the event, and no tick readies it. */
  lemma {:induction false} WokenOnce(c: Calendar, id: nat, es: seq<Event>)
    requires Undisturbed(es, id)
    ensures var r := Run(Wake(c, id), es);
      c.log <= r.log && Of(r.agenda, id) == [] && Of(r.log[|c.log|..], id) == [Item(c.clock, id)]
  {
    WakeExact(c, id, id);
    assert Wake(c, id).log[|c.log|..] == [Item(c.clock, id)];
    StaysUp(c.log, Wake(c, id), es, Item(c.clock, id));
  }

  class DelayedTasks {
    /** The number of TickType_t values; portMAX_DELAY is M - 1. */
    const M: nat
    var xTickCount: nat
    var xPendedTicks: nat
    var xNextTaskUnblockTime: nat
    var xNumOfOverflows: nat
    var uxSchedulerSuspended: nat
    var pxDelayedTaskList: seq<Item>
    var pxOverflowDelayedTaskList: seq<Item>
    var xSuspendedTaskList: seq<nat>
    var xPendingReadyList: seq<nat>
    /** The time the tick count last was 0, and how often it has wrapped. */
    ghost var base: nat
    ghost var epoch: nat
    ghost var log: seq<Item>
    /** Timer interrupts since the start, and those lost when xPendedTicks wrapped. */
    ghost var interrupts: nat
    ghost var lost: nat

    ghost function Clock(): nat
      reads this
    {
      base + xTickCount
    }

    ghost function Cal(): Calendar
      reads this
    {
      Calendar(Clock(), Agenda(pxDelayedTaskList, pxOverflowDelayedTaskList, base, M), log)
    }

    ghost predicate Lists()
      reads this
    {
      && 2 <= M && xTickCount < M && xPendedTicks < M && xNextTaskUnblockTime < M
      && Within(pxDelayedTaskList, -1, M) && Within(pxOverflowDelayedTaskList, -1, M)
      && base == EpochStart(epoch, M) && xNumOfOverflows == OverflowsRead(epoch)
    }

    /** Nothing in the current list is due, and xNextTaskUnblockTime is not later than its head. */
    ghost predicate Wheel()
      reads this
    {
      && Lists() && Within(pxDelayedTaskList, xTickCount, M)
      && (pxDelayedTaskList != [] ==> xNextTaskUnblockTime <= pxDelayedTaskList[0].value)
    }

    ghost predicate Valid()
      reads this
    {
      && Wheel() && interrupts == Clock() + xPendedTicks + lost
      && (uxSchedulerSuspended == 0 ==> xPendedTicks == 0)
    }

    /** At every moment the calendar holds wake times of the future only, in order. */
    lemma {:induction false} AgendaIsFuture()
      requires Wheel()
      ensures Future(Cal())
    {
      AgendaSorted(pxDelayedTaskList, pxOverflowDelayedTaskList, base, M);
      var a := Cal().agenda;
      forall y | y in a ensures Clock() < y.value {
        var i :| 0 <= i < |a| && a[i] == y;
        AgendaLength(pxDelayedTaskList, pxOverflowDelayedTaskList, base, M);
        AgendaAt(pxDelayedTaskList, pxOverflowDelayedTaskList, base, M, i);
      }
    }

    constructor (m: nat)
      requires 2 <= m
      ensures Valid() && Cal() == Calendar(0, [], []) && uxSchedulerSuspended == 0 && interrupts == 0 && lost == 0
      ensures M == m && xPendingReadyList == []
    {
      M := m;
      xTickCount, xPendedTicks, xNextTaskUnblockTime, xNumOfOverflows, uxSchedulerSuspended := 0, 0, 0, 0, 0;
      pxDelayedTaskList, pxOverflowDelayedTaskList, xSuspendedTaskList, xPendingReadyList := [], [], [], [];
      base, epoch, log, interrupts, lost := 0, 0, [], 0, 0;
    }

    /** prvAddCurrentTaskToDelayedList. Every caller passes a positive block time. */
    method AddCurrentTaskToDelayedList(id: nat, xTicksToWait: nat, xCanBlockIndefinitely: bool)
      requires Valid() && 0 < xTicksToWait < M
      modifies this`pxDelayedTaskList, this`pxOverflowDelayedTaskList, this`xSuspendedTaskList, this`xNextTaskUnblockTime
      ensures Valid()
      ensures if xTicksToWait == M - 1 && xCanBlockIndefinitely
        then Cal() == old(Cal()) && xSuspendedTaskList == old(xSuspendedTaskList) + [id]
        else Cal() == Sleep(old(Cal()), id, Clock() + xTicksToWait) && unchanged(this`xSuspendedTaskList)
    {
      if xTicksToWait == M - 1 && xCanBlockIndefinitely {
        xSuspendedTaskList := xSuspendedTaskList + [id];
      } else {
        AddToDelayedList(id, xTicksToWait);
      }
    }

    method AddToDelayedList(id: nat, xTicksToWait: nat)
      requires Wheel() && 0 < xTicksToWait < M
      modifies this`pxDelayedTaskList, this`pxOverflowDelayedTaskList, this`xNextTaskUnblockTime
      ensures Wheel() && Cal() == Sleep(old(Cal()), id, Clock() + xTicksToWait)
    {
      var xTimeToWake := WrapAdd(xTickCount, xTicksToWait, M);
      FileWait(pxDelayedTaskList, pxOverflowDelayedTaskList, xTickCount, xTicksToWait, id, base, M);
      if xTimeToWake < xTickCount {
        pxOverflowDelayedTaskList := Insert(pxOverflowDelayedTaskList, Item(xTimeToWake, id));
      } else {
        pxDelayedTaskList := Insert(pxDelayedTaskList, Item(xTimeToWake, id));
        if xTimeToWake < xNextTaskUnblockTime {
          xNextTaskUnblockTime := xTimeToWake;
        }
      }
    }

    /** prvResetNextTaskUnblockTime */
    method ResetNextTaskUnblockTime()
      requires 2 <= M && Within(pxDelayedTaskList, -1, M)
      modifies this`xNextTaskUnblockTime
      ensures xNextTaskUnblockTime == if pxDelayedTaskList == [] then M - 1 else pxDelayedTaskList[0].value
    {
      if pxDelayedTaskList == [] {
        xNextTaskUnblockTime := M - 1;
      } else {
        xNextTaskUnblockTime := pxDelayedTaskList[0].value;
      }
    }

    /** taskSWITCH_DELAYED_LISTS. The source asserts, and here it is proved by the caller, that the
        current list is empty. */
    method SwitchDelayedLists()
      requires 2 <= M && pxDelayedTaskList == [] && Within(pxOverflowDelayedTaskList, -1, M)
      requires base == EpochStart(epoch, M) && xNumOfOverflows == OverflowsRead(epoch)
      modifies this`pxDelayedTaskList, this`pxOverflowDelayedTaskList, this`xNumOfOverflows,
        this`xNextTaskUnblockTime, this`base, this`epoch
      ensures Within(pxDelayedTaskList, -1, M) && pxOverflowDelayedTaskList == [] && base == old(base) + M
      ensures base == EpochStart(epoch, M) && xNumOfOverflows == OverflowsRead(epoch)
      ensures Agenda(pxDelayedTaskList, pxOverflowDelayedTaskList, base, M)
        == old(Agenda(pxDelayedTaskList, pxOverflowDelayedTaskList, base, M))
      ensures xNextTaskUnblockTime == if pxDelayedTaskList == [] then M - 1 else pxDelayedTaskList[0].value
    {
      SwitchKeepsAgenda(pxOverflowDelayedTaskList, base, M);
      pxDelayedTaskList, pxOverflowDelayedTaskList := pxOverflowDelayedTaskList, pxDelayedTaskList;
      xNumOfOverflows := WrapAdd(xNumOfOverflows, 1, BASE_TYPE_VALUES);
      base, epoch := base + M, epoch + 1;
      ResetNextTaskUnblockTime();
    }

    lemma {:induction false} InNeitherList(id: nat)
      ensures !HasId(Drop(pxDelayedTaskList, id), id) && !HasId(Drop(pxOverflowDelayedTaskList, id), id)
    {
      OfDropped(pxDelayedTaskList, id);
      NotListed(Drop(pxDelayedTaskList, id), id);
      OfDropped(pxOverflowDelayedTaskList, id);
      NotListed(Drop(pxOverflowDelayedTaskList, id), id);
    }

    /** The state item of a blocked task leaves whichever list it is in, for an event or an abort, and
        the task is made ready. xNextTaskUnblockTime is left as it is. */
    method Unblock(id: nat)
      requires Wheel()
      modifies this`pxDelayedTaskList, this`pxOverflowDelayedTaskList, this`xSuspendedTaskList, this`log
      ensures Wheel() && Cal() == Wake(old(Cal()), id)
      ensures !HasId(pxDelayedTaskList, id) && !HasId(pxOverflowDelayedTaskList, id)
      ensures forall u :: u in xSuspendedTaskList <==> u in old(xSuspendedTaskList) && u != id
    {
      InNeitherList(id);
      WithoutMembers(xSuspendedTaskList, id);
      DropAgenda(pxDelayedTaskList, pxOverflowDelayedTaskList, id, base, M);
      DropWithin(pxDelayedTaskList, id, xTickCount, M);
      DropWithin(pxOverflowDelayedTaskList, id, -1, M);
      pxDelayedTaskList := Drop(pxDelayedTaskList, id);
      pxOverflowDelayedTaskList := Drop(pxOverflowDelayedTaskList, id);
      xSuspendedTaskList := Without(xSuspendedTaskList, id);
      log := log + [Item(Clock(), id)];
    }

    /** The branch of xTaskIncrementTick taken while the scheduler runs. */
    method CountTick()
      requires Wheel()
      modifies this`xTickCount, this`pxDelayedTaskList, this`pxOverflowDelayedTaskList, this`xNumOfOverflows,
        this`xNextTaskUnblockTime, this`base, this`epoch, this`log
      ensures Wheel() && Cal() == Tick(old(Cal()))
    {
      AdvanceTick();
      if xTickCount >= xNextTaskUnblockTime {
        ReadyDue(xTickCount);
      } else {
        NothingDue(pxDelayedTaskList, pxOverflowDelayedTaskList, xTickCount, base, M);
      }
    }

    method AdvanceTick()
      requires Wheel()
      modifies this`xTickCount, this`pxDelayedTaskList, this`pxOverflowDelayedTaskList, this`xNumOfOverflows,
        this`xNextTaskUnblockTime, this`base, this`epoch
      ensures Lists() && Clock() == old(Clock()) + 1 && Cal().agenda == old(Cal()).agenda
      ensures pxDelayedTaskList != [] ==> xNextTaskUnblockTime <= pxDelayedTaskList[0].value
    {
      xTickCount := WrapAdd(xTickCount, 1, M);
      if xTickCount == 0 {
        NothingAfterLast(pxDelayedTaskList, M);
        SwitchDelayedLists();
      }
    }

    /** The loop of xTaskIncrementTick that moves expired tasks to the ready lists. */
    method ReadyDue(xConstTickCount: nat)
      requires Lists() && xConstTickCount == xTickCount
      modifies this`pxDelayedTaskList, this`xNextTaskUnblockTime, this`log
      ensures Wheel()
      ensures Cal() == Calendar(Clock(), Rest(old(Cal()).agenda, Clock()),
                                old(log) + Stamp(Due(old(Cal()).agenda, Clock()), Clock()))
    {
      ghost var agenda, now := Cal().agenda, Clock();
      while true
        invariant Lists() && Rest(Cal().agenda, now) == Rest(agenda, now)
        invariant log + Stamp(Due(Cal().agenda, now), now) == old(log) + Stamp(Due(agenda, now), now)
        decreases |pxDelayedTaskList|
      {
        if pxDelayedTaskList == [] {
          NothingDue(pxDelayedTaskList, pxOverflowDelayedTaskList, xTickCount, base, M);
          xNextTaskUnblockTime := M - 1;
          break;
        }
        var pxTCB := pxDelayedTaskList[0];
        if xConstTickCount < pxTCB.value {
          NothingDue(pxDelayedTaskList, pxOverflowDelayedTaskList, xTickCount, base, M);
          xNextTaskUnblockTime := pxTCB.value;
          break;
        }
        HeadDue(pxDelayedTaskList, pxOverflowDelayedTaskList, xTickCount, base, M);
        StampCons(log, Item(Clock(), pxTCB.id), Due(Agenda(pxDelayedTaskList[1..], pxOverflowDelayedTaskList, base, M), now), now);
        pxDelayedTaskList := pxDelayedTaskList[1..];
        log := log + [Item(now, pxTCB.id)];
      }
    }

    /** xTaskIncrementTick, as the tick interrupt calls it */
    method IncrementTick()
      requires Valid()
      modifies this
      ensures Valid() && interrupts == old(interrupts) + 1
      ensures uxSchedulerSuspended == old(uxSchedulerSuspended) && xPendingReadyList == old(xPendingReadyList)
      ensures uxSchedulerSuspended == 0 ==> Cal() == Tick(old(Cal())) && lost == old(lost)
      ensures uxSchedulerSuspended != 0 ==> Cal() == old(Cal())
      ensures uxSchedulerSuspended != 0 ==> lost == old(lost) + if old(xPendedTicks) + 1 < M then 0 else M
    {
      interrupts := interrupts + 1;
      if uxSchedulerSuspended == 0 {
        CountTick();
      } else {
        lost := if xPendedTicks + 1 < M then lost else lost + M;
        xPendedTicks := WrapAdd(xPendedTicks, 1, M);
      }
    }

    /** vTaskSuspendAll */
    method SuspendAll()
      requires Valid()
      modifies this`uxSchedulerSuspended
      ensures Valid() && uxSchedulerSuspended == old(uxSchedulerSuspended) + 1
    {
      uxSchedulerSuspended := uxSchedulerSuspended + 1;
    }

    /** xTaskResumeAll: the outermost call first readies the pending tasks, then makes up every tick
        that was pended. */
    method ResumeAll()
      requires Valid() && uxSchedulerSuspended != 0
      modifies this
      ensures Valid() && uxSchedulerSuspended == old(uxSchedulerSuspended) - 1
      ensures interrupts == old(interrupts) && lost == old(lost)
      ensures uxSchedulerSuspended != 0 ==> Cal() == old(Cal()) && xPendingReadyList == old(xPendingReadyList)
      ensures uxSchedulerSuspended == 0 ==>
        && Cal() == Ticks(WakeAll(old(Cal()), old(xPendingReadyList)), old(xPendedTicks))
        && xPendingReadyList == [] && Clock() + lost == interrupts
      ensures uxSchedulerSuspended == 0 ==>
        forall id :: id in old(xPendingReadyList) ==> !HasId(Cal().agenda, id) && id !in xSuspendedTaskList
    {
      uxSchedulerSuspended := uxSchedulerSuspended - 1;
      if uxSchedulerSuspended == 0 {
        ResumeScheduler();
      }
    }

    method ResumeScheduler()
      requires Wheel()
      modifies this`xTickCount, this`pxDelayedTaskList, this`pxOverflowDelayedTaskList, this`xNumOfOverflows,
        this`xNextTaskUnblockTime, this`xPendedTicks, this`base, this`epoch, this`log, this`xSuspendedTaskList,
        this`xPendingReadyList
      ensures Wheel() && xPendedTicks == 0 && xPendingReadyList == [] && Clock() == old(Clock()) + old(xPendedTicks)
      ensures Cal() == Ticks(WakeAll(old(Cal()), old(xPendingReadyList)), old(xPendedTicks))
      ensures forall id :: id in old(xPendingReadyList) ==> !HasId(Cal().agenda, id) && id !in xSuspendedTaskList
    {
      ghost var c, pending, n := Cal(), xPendingReadyList, xPendedTicks;
      MovePendingReady();
      MakeUpPendedTicks();
      PendingLeave(c, pending, n);
    }

    method MovePendingReady()
      requires Wheel()
      modifies this`pxDelayedTaskList, this`pxOverflowDelayedTaskList, this`xSuspendedTaskList,
        this`xPendingReadyList, this`xNextTaskUnblockTime, this`log
      ensures Wheel() && xPendingReadyList == []
      ensures Cal() == WakeAll(old(Cal()), old(xPendingReadyList)) && Clock() == old(Clock())
      ensures forall u :: u in xSuspendedTaskList <==> u in old(xSuspendedTaskList) && u !in old(xPendingReadyList)
    {
      var pxTCB := false;
      while xPendingReadyList != []
        invariant Wheel()
        invariant WakeAll(Cal(), xPendingReadyList) == WakeAll(old(Cal()), old(xPendingReadyList))
        invariant forall u :: u in xPendingReadyList ==> u in old(xPendingReadyList)
        invariant forall u :: u in xSuspendedTaskList && u !in xPendingReadyList <==>
                              u in old(xSuspendedTaskList) && u !in old(xPendingReadyList)
        decreases |xPendingReadyList|
      {
        pxTCB := true;
        var id := xPendingReadyList[0];
        assert xPendingReadyList == [id] + xPendingReadyList[1..];
        xPendingReadyList := xPendingReadyList[1..];
        Unblock(id);
      }
      if pxTCB {
        ResetNextTaskUnblockTime();
      }
    }

    method MakeUpPendedTicks()
      requires Wheel()
      modifies this`xTickCount, this`pxDelayedTaskList, this`pxOverflowDelayedTaskList, this`xNumOfOverflows,
        this`xNextTaskUnblockTime, this`xPendedTicks, this`base, this`epoch, this`log
      ensures Wheel() && xPendedTicks == 0
      ensures Cal() == Ticks(old(Cal()), old(xPendedTicks)) && Clock() == old(Clock()) + old(xPendedTicks)
    {
      var xPendedCounts := xPendedTicks;
      while xPendedCounts > 0
        invariant Wheel()
        invariant Ticks(Cal(), xPendedCounts) == Ticks(old(Cal()), old(xPendedTicks))
        invariant Clock() + xPendedCounts == old(Clock()) + old(xPendedTicks)
      {
        CountTick();
        xPendedCounts := xPendedCounts - 1;
      }
      xPendedTicks := 0;
    }
  }

  /** Who was pending is in nobody's way any more: the ticks made up do not ready it again. */
  lemma {:induction false} PendingLeave(c: Calendar, pending: seq<nat>, n: nat)
    ensures forall id :: id in pending ==> !HasId(Ticks(WakeAll(c, pending), n).agenda, id)
  {
    forall id | id in pending ensures !HasId(Ticks(WakeAll(c, pending), n).agenda, id) {
      WakeAllExact(c, pending, id);
      TicksLeaveOut(WakeAll(c, pending), n, id);
      NotListed(Ticks(WakeAll(c, pending), n).agenda, id);
    }
  }

  /** What can happen to the calendar. */
  datatype Event = Ticked | Slept(id: nat, wait: nat) | Woken(id: nat)

  function Step(c: Calendar, e: Event): Calendar {
    match e
    case Ticked => Tick(c)
    case Slept(id, wait) => Sleep(c, id, c.clock + wait)
    case Woken(id) => Wake(c, id)
  }

  function Run(c: Calendar, es: seq<Event>): Calendar {
    if es == [] then c else Step(Run(c, es[..|es| - 1]), es[|es| - 1])
  }

  /** Whether task id is left to sleep. */
  predicate LeavesAlone(e: Event, id: nat) {
    match e
    case Ticked => true
    case Slept(other, wait) => other != id && 0 < wait
    case Woken(other) => other != id
  }

  ghost predicate Undisturbed(es: seq<Event>, id: nat) {
    forall e :: e in es ==> LeavesAlone(e, id)
  }

  function CountTicks(es: seq<Event>): nat {
    if es == [] then 0 else CountTicks(es[..|es| - 1]) + if es[|es| - 1].Ticked? then 1 else 0
  }

  /** The items of one task, in order and each as often as it occurs. */
  function Of(s: seq<Item>, id: nat): seq<Item> {
    if s == [] then [] else (if s[0].id == id then [s[0]] else []) + Of(s[1..], id)
  }

  lemma {:induction false} OfConcat(a: seq<Item>, b: seq<Item>, id: nat)
    ensures Of(a + b, id) == Of(a, id) + Of(b, id)
  {
    if a == [] {
      assert a + b == b && Of(a, id) == [];
    } else {
      var first := if a[0].id == id then [a[0]] else [];
      assert (a + b)[0] == a[0] && (a + b)[1..] == a[1..] + b;
      OfConcat(a[1..], b, id);
      assert first + (Of(a[1..], id) + Of(b, id)) == (first + Of(a[1..], id)) + Of(b, id);
    }
  }

  lemma {:induction false} OfInsert(s: seq<Item>, x: Item, id: nat)
    ensures x.id != id ==> Of(Insert(s, x), id) == Of(s, id)
    ensures x.id == id && Of(s, id) == [] ==> Of(Insert(s, x), id) == [x]
  {
    if s == [] || x.value < s[0].value {
      assert ([x] + s)[1..] == s;
    } else {
      assert ([s[0]] + Insert(s[1..], x))[1..] == Insert(s[1..], x);
      OfInsert(s[1..], x, id);
    }
  }

  lemma {:induction false} OfDrop(s: seq<Item>, other: nat, id: nat)
    requires other != id
    ensures Of(Drop(s, other), id) == Of(s, id)
  {
    if s != [] {
      OfDrop(s[1..], other, id);
      assert s[0].id != other ==> Drop(s, other)[1..] == Drop(s[1..], other);
    }
  }

  /** A sorted agenda with one item of a task has it among the due or among the rest, by its time alone. */
  lemma {:induction false} OfDue(s: seq<Item>, now: nat, x: Item)
    requires Sorted(s) && Of(s, x.id) == [x]
    ensures Of(Due(s, now), x.id) == if x.value <= now then [x] else []
    ensures Of(Rest(s, now), x.id) == if x.value <= now then [] else [x]
  {
    assert x in Of(s, x.id);
    OfMember(s, x.id);
    SortedTail(s);
    assert s == [s[0]] + s[1..];
    if s[0].value <= now {
      assert ([s[0]] + Due(s[1..], now))[1..] == Due(s[1..], now);
      if s[0].id == x.id {
        assert s[0] == Of(s, x.id)[0] && Of(s[1..], x.id) == Of(s, x.id)[1..] == [];
        OfNone(s[1..], now, x.id);
      } else {
        assert Of(s, x.id) == Of(s[1..], x.id);
        OfDue(s[1..], now, x);
      }
    }
  }

  lemma {:induction false} OfMember(s: seq<Item>, id: nat)
    ensures forall y :: y in Of(s, id) ==> y in s
  {
    if s != [] {
      assert s == [s[0]] + s[1..];
      OfMember(s[1..], id);
    }
  }

  lemma {:induction false} OfNone(s: seq<Item>, now: nat, id: nat)
    requires Of(s, id) == []
    ensures Of(Due(s, now), id) == [] && Of(Rest(s, now), id) == []
  {
    if s != [] && s[0].value <= now {
      assert ([s[0]] + Due(s[1..], now))[1..] == Due(s[1..], now);
      OfNone(s[1..], now, id);
    }
  }

  lemma {:induction false} OfStamp(s: seq<Item>, now: nat, id: nat)
    ensures |Of(s, id)| == 0 ==> Of(Stamp(s, now), id) == []
    ensures |Of(s, id)| == 1 ==> Of(Stamp(s, now), id) == [Item(now, id)]
  {
    if s != [] {
      assert Stamp(s, now)[1..] == Stamp(s[1..], now);
      OfStamp(s[1..], now, id);
    }
  }

  /** What is added to the log of one task */
  lemma {:induction false} OfAdded(was: seq<Item>, log: seq<Item>, added: seq<Item>, id: nat)
    requires was <= log
    ensures was <= log + added && Of((log + added)[|was|..], id) == Of(log[|was|..], id) + Of(added, id)
  {
    assert (log + added)[|was|..] == log[|was|..] + added;
    OfConcat(log[|was|..], added, id);
  }

  /** Since the log was was, task x.id has slept until x.value, or was made ready once and at exactly that time. */
  ghost predicate AsleepOrReadied(was: seq<Item>, agenda: seq<Item>, log: seq<Item>, now: nat, x: Item) {
    && was <= log
    && Of(agenda, x.id) == (if now < x.value then [x] else [])
    && Of(log[|was|..], x.id) == (if now < x.value then [] else [x])
  }

  ghost predicate OnTime(was: seq<Item>, c: Calendar, x: Item) {
    Future(c) && AsleepOrReadied(was, c.agenda, c.log, c.clock, x)
  }

  /** Every sleep ends on time, whatever happened before it. From the moment a task goes to sleep for w ticks, and over
      every run in which nothing else wakes it or puts it to sleep, it is asleep and not made ready until the clock
      reaches its wake time; the tick that brings the clock there makes it ready, once, and no later tick does. */
  lemma {:induction false} WakesOnTime(c: Calendar, id: nat, w: nat, es: seq<Event>)
    requires Future(c) && Of(c.agenda, id) == [] && 0 < w && Undisturbed(es, id)
    ensures var r := Run(Sleep(c, id, c.clock + w), es);
      OnTime(c.log, r, Item(c.clock + w, id)) && r.clock == c.clock + CountTicks(es)
  {
    SleepsOnTime(c, id, w);
    StaysOnTime(c.log, Sleep(c, id, c.clock + w), es, Item(c.clock + w, id));
  }

  lemma {:induction false} SleepsOnTime(c: Calendar, id: nat, w: nat)
    requires Future(c) && Of(c.agenda, id) == [] && 0 < w
    ensures OnTime(c.log, Sleep(c, id, c.clock + w), Item(c.clock + w, id))
  {
    SleepKeepsFuture(c, id, w);
    OfInsert(c.agenda, Item(c.clock + w, id), id);
    assert c.log[|c.log|..] == [];
  }

  lemma {:induction false} SleepKeepsFuture(c: Calendar, id: nat, w: nat)
    requires Future(c) && 0 < w
    ensures Future(Sleep(c, id, c.clock + w))
  {
    var z := Item(c.clock + w, id);
    InsertSorted(c.agenda, z);
    forall y ensures y in Insert(c.agenda, z) <==> y in c.agenda || y == z {
      InsertMembers(c.agenda, z, y);
    }
  }

  lemma {:induction false} StaysOnTime(was: seq<Item>, c: Calendar, es: seq<Event>, x: Item)
    requires OnTime(was, c, x) && Undisturbed(es, x.id)
    ensures OnTime(was, Run(c, es), x) && Run(c, es).clock == c.clock + CountTicks(es)
  {
    if es != [] {
      var n := |es| - 1;
      assert Undisturbed(es[..n], x.id) by {
        forall e | e in es[..n] ensures e in es {}
      }
      StaysOnTime(was, c, es[..n], x);
      assert es[n] in es;
      StepOnTime(was, Run(c, es[..n]), es[n], x);
    }
  }

  lemma {:induction false} StepOnTime(was: seq<Item>, c: Calendar, e: Event, x: Item)
    requires OnTime(was, c, x) && LeavesAlone(e, x.id)
    ensures OnTime(was, Step(c, e), x) && Step(c, e).clock == c.clock + if e.Ticked? then 1 else 0
  {
    match e
    case Ticked => OnTimeTick(was, c, x);
    case Slept(id, wait) => OnTimeSleep(was, c, id, wait, x);
    case Woken(id) => OnTimeWake(was, c, id, x);
  }

  lemma {:induction false} TickKeepsFuture(c: Calendar)
    requires Future(c)
    ensures Future(Tick(c))
  {
    forall y ensures y in Rest(c.agenda, c.clock + 1) <==> y in c.agenda && c.clock + 1 < y.value {
      DueExactly(c.agenda, c.clock + 1, y);
    }
    DueExactly(c.agenda, c.clock + 1, Item(0, 0));
  }

  /** What a tick readies of a task that has one item, or none */
  lemma {:induction false} DueOfTask(agenda: seq<Item>, now: nat, x: Item)
    requires Sorted(agenda) && Of(agenda, x.id) == (if now <= x.value then [x] else [])
    ensures Of(Rest(agenda, now), x.id) == (if now < x.value then [x] else [])
    ensures Of(Stamp(Due(agenda, now), now), x.id) == (if now == x.value then [x] else [])
  {
    if now <= x.value {
      OfDue(agenda, now, x);
    } else {
      OfNone(agenda, now, x.id);
    }
    OfStamp(Due(agenda, now), now, x.id);
  }

  lemma {:induction false} OneTick(was: seq<Item>, agenda: seq<Item>, log: seq<Item>, now: nat, x: Item)
    requires Sorted(agenda) && 0 < now && AsleepOrReadied(was, agenda, log, now - 1, x)
    ensures AsleepOrReadied(was, Rest(agenda, now), log + Stamp(Due(agenda, now), now), now, x)
  {
    DueOfTask(agenda, now, x);
    OfAdded(was, log, Stamp(Due(agenda, now), now), x.id);
  }

  lemma {:induction false} OnTimeTick(was: seq<Item>, c: Calendar, x: Item)
    requires OnTime(was, c, x)
    ensures OnTime(was, Tick(c), x)
  {
    TickKeepsFuture(c);
    OneTick(was, c.agenda, c.log, c.clock + 1, x);
  }

  lemma {:induction false} OnTimeSleep(was: seq<Item>, c: Calendar, id: nat, wait: nat, x: Item)
    requires OnTime(was, c, x) && id != x.id && 0 < wait
    ensures OnTime(was, Sleep(c, id, c.clock + wait), x)
  {
    SleepKeepsFuture(c, id, wait);
    OfInsert(c.agenda, Item(c.clock + wait, id), x.id);
  }

  lemma {:induction false} OnTimeWake(was: seq<Item>, c: Calendar, id: nat, x: Item)
    requires OnTime(was, c, x) && id != x.id
    ensures OnTime(was, Wake(c, id), x)
  {
    DropKeepsSorted(c.agenda, id);
    forall y ensures y in Drop(c.agenda, id) <==> y in c.agenda && y.id != id {
      DropMembers(c.agenda, id, y);
    }
    OfDrop(c.agenda, id, x.id);
    OfAdded(was, c.log, [Item(c.clock, id)], x.id);
    assert [Item(c.clock, id)][1..] == [];
  }

  /** As many interrupts as there are tick counts, all while the scheduler is suspended, are lost together: after the
      resume the clock has not moved. */
  method LosesTicks(m: nat) returns (d: DelayedTasks)
    requires 2 <= m
    ensures fresh(d) && d.Valid() && d.M == m && d.uxSchedulerSuspended == 0
    ensures d.interrupts == m && d.Clock() == 0 && d.lost == m
  {
    d := new DelayedTasks(m);
    d.SuspendAll();
    var i := 0;
    while i < m
      invariant i <= m && d.Valid() && d.uxSchedulerSuspended == 1 && d.interrupts == i && d.M == m
      invariant d.Cal() == Calendar(0, [], []) && d.lost == (if i < m then 0 else m)
      invariant d.xPendingReadyList == []
    {
      d.IncrementTick();
      i := i + 1;
    }
    d.ResumeAll();
  }
}
