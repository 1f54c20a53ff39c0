/** OS/croutine.c: delayed co-routines, caught up in one go however long the scheduler was away. */
module CoRoutines {
  import opened SortedLists
  import opened TimeWheel

  lemma {:induction false} DueInTwoSteps(s: seq<Item>, t: nat, u: nat)
    requires t <= u
    ensures Due(s, u) == Due(s, t) + Due(Rest(s, t), u) && Rest(s, u) == Rest(Rest(s, t), u)
  {
    if s != [] && s[0].value <= t {
      DueInTwoSteps(s[1..], t, u);
    }
  }

  /** One tick more readies what is due then of the rest. */
  lemma {:induction false} DueNext(agenda: seq<Item>, begun: seq<Item>, was: seq<Item>, log: seq<Item>, now: nat)
    requires was == begun + Due(agenda, now) && log == was + Due(Rest(agenda, now), now + 1)
    ensures log == begun + Due(agenda, now + 1) && Rest(Rest(agenda, now), now + 1) == Rest(agenda, now + 1)
  {
    DueInTwoSteps(agenda, now, now + 1);
  }

  class CoRoutines {
    const M: nat
    var xCoRoutineTickCount: nat
    var xLastTickCount: nat
    var xPassedTicks: nat
    var pxDelayedCoRoutineList: seq<Item>
    var pxOverflowDelayedCoRoutineList: seq<Item>
    ghost var base: nat
    /** When each co-routine was moved to its ready list. */
    ghost var log: seq<Item>

    ghost function Clock(): nat
      reads this
    {
      base + xCoRoutineTickCount
    }

    ghost function Delayed(): seq<Item>
      reads this
    {
      Agenda(pxDelayedCoRoutineList, pxOverflowDelayedCoRoutineList, base, M)
    }

    ghost predicate Wheel(lo: int)
      reads this
    {
      && 2 <= M && xCoRoutineTickCount < M
      && Within(pxDelayedCoRoutineList, lo, M) && Within(pxOverflowDelayedCoRoutineList, -1, M)
    }

    ghost predicate Valid()
      reads this
    {
      Wheel(xCoRoutineTickCount) && xLastTickCount == xCoRoutineTickCount
    }

    constructor (m: nat)
      requires 2 <= m
      ensures Valid() && Clock() == 0 && Delayed() == [] && log == []
    {
      M, xCoRoutineTickCount, xLastTickCount, xPassedTicks := m, 0, 0, 0;
      pxDelayedCoRoutineList, pxOverflowDelayedCoRoutineList := [], [];
      base, log := 0, [];
    }

    /** vCoRoutineAddToDelayedList; its callers pass a positive delay. */
    method AddToDelayedList(id: nat, xTicksToDelay: nat)
      requires Valid() && 0 < xTicksToDelay < M
      modifies this`pxDelayedCoRoutineList, this`pxOverflowDelayedCoRoutineList
      ensures Valid() && Delayed() == Insert(old(Delayed()), Item(Clock() + xTicksToDelay, id))
    {
      var xTimeToWake := WrapAdd(xCoRoutineTickCount, xTicksToDelay, M);
      FileWait(pxDelayedCoRoutineList, pxOverflowDelayedCoRoutineList, xCoRoutineTickCount, xTicksToDelay, id, base, M);
      if xTimeToWake < xCoRoutineTickCount {
        pxOverflowDelayedCoRoutineList := Insert(pxOverflowDelayedCoRoutineList, Item(xTimeToWake, id));
      } else {
        pxDelayedCoRoutineList := Insert(pxDelayedCoRoutineList, Item(xTimeToWake, id));
      }
    }

    /** prvCheckDelayedList, with the tick count it samples. Fewer than M ticks have gone by since the last
        call. Exactly the co-routines due by the sample are readied, each as of its own wake time
        and in wake order, through any number of list swaps. */
    method CheckDelayedList(xTickCount: nat)
      requires Valid() && xTickCount < M
      modifies this
      ensures Valid() && xCoRoutineTickCount == xTickCount
      ensures Clock() == old(Clock()) + WrapSub(xTickCount, old(xLastTickCount), M)
      ensures log == old(log) + Due(old(Delayed()), Clock()) && Delayed() == Rest(old(Delayed()), Clock())
    {
      xPassedTicks := WrapSub(xTickCount, xLastTickCount, M);
      NothingDue(pxDelayedCoRoutineList, pxOverflowDelayedCoRoutineList, xCoRoutineTickCount, base, M);
      CatchUp(xTickCount);
      xLastTickCount := xCoRoutineTickCount;
    }

    method CatchUp(ghost xTickCount: nat)
      requires Wheel(xCoRoutineTickCount) && xPassedTicks < M
      requires WrapAdd(xCoRoutineTickCount, xPassedTicks, M) == xTickCount
      requires Due(Delayed(), Clock()) == [] && Rest(Delayed(), Clock()) == Delayed()
      modifies this`xCoRoutineTickCount, this`xPassedTicks, this`pxDelayedCoRoutineList,
        this`pxOverflowDelayedCoRoutineList, this`base, this`log
      ensures Wheel(xCoRoutineTickCount) && xCoRoutineTickCount == xTickCount && Clock() == old(Clock()) + old(xPassedTicks)
      ensures log == old(log) + Due(old(Delayed()), Clock()) && Delayed() == Rest(old(Delayed()), Clock())
    {
      ghost var agenda, begun, target := Delayed(), log, Clock() + xPassedTicks;
      while xPassedTicks != 0
        invariant xPassedTicks < M && CatchingUp(xTickCount, agenda, begun, target)
        decreases xPassedTicks
      {
        CatchUpOne(xTickCount, agenda, begun, target);
      }
    }

    /** xPassedTicks are still to be made up; what was due so far has been readied. */
    ghost predicate CatchingUp(xTickCount: nat, agenda: seq<Item>, begun: seq<Item>, target: nat)
      requires xPassedTicks < M
      reads this
    {
      && Wheel(xCoRoutineTickCount)
      && WrapAdd(xCoRoutineTickCount, xPassedTicks, M) == xTickCount && Clock() + xPassedTicks == target
      && log == begun + Due(agenda, Clock()) && Delayed() == Rest(agenda, Clock())
    }

    method CatchUpOne(ghost xTickCount: nat, ghost agenda: seq<Item>, ghost begun: seq<Item>, ghost target: nat)
      requires 0 < xPassedTicks < M && CatchingUp(xTickCount, agenda, begun, target)
      modifies this`xCoRoutineTickCount, this`xPassedTicks, this`pxDelayedCoRoutineList,
        this`pxOverflowDelayedCoRoutineList, this`base, this`log
      ensures xPassedTicks == old(xPassedTicks) - 1 && xPassedTicks < M && CatchingUp(xTickCount, agenda, begun, target)
    {
      ghost var now, was := Clock(), log;
      PassTick();
      DueNext(agenda, begun, was, log, now);
    }

    /** One tick of the outer loop of prvCheckDelayedList. */
    method PassTick()
      requires Wheel(xCoRoutineTickCount) && xPassedTicks != 0
      modifies this`xCoRoutineTickCount, this`xPassedTicks, this`pxDelayedCoRoutineList,
        this`pxOverflowDelayedCoRoutineList, this`base, this`log
      ensures Wheel(xCoRoutineTickCount) && xPassedTicks == old(xPassedTicks) - 1
      ensures Clock() == old(Clock()) + 1 && xCoRoutineTickCount == WrapAdd(old(xCoRoutineTickCount), 1, M)
      ensures log == old(log) + Due(old(Delayed()), Clock()) && Delayed() == Rest(old(Delayed()), Clock())
    {
      xCoRoutineTickCount := WrapAdd(xCoRoutineTickCount, 1, M);
      xPassedTicks := xPassedTicks - 1;
      if xCoRoutineTickCount == 0 {
        // every delayed co-routine of the old epoch has been readied by its last tick
        NothingAfterLast(pxDelayedCoRoutineList, M);
        SwitchKeepsAgenda(pxOverflowDelayedCoRoutineList, base, M);
        pxDelayedCoRoutineList, pxOverflowDelayedCoRoutineList := pxOverflowDelayedCoRoutineList, pxDelayedCoRoutineList;
        base := base + M;
      }
      ReadyExpired();
    }

    /** The inner loop of prvCheckDelayedList. */
    method ReadyExpired()
      requires Wheel(xCoRoutineTickCount - 1)
      modifies this`pxDelayedCoRoutineList, this`log
      ensures Wheel(xCoRoutineTickCount)
      ensures log == old(log) + Due(old(Delayed()), Clock()) && Delayed() == Rest(old(Delayed()), Clock())
    {
      ghost var agenda, begun, now := Delayed(), log, Clock();
      while pxDelayedCoRoutineList != []
        invariant Wheel(xCoRoutineTickCount - 1)
        invariant Readying(agenda, begun, Delayed(), log, now)
      {
        var pxCRCB := pxDelayedCoRoutineList[0];
        if xCoRoutineTickCount < pxCRCB.value {
          break;
        }
        ReadyHead(agenda, begun, log, pxDelayedCoRoutineList, pxOverflowDelayedCoRoutineList, xCoRoutineTickCount, base, M);
        pxDelayedCoRoutineList := pxDelayedCoRoutineList[1..];
        log := log + [Item(Clock(), pxCRCB.id)];
      }
      NothingDue(pxDelayedCoRoutineList, pxOverflowDelayedCoRoutineList, xCoRoutineTickCount, base, M);
    }
  }

  /** Of agenda, what was due by now is partly in the log already; the rest of it is at the front of what is left. */
  ghost predicate Readying(agenda: seq<Item>, begun: seq<Item>, left: seq<Item>, log: seq<Item>, now: nat) {
    log + Due(left, now) == begun + Due(agenda, now) && Rest(left, now) == Rest(agenda, now)
  }

  lemma {:induction false} ReadyHead(agenda: seq<Item>, begun: seq<Item>, log: seq<Item>, current: seq<Item>,
                                     overflow: seq<Item>, tick: nat, base: nat, M: nat)
    requires current != [] && Within(current, tick - 1, M) && current[0].value <= tick
    requires Readying(agenda, begun, Agenda(current, overflow, base, M), log, base + tick)
    ensures Within(current[1..], tick - 1, M)
    ensures Readying(agenda, begun, Agenda(current[1..], overflow, base, M), log + [Item(base + tick, current[0].id)], base + tick)
  {
    HeadDue(current, overflow, tick, base, M);
    SortedTail(current);
    assert current[0].value == tick;
  }
}
