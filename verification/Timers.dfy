/** OS/timers.c: software timers and the daemon that serves them.

    Times are tick counts that wrap at M. The ghost base is the absolute time of the last wrap the
    daemon has seen, so Now() is the unbounded time of its last sample, and the two timer lists are
    one agenda of absolute expiry times (TimeWheel). */
module Timers {
  import opened SortedLists
  import opened TimeWheel

  datatype Placement = ProcessNow | ToCurrent | ToOverflow

  /** The decision of prvInsertTimerInActiveList. */
  function Place(xNextExpiryTime: nat, xTimeNow: nat, xCommandTime: nat, period: nat, M: nat): Placement
    requires xTimeNow < M && xCommandTime < M
  {
    if xNextExpiryTime <= xTimeNow then
      if WrapSub(xTimeNow, xCommandTime, M) >= period then ProcessNow else ToOverflow
    else
      if xTimeNow < xCommandTime && xNextExpiryTime >= xCommandTime then ProcessNow else ToCurrent
  }

  /** Placement is exact: for a command issued at C and processed at N less than M ticks later, a timer is
      processed at once just when its expiry has passed, and else is filed into the list of the epoch
      its expiry is in. */
  lemma PlacementExact(C: nat, N: nat, period: nat, base: nat, M: nat)
    requires base <= N < base + M && C <= N < C + M && 0 < period < M
    ensures var expiry := WrapAdd(TickAt(C, base, M), period, M);
      match Place(expiry, N - base, TickAt(C, base, M), period, M)
      case ProcessNow => C + period <= N
      case ToCurrent => N < C + period == base + expiry
      case ToOverflow => N < C + period == base + M + expiry && expiry < N - base
  {
  }

  /** Of a timer control block, what the lists and the callbacks depend on. */
  datatype Timer = Timer(period: nat, autoReload: bool, active: bool)

  /** When a timer was last started, and how often its callback has run since. */
  datatype Schedule = Schedule(start: nat, fired: nat)

  datatype Command = Start(issued: nat) | Stop | ChangePeriod(period: nat)

  /** A message of the timer queue, with the tick count the daemon samples after receiving it. */
  datatype Message = Message(id: nat, command: Command, sampled: nat)

  function MessageIds(messages: seq<Message>): set<nat> {
    set m | m in messages :: m.id
  }

  /** A start or reset is handled, at absolute time now, less than M ticks after it was issued; the period
      of a change is positive. */
  predicate Legal(command: Command, sampled: nat, now: nat, M: nat) {
    && sampled < M
    && (command.Start? ==> command.issued < M && WrapSub(sampled, command.issued, M) <= now)
    && (command.ChangePeriod? ==> 0 < command.period < M)
  }

  /** The last sample before the i-th message is received, and its absolute time; at[k] is the absolute
      time at which message k is handled. */
  function SampleBefore(messages: seq<Message>, i: nat, last: nat): nat
    requires i <= |messages|
  {
    if i == 0 then last else messages[i - 1].sampled
  }

  function TimeBefore(at: seq<nat>, i: nat, now: nat): nat
    requires i <= |at|
  {
    if i == 0 then now else at[i - 1]
  }

  /** Message i is about an existing timer and is handled less than M ticks after the last sample. */
  predicate ReceivableAt(messages: seq<Message>, at: seq<nat>, i: nat, ids: set<nat>, last: nat, now: nat, M: nat)
    requires i < |messages| == |at|
  {
    var m, sample := messages[i], SampleBefore(messages, i, last);
    && m.id in ids && sample < M && m.sampled < M && Legal(m.command, m.sampled, at[i], M)
    && at[i] == TimeBefore(at, i, now) + WrapSub(m.sampled, sample, M)
  }

  ghost predicate Receivable(messages: seq<Message>, at: seq<nat>, ids: set<nat>, last: nat, now: nat, M: nat) {
    && |messages| == |at|
    && forall i: nat {:trigger ReceivableAt(messages, at, i, ids, last, now, M)} ::
         i < |messages| ==> ReceivableAt(messages, at, i, ids, last, now, M)
  }

  /** How a timer is timed: its period, whether it reloads itself, and the absolute time it is timed from. */
  datatype Timing = Timing(period: nat, autoReload: bool, start: int)

  predicate InRange(m: Message, M: nat) {
    m.sampled < M && (m.command.Start? ==> m.command.issued < M)
  }

  ghost predicate AllInRange(messages: seq<Message>, M: nat) {
    forall k :: 0 <= k < |messages| ==> InRange(messages[k], M)
  }

  /** The absolute time from which a command handled at time at times its timer: a start from when it was issued. */
  function TimedFrom(m: Message, at: nat, M: nat): int
    requires InRange(m, M)
  {
    if m.command.Start? then at - WrapSub(m.sampled, m.command.issued, M) else at
  }

  /** Of all commands only a change of period changes a period, none changes how a timer reloads, and a timer is timed
      from when its period is changed or from when its start was issued. */
  function Timed(m: Message, at: nat, id: nat, was: Timing, M: nat): Timing
    requires InRange(m, M)
  {
    if m.id != id then was else
    match m.command
    case Stop => was
    case ChangePeriod(period) => was.(period := period, start := TimedFrom(m, at, M))
    case Start(_) => was.(start := TimedFrom(m, at, M))
  }

  /** After the first n messages */
  ghost function TimedAll(messages: seq<Message>, at: seq<nat>, n: nat, id: nat, was: Timing, M: nat): Timing
    requires n <= |messages| == |at| && AllInRange(messages, M)
  {
    if n == 0 then was else Timed(messages[n - 1], at[n - 1], id, TimedAll(messages, at, n - 1, id, was, M), M)
  }

  /** Of the messages from i on and before n, none changes the period of timer id; all about it are stops. */
  predicate NoChange(messages: seq<Message>, i: nat, n: nat, id: nat)
    requires n <= |messages|
  {
    forall k :: i <= k < n && messages[k].id == id ==> !messages[k].command.ChangePeriod?
  }

  predicate OnlyStops(messages: seq<Message>, i: nat, n: nat, id: nat)
    requires n <= |messages|
  {
    forall k :: i <= k < n && messages[k].id == id ==> messages[k].command.Stop?
  }

  /** Message i is the last, before n, that changes the period of timer id; or the last about it that is no stop. */
  predicate LastChange(messages: seq<Message>, i: nat, n: nat, id: nat)
    requires n <= |messages|
  {
    i < n && messages[i].id == id && messages[i].command.ChangePeriod? && NoChange(messages, i + 1, n, id)
  }

  predicate LastCommand(messages: seq<Message>, i: nat, n: nat, id: nat)
    requires n <= |messages|
  {
    i < n && messages[i].id == id && !messages[i].command.Stop? && OnlyStops(messages, i + 1, n, id)
  }

  /** The period is the one last asked for, and the timer is timed from the last command that was no stop. */
  lemma {:induction false} TimedByLast(messages: seq<Message>, at: seq<nat>, n: nat, id: nat, was: Timing, M: nat, i: nat)
    requires n <= |messages| == |at| && AllInRange(messages, M)
    ensures var r := TimedAll(messages, at, n, id, was, M);
      && r.autoReload == was.autoReload
      && (NoChange(messages, 0, n, id) ==> r.period == was.period)
      && (LastChange(messages, i, n, id) ==> r.period == messages[i].command.period)
      && (OnlyStops(messages, 0, n, id) ==> r.start == was.start)
      && (LastCommand(messages, i, n, id) ==> r.start == TimedFrom(messages[i], at[i], M))
    decreases n
  {
    if n != 0 {
      TimedByLast(messages, at, n - 1, id, was, M, i);
    }
  }

  /** Message i is the last, before n, about timer id. */
  predicate LastAbout(messages: seq<Message>, i: nat, n: nat, id: nat)
    requires n <= |messages|
  {
    i < n && messages[i].id == id && forall k :: i < k < n ==> messages[k].id != id
  }

  /** After the first n messages a timer last stopped is inactive, and one last started or changed is active if it reloads
      itself. */
  ghost predicate Obeyed(messages: seq<Message>, n: nat, timers: map<nat, Timer>)
    requires n <= |messages|
  {
    forall i: nat, id: nat :: LastAbout(messages, i, n, id) && id in timers ==>
      if messages[i].command.Stop? then !timers[id].active else timers[id].autoReload ==> timers[id].active
  }

  lemma {:induction false} ObeysNext(messages: seq<Message>, n: nat, t1: map<nat, Timer>, t2: map<nat, Timer>,
                                     s1: map<nat, Schedule>, s2: map<nat, Schedule>)
    requires n < |messages| && Obeyed(messages, n, t1)
    requires OthersOnlyFired({messages[n].id}, t1, t2, s1, s2) && s1.Keys == t1.Keys && messages[n].id in t2
    requires var t := t2[messages[n].id]; if messages[n].command.Stop? then !t.active else t.autoReload ==> t.active
    ensures Obeyed(messages, n + 1, t2)
  {
    forall i: nat, id: nat | LastAbout(messages, i, n + 1, id) && id in t2
      ensures if messages[i].command.Stop? then !t2[id].active else t2[id].autoReload ==> t2[id].active
    {
      if i < n {
        assert messages[n].id != id && LastAbout(messages, i, n, id);
        assert Fired(t1[id], t2[id], s1[id], s2[id]);
      }
    }
  }

  function TimingOf(timers: map<nat, Timer>, schedules: map<nat, Schedule>, id: nat): Timing
    requires id in timers && id in schedules
  {
    Timing(timers[id].period, timers[id].autoReload, schedules[id].start)
  }

  /** Every timer is timed as the first n messages ask. */
  ghost predicate TimedBy(messages: seq<Message>, at: seq<nat>, n: nat, t0: map<nat, Timer>, t1: map<nat, Timer>,
                          s0: map<nat, Schedule>, s1: map<nat, Schedule>, M: nat)
  {
    && n <= |messages| == |at| && AllInRange(messages, M)
    && t0.Keys == t1.Keys == s0.Keys == s1.Keys
    && (forall k {:trigger TimingOf(t1, s1, k)} :: k in t0 ==>
          TimingOf(t1, s1, k) == TimedAll(messages, at, n, k, TimingOf(t0, s0, k), M))
  }

  lemma {:induction false} TimedNext(messages: seq<Message>, at: seq<nat>, n: nat, t0: map<nat, Timer>, t1: map<nat, Timer>,
                                     t2: map<nat, Timer>, s0: map<nat, Schedule>, s1: map<nat, Schedule>,
                                     s2: map<nat, Schedule>, M: nat)
    requires TimedBy(messages, at, n, t0, t1, s0, s1, M) && n < |messages|
    requires var m := messages[n];
      && OthersOnlyFired({m.id}, t1, t2, s1, s2) && m.id in t1 && InRange(m, M)
      && TimingOf(t2, s2, m.id) == Timed(m, at[n], m.id, TimingOf(t1, s1, m.id), M)
    ensures TimedBy(messages, at, n + 1, t0, t2, s0, s2, M)
  {
    forall k | k in t0
      ensures TimingOf(t2, s2, k) == TimedAll(messages, at, n + 1, k, TimingOf(t0, s0, k), M)
    {
      assert TimingOf(t1, s1, k) == TimedAll(messages, at, n, k, TimingOf(t0, s0, k), M);
      if k != messages[n].id {
        assert Fired(t1[k], t2[k], s1[k], s2[k]);
      }
    }
  }

  lemma {:induction false} FiredThenTimed(messages: seq<Message>, at: seq<nat>, n: nat, t0: map<nat, Timer>, t1: map<nat, Timer>,
                                          t2: map<nat, Timer>, s0: map<nat, Schedule>, s1: map<nat, Schedule>,
                                          s2: map<nat, Schedule>, M: nat)
    requires OnlyFired(t0, t1, s0, s1) && TimedBy(messages, at, n, t1, t2, s1, s2, M)
    ensures TimedBy(messages, at, n, t0, t2, s0, s2, M)
  {
    forall k | k in t0
      ensures TimingOf(t2, s2, k) == TimedAll(messages, at, n, k, TimingOf(t0, s0, k), M)
    {
      assert Fired(t0[k], t1[k], s0[k], s1[k]);
      assert TimingOf(t2, s2, k) == TimedAll(messages, at, n, k, TimingOf(t1, s1, k), M);
    }
  }

  function Multiple(k: nat, period: nat): nat {
    if k == 0 then 0 else Multiple(k - 1, period) + period
  }

  lemma MultipleIsProduct(k: nat, period: nat)
    ensures Multiple(k, period) == k * period
  {
  }

  function Expiry(t: Timer, s: Schedule): nat {
    s.start + Multiple(s.fired + 1, t.period)
  }

  lemma {:induction false} FirstExpiry(t: Timer, s: Schedule)
    requires s.fired == 0
    ensures Expiry(t, s) == s.start + t.period
  {
    assert Multiple(0, t.period) == 0;
  }

  /** Every item is an active timer at its next expiry, and every active timer not in hand has one item. */
  ghost predicate Coherent(agenda: seq<Item>, timers: map<nat, Timer>, schedules: map<nat, Schedule>, inHand: set<nat>) {
    && schedules.Keys == timers.Keys
    && Unique(agenda)
    && (forall x :: x in agenda ==>
          x.id in timers && x.id !in inHand && timers[x.id].active && x.value == Expiry(timers[x.id], schedules[x.id]))
    && (forall id {:trigger HasId(agenda, id)} :: id in timers && timers[id].active && id !in inHand ==> HasId(agenda, id))
  }

  /** No callback has run before its time. */
  ghost predicate NoneEarly(timers: map<nat, Timer>, schedules: map<nat, Schedule>, limit: int) {
    forall id :: id in timers && id in schedules && schedules[id].fired != 0 ==>
      schedules[id].start + Multiple(schedules[id].fired, timers[id].period) <= limit
  }

  /** Taking the items of a timer off the lists puts it in hand. */
  lemma {:induction false} CoherentDrop(agenda: seq<Item>, timers: map<nat, Timer>, schedules: map<nat, Schedule>, id: nat)
    requires Coherent(agenda, timers, schedules, {})
    ensures Coherent(Drop(agenda, id), timers, schedules, {id}) && !HasId(Drop(agenda, id), id)
  {
    var r := Drop(agenda, id);
    UniqueDrop(agenda, id);
    forall y ensures y in r <==> y in agenda && y.id != id {
      DropMembers(agenda, id, y);
    }
    forall k | k in timers && timers[k].active && k != id
      ensures HasId(r, k)
    {
      assert HasId(agenda, k);
      var y :| y in agenda && y.id == k;
      assert y in r;
    }
  }

  lemma {:induction false} CoherentTail(agenda: seq<Item>, timers: map<nat, Timer>, schedules: map<nat, Schedule>, inHand: set<nat>)
    requires agenda != [] && Coherent(agenda, timers, schedules, inHand)
    ensures Coherent(agenda[1..], timers, schedules, inHand + {agenda[0].id}) && agenda[0].id !in inHand
  {
    var id, r := agenda[0].id, agenda[1..];
    assert agenda == [agenda[0]] + r;
    assert agenda[0] in agenda && forall y :: y in r ==> y in agenda;
    forall k | k in timers && timers[k].active && k !in inHand + {id}
      ensures HasId(r, k)
    {
      assert HasId(agenda, k);
      var y :| y in agenda && y.id == k;
      assert y in r;
    }
  }

  /** Filing an active timer at its next expiry takes it out of hand. */
  lemma {:induction false} CoherentInsert(agenda: seq<Item>, timers: map<nat, Timer>, schedules: map<nat, Schedule>,
                                          inHand: set<nat>, x: Item)
    requires Coherent(agenda, timers, schedules, inHand + {x.id})
    requires x.id !in inHand && x.id in timers && timers[x.id].active && x.value == Expiry(timers[x.id], schedules[x.id])
    ensures Coherent(Insert(agenda, x), timers, schedules, inHand) && x in Insert(agenda, x)
  {
    var r := Insert(agenda, x);
    UniqueInsert(agenda, x);
    forall y ensures y in r <==> y in agenda || y == x {
      InsertMembers(agenda, x, y);
    }
    forall k | k in timers && timers[k].active && k !in inHand
      ensures HasId(r, k)
    {
      if k == x.id {
        assert x in r;
      } else {
        assert HasId(agenda, k);
        var y :| y in agenda && y.id == k;
        assert y in r;
      }
    }
  }

  /** What happens to a timer in hand does not concern the lists; left inactive it need not come back. */
  lemma {:induction false} CoherentUpdate(agenda: seq<Item>, timers: map<nat, Timer>, schedules: map<nat, Schedule>,
                                          inHand: set<nat>, id: nat, t: Timer, s: Schedule)
    requires Coherent(agenda, timers, schedules, inHand + {id}) && id in timers
    ensures Coherent(agenda, timers[id := t], schedules[id := s], inHand + {id})
    ensures !t.active ==> Coherent(agenda, timers[id := t], schedules[id := s], inHand)
  {
  }

  lemma {:induction false} MultipleAdd(a: nat, b: nat, period: nat)
    ensures Multiple(a + b, period) == Multiple(a, period) + Multiple(b, period)
  {
    if b != 0 {
      MultipleAdd(a, b - 1, period);
    }
  }

  lemma {:induction false} NoneEarlyUpdate(timers: map<nat, Timer>, before: map<nat, Schedule>, after: map<nat, Schedule>,
                                           id: nat, limit: int)
    requires NoneEarly(timers, before, limit) && id in timers && id in after && after == before[id := after[id]]
    requires after[id].start + Multiple(after[id].fired, timers[id].period) <= limit
    ensures NoneEarly(timers, after, limit)
  {
  }

  /** An auto-reload timer filed one period after its last callback is where it belongs. */
  lemma {:induction false} Reloaded(agenda: seq<Item>, timers: map<nat, Timer>, s: Schedule, before: map<nat, Schedule>,
                                    after: map<nat, Schedule>, inHand: set<nat>, id: nat, calls: nat, N: nat)
    requires Coherent(agenda, timers, before, inHand + {id}) && NoneEarly(timers, before, N)
    requires id in timers && timers[id].active && id !in inHand && before[id] == s
    requires after == before[id := Schedule(s.start, s.fired + calls + 1)]
    requires Expiry(timers[id], s) + Multiple(calls, timers[id].period) <= N
    ensures var x := Item(Expiry(timers[id], s) + Multiple(calls + 1, timers[id].period), id);
      && Coherent(Insert(agenda, x), timers, after, inHand) && NoneEarly(timers, after, N)
      && x.value == Expiry(timers[id], after[id]) && x in Insert(agenda, x)
  {
    MultipleAdd(s.fired + 1, calls, timers[id].period);
    MultipleAdd(s.fired + 1, calls + 1, timers[id].period);
    NoneEarlyUpdate(timers, before, after, id, N);
    CoherentUpdate(agenda, timers, before, inHand, id, timers[id], after[id]);
    assert timers[id := timers[id]] == timers;
    CoherentInsert(agenda, timers, after, inHand, Item(Expiry(timers[id], after[id]), id));
  }

  /** A timer that was never started is in no list. */
  lemma {:induction false} CoherentCreate(agenda: seq<Item>, timers: map<nat, Timer>, schedules: map<nat, Schedule>,
                                          id: nat, t: Timer)
    requires Coherent(agenda, timers, schedules, {}) && id !in timers && !t.active
    ensures Coherent(agenda, timers[id := t], schedules[id := Schedule(0, 0)], {})
  {
  }

  class TimerDaemon {
    /** The number of TickType_t values; tmrMAX_TIME_BEFORE_OVERFLOW is M - 1. */
    const M: nat
    var xLastTime: nat
    var pxCurrentTimerList: seq<Item>
    var pxOverflowTimerList: seq<Item>
    var timers: map<nat, Timer>
    ghost var base: nat
    ghost var schedules: map<nat, Schedule>
    /** The timer a command has taken off the lists and not dealt with yet, if any. */
    ghost var inHand: set<nat>

    ghost function Now(): nat
      reads this`base, this`xLastTime
    {
      base + xLastTime
    }

    ghost function Expiries(): seq<Item>
      reads this`pxCurrentTimerList, this`pxOverflowTimerList, this`base
    {
      Agenda(pxCurrentTimerList, pxOverflowTimerList, base, M)
    }

    /** The lists as of tick count now. Nothing in the overflow list is due a whole round from now. */
    ghost predicate Lists(now: nat)
      reads this`pxCurrentTimerList, this`pxOverflowTimerList, this`timers
    {
      && 2 <= M && now < M
      && Within(pxCurrentTimerList, -1, M) && Within(pxOverflowTimerList, -1, now)
      && (forall id :: id in timers ==> 0 < timers[id].period < M)
    }

    ghost predicate State(now: nat)
      reads this
    {
      && Lists(now)
      && Coherent(Expiries(), timers, schedules, inHand)
      && NoneEarly(timers, schedules, base + now)
    }

    ghost predicate Valid()
      reads this
    {
      State(xLastTime) && inHand == {}
    }

    /** prvCheckForValidListAndQueue, before any tick count was sampled. */
    constructor (m: nat)
      requires 2 <= m
      ensures M == m && Valid() && Now() == 0 && Expiries() == [] && timers == map[]
    {
      M := m;
      xLastTime, pxCurrentTimerList, pxOverflowTimerList, timers := 0, [], [], map[];
      base, schedules, inHand := 0, map[], {};
    }

    /** prvInitialiseNewTimer */
    method CreateTimer(id: nat, period: nat, autoReload: bool)
      requires Valid() && id !in timers && 0 < period < M
      modifies this`timers, this`schedules
      ensures Valid() && timers == old(timers)[id := Timer(period, autoReload, false)]
      ensures schedules == old(schedules)[id := Schedule(0, 0)]
    {
      CoherentCreate(Expiries(), timers, schedules, id, Timer(period, autoReload, false));
      timers := timers[id := Timer(period, autoReload, false)];
      schedules := schedules[id := Schedule(0, 0)];
    }

    /** prvInsertTimerInActiveList, for a command issued at C and processed at N. */
    method InsertTimerInActiveList(id: nat, xNextExpiryTime: nat, xTimeNow: nat, xCommandTime: nat, ghost C: nat)
      returns (xProcessTimerNow: bool)
      requires Lists(xTimeNow) && id in timers
      requires C <= base + xTimeNow < C + M && xCommandTime == TickAt(C, base, M)
      requires xNextExpiryTime == WrapAdd(xCommandTime, timers[id].period, M)
      modifies this`pxCurrentTimerList, this`pxOverflowTimerList
      ensures Lists(xTimeNow)
      ensures var expiry := C + timers[id].period;
        if xProcessTimerNow then
          expiry <= base + xTimeNow && unchanged(this`pxCurrentTimerList, this`pxOverflowTimerList)
        else
          && base + xTimeNow < expiry && Expiries() == Insert(old(Expiries()), Item(expiry, id))
          && (expiry < base + M || pxCurrentTimerList == old(pxCurrentTimerList))
    {
      var x := Item(xNextExpiryTime, id);
      PlacementExact(C, base + xTimeNow, timers[id].period, base, M);
      xProcessTimerNow := false;
      if xNextExpiryTime <= xTimeNow {
        if WrapSub(xTimeNow, xCommandTime, M) >= timers[id].period {
          xProcessTimerNow := true;
        } else {
          FileOverflow(pxCurrentTimerList, pxOverflowTimerList, x, base, M);
          InsertWithin(pxOverflowTimerList, x, -1, xTimeNow);
          pxOverflowTimerList := Insert(pxOverflowTimerList, x);
        }
      } else {
        if xTimeNow < xCommandTime && xNextExpiryTime >= xCommandTime {
          xProcessTimerNow := true;
        } else {
          FileCurrent(pxCurrentTimerList, pxOverflowTimerList, x, base, M);
          InsertWithin(pxCurrentTimerList, x, -1, M);
          pxCurrentTimerList := Insert(pxCurrentTimerList, x);
        }
      }
    }

    /** The timer's callback runs: of it, only that it was called is recorded. */
    ghost method CallBack(id: nat)
      requires id in schedules
      modifies this`schedules
      ensures schedules == old(schedules[id := schedules[id].(fired := schedules[id].fired + 1)])
    {
      schedules := schedules[id := schedules[id].(fired := schedules[id].fired + 1)];
    }

    /** prvReloadTimer, for an expiry at absolute time E: calls back for every later multiple of the
        period up to now, and files the timer at the first one after now. */
    method ReloadTimer(id: nat, xExpiredTime: nat, xTimeNow: nat, ghost E: nat) returns (ghost calls: nat)
      requires Lists(xTimeNow) && id in timers && id in schedules
      requires E <= base + xTimeNow < E + M && xExpiredTime == TickAt(E, base, M)
      modifies this`pxCurrentTimerList, this`pxOverflowTimerList, this`schedules
      ensures Lists(xTimeNow)
      ensures var period := timers[id].period;
        && E + Multiple(calls, period) <= base + xTimeNow < E + Multiple(calls + 1, period)
        && Expiries() == Insert(old(Expiries()), Item(E + Multiple(calls + 1, period), id))
        && (xTimeNow == M - 1 ==> pxCurrentTimerList == old(pxCurrentTimerList))
      ensures schedules == old(schedules[id := schedules[id].(fired := schedules[id].fired + calls)])
    {
      calls := 0;
      ghost var agenda, current, before := Expiries(), pxCurrentTimerList, schedules;
      var xExpired := xExpiredTime;
      ghost var e := E;
      var period := timers[id].period;
      var now := InsertTimerInActiveList(id, WrapAdd(xExpired, period, M), xTimeNow, xExpired, e);
      while now
        invariant Lists(xTimeNow) && e == E + Multiple(calls, period) && xExpired < M
        invariant Reloading(id, e, xTimeNow, now, agenda, current) && xExpired == TickAt(e, base, M)
        invariant schedules == before[id := before[id].(fired := before[id].fired + calls)]
        decreases base + xTimeNow - e, now
      {
        xExpired := WrapAdd(xExpired, period, M);
        e, calls := e + period, calls + 1;
        CallBack(id);
        now := InsertTimerInActiveList(id, WrapAdd(xExpired, period, M), xTimeNow, xExpired, e);
      }
    }

    /** In prvReloadTimer, with an expiry at e behind: the insertion one period later was refused or made. */
    ghost predicate Reloading(id: nat, e: nat, xTimeNow: nat, refused: bool, agenda: seq<Item>, current: seq<Item>)
      requires id in timers
      reads this`pxCurrentTimerList, this`pxOverflowTimerList, this`base, this`timers
    {
      var period := timers[id].period;
      && 0 < M && e <= base + xTimeNow < e + M && xTimeNow < M
      && if refused then
           e + period <= base + xTimeNow && Expiries() == agenda && pxCurrentTimerList == current
         else
           && base + xTimeNow < e + period && Expiries() == Insert(agenda, Item(e + period, id))
           && (xTimeNow == M - 1 ==> pxCurrentTimerList == current)
    }

    /** Files or stops a timer in hand whose expiry E has passed, then calls back: the common end of
        prvProcessExpiredTimer and of a start command that comes too late. */
    method Expire(id: nat, xExpiredTime: nat, xTimeNow: nat, ghost E: nat)
      requires InHandAt(id, xTimeNow, E) && xExpiredTime == TickAt(E, base, M)
      modifies this`pxCurrentTimerList, this`pxOverflowTimerList, this`timers, this`schedules
      ensures State(xTimeNow) && Served(id, xTimeNow)
      ensures xTimeNow == M - 1 ==> pxCurrentTimerList == old(pxCurrentTimerList)
      ensures OnlyFired(old(timers), timers, old(schedules), schedules)
      ensures schedules[id].fired > old(schedules[id].fired)
    {
      if timers[id].autoReload {
        ExpireAutoReload(id, xExpiredTime, xTimeNow, E);
      } else {
        timers := timers[id := timers[id].(active := false)];
        CallBack(id);
        CoherentUpdate(Expiries(), old(timers), old(schedules), inHand, id, timers[id], schedules[id]);
      }
    }

    /** Timer id is off the lists, and its expiry is E, which is past. */
    ghost predicate InHandAt(id: nat, now: nat, E: nat)
      reads this
    {
      && Lists(now) && id in timers && id in schedules && timers[id].active && id !in inHand
      && Coherent(Expiries(), timers, schedules, inHand + {id}) && NoneEarly(timers, schedules, base + now)
      && E == Expiry(timers[id], schedules[id]) && E <= base + now < E + M
    }

    /** Timer id is filed at an expiry to come, or is a one-shot timer that has stopped. */
    ghost predicate Served(id: nat, now: nat)
      reads this
    {
      && id in timers && id in schedules
      && if timers[id].active
         then base + now < Expiry(timers[id], schedules[id]) && Item(Expiry(timers[id], schedules[id]), id) in Expiries()
         else !timers[id].autoReload
    }

    method ExpireAutoReload(id: nat, xExpiredTime: nat, xTimeNow: nat, ghost E: nat)
      requires InHandAt(id, xTimeNow, E) && xExpiredTime == TickAt(E, base, M) && timers[id].autoReload
      modifies this`pxCurrentTimerList, this`pxOverflowTimerList, this`schedules
      ensures State(xTimeNow) && Served(id, xTimeNow)
      ensures xTimeNow == M - 1 ==> pxCurrentTimerList == old(pxCurrentTimerList)
      ensures OnlyFired(timers, timers, old(schedules), schedules) && schedules[id].fired > old(schedules[id].fired)
    {
      ghost var agenda, before := Expiries(), schedules;
      ghost var calls := ReloadAndCallBack(id, xExpiredTime, xTimeNow, E);
      Reloaded(agenda, timers, before[id], before, schedules, inHand, id, calls, base + xTimeNow);
      OneFired(timers, before, schedules, id);
    }

    method ReloadAndCallBack(id: nat, xExpiredTime: nat, xTimeNow: nat, ghost E: nat) returns (ghost calls: nat)
      requires Lists(xTimeNow) && id in timers && id in schedules
      requires E <= base + xTimeNow < E + M && xExpiredTime == TickAt(E, base, M)
      modifies this`pxCurrentTimerList, this`pxOverflowTimerList, this`schedules
      ensures Lists(xTimeNow) && (xTimeNow == M - 1 ==> pxCurrentTimerList == old(pxCurrentTimerList))
      ensures var period := timers[id].period;
        && E + Multiple(calls, period) <= base + xTimeNow < E + Multiple(calls + 1, period)
        && Expiries() == Insert(old(Expiries()), Item(E + Multiple(calls + 1, period), id))
      ensures schedules == old(schedules[id := Schedule(schedules[id].start, schedules[id].fired + calls + 1)])
    {
      calls := ReloadTimer(id, xExpiredTime, xTimeNow, E);
      CallBack(id);
    }

    /** prvProcessExpiredTimer: the timer at the head is called back; an auto-reload timer is filed at an expiry to
        come, and a one-shot timer is called back once and stopped. */
    method ProcessExpiredTimer(xNextExpireTime: nat, xTimeNow: nat)
      requires State(xTimeNow) && pxCurrentTimerList != []
      requires xNextExpireTime == pxCurrentTimerList[0].value <= xTimeNow
      modifies this`pxCurrentTimerList, this`pxOverflowTimerList, this`timers, this`schedules
      ensures State(xTimeNow)
      ensures xTimeNow == M - 1 ==> pxCurrentTimerList == old(pxCurrentTimerList)[1..]
      ensures OnlyFired(old(timers), timers, old(schedules), schedules)
      ensures CalledBack(old(pxCurrentTimerList)[0].id, old(schedules), schedules)
      ensures Served(old(pxCurrentTimerList)[0].id, xTimeNow)
    {
      var pxTimer := pxCurrentTimerList[0].id;
      ghost var E := base + xNextExpireTime;
      assert Expiries()[0] == Item(E, pxTimer) && Expiries()[0] in Expiries();
      CoherentTail(Expiries(), timers, schedules, inHand);
      SortedTail(pxCurrentTimerList);
      assert Expiries()[1..] == Agenda(pxCurrentTimerList[1..], pxOverflowTimerList, base, M);
      pxCurrentTimerList := pxCurrentTimerList[1..];
      Expire(pxTimer, xNextExpireTime, xTimeNow, E);
    }

    method SwitchStep(ghost t0: map<nat, Timer>, ghost s0: map<nat, Schedule>)
      requires 2 <= M && State(M - 1) && pxCurrentTimerList != [] && OnlyFired(t0, timers, s0, schedules)
      modifies this`pxCurrentTimerList, this`pxOverflowTimerList, this`timers, this`schedules
      ensures State(M - 1) && |pxCurrentTimerList| < |old(pxCurrentTimerList)| && OnlyFired(t0, timers, s0, schedules)
    {
      ghost var t, s := timers, schedules;
      ProcessExpiredTimer(pxCurrentTimerList[0].value, M - 1);
      OnlyFiredChain(t0, t, timers, s0, s, schedules);
    }

    /** prvSwitchTimerLists: everything of the ending epoch is processed as of its last tick, which
        can refill only the overflow list. */
    method SwitchTimerLists()
      requires 2 <= M && State(M - 1)
      modifies this`pxCurrentTimerList, this`pxOverflowTimerList, this`timers, this`schedules, this`base
      ensures State(0) && base == old(base) + M && pxOverflowTimerList == []
      ensures OnlyFired(old(timers), timers, old(schedules), schedules)
    {
      while pxCurrentTimerList != []
        invariant State(M - 1) && base == old(base)
        invariant OnlyFired(old(timers), timers, old(schedules), schedules)
        decreases |pxCurrentTimerList|
      {
        SwitchStep(old(timers), old(schedules));
      }
      ExchangeLists();
    }

    method ExchangeLists()
      requires 2 <= M && State(M - 1) && pxCurrentTimerList == []
      modifies this`pxCurrentTimerList, this`pxOverflowTimerList, this`base
      ensures State(0) && base == old(base) + M && pxOverflowTimerList == []
    {
      SwitchKeepsAgenda(pxOverflowTimerList, base, M);
      pxCurrentTimerList, pxOverflowTimerList := pxOverflowTimerList, pxCurrentTimerList;
      base := base + M;
    }

    /** prvSampleTimeNow, with the tick count xTaskGetTickCount returns. Less than M ticks have gone by
        since the last sample. */
    method SampleTimeNow(xTimeNow: nat) returns (xTimerListsWereSwitched: bool)
      requires State(xLastTime) && xTimeNow < M
      modifies this`xLastTime, this`pxCurrentTimerList, this`pxOverflowTimerList, this`timers, this`schedules, this`base
      ensures State(xLastTime) && xLastTime == xTimeNow && Now() == old(Now()) + WrapSub(xTimeNow, old(xLastTime), M)
      ensures xTimerListsWereSwitched <==> base != old(base)
      ensures !xTimerListsWereSwitched ==> unchanged(this`pxCurrentTimerList, this`pxOverflowTimerList, this`timers, this`schedules)
      ensures OnlyFired(old(timers), timers, old(schedules), schedules)
    {
      xTimerListsWereSwitched := false;
      if xTimeNow < xLastTime {
        SwitchTimerLists();
        xTimerListsWereSwitched := true;
      }
      xLastTime := xTimeNow;
    }

    /** What a command leaves of its timer: stopped, or timed with its new period from now on, or timed from when the
        start was issued and served as far as that is past. */
    ghost predicate CarriedOut(id: nat, command: Command, now: nat)
      requires now < M && (command.Start? ==> command.issued < M)
      reads this
    {
      && id in timers && id in schedules
      && match command
         case Stop => !timers[id].active
         case ChangePeriod(period) =>
           && timers[id].active && timers[id].period == period
           && schedules[id] == Schedule(Now(), 0) && Item(Now() + period, id) in Expiries()
         case Start(issued) =>
           && schedules[id].start == Now() - WrapSub(now, issued, M) && Served(id, now)
           && (!timers[id].autoReload ==> schedules[id].fired == if timers[id].active then 0 else 1)
    }

    /** The handling in prvProcessReceivedCommands of one command, with the tick count sampled after it
        was received. A start or reset carries the tick count at which it was issued, less than M
        ticks ago. */
    method ProcessCommand(id: nat, command: Command, xTimeNow: nat)
      requires Valid() && id in timers && xTimeNow < M
      requires Legal(command, xTimeNow, Now() + WrapSub(xTimeNow, xLastTime, M), M)
      modifies this
      ensures Valid() && xLastTime == xTimeNow && Now() == old(Now()) + WrapSub(xTimeNow, old(xLastTime), M)
      ensures OthersOnlyFired({id}, old(timers), timers, old(schedules), schedules)
      ensures CarriedOut(id, command, xTimeNow) && timers[id].autoReload == old(timers)[id].autoReload
      ensures !command.ChangePeriod? ==> timers[id].period == old(timers)[id].period
      ensures command.Stop? ==> schedules[id].start == old(schedules)[id].start
    {
      BeginCommand(id, xTimeNow);
      ghost var t, s := timers, schedules;
      CarryOut(id, command, xTimeNow);
      FiredThenOthers({id}, old(timers), t, timers, old(schedules), s, schedules);
      assert Fired(old(timers)[id], t[id], old(schedules)[id], s[id]);
    }

    method CarryOut(id: nat, command: Command, xTimeNow: nat)
      requires Commanded(id) && xTimeNow == xLastTime && Legal(command, xTimeNow, Now(), M)
      modifies this`pxCurrentTimerList, this`pxOverflowTimerList, this`timers, this`schedules
      ensures Valid() && OthersOnlyFired({id}, old(timers), timers, old(schedules), schedules)
      ensures CarriedOut(id, command, xTimeNow) && timers[id].autoReload == old(timers)[id].autoReload
      ensures !command.ChangePeriod? ==> timers[id].period == old(timers)[id].period
      ensures command.Stop? ==> schedules[id].start == old(schedules)[id].start
    {
      match command {
        case Stop => StopTimer(id);
        case ChangePeriod(period) => ChangeTimerPeriod(id, period, xTimeNow);
        case Start(issued) => StartTimer(id, issued, xTimeNow);
      }
    }

    method TakeOffLists(id: nat)
      requires Valid()
      modifies this`pxCurrentTimerList, this`pxOverflowTimerList, this`inHand
      ensures State(xLastTime) && inHand == {id}
    {
      CoherentDrop(Expiries(), timers, schedules, id);
      DropAgenda(pxCurrentTimerList, pxOverflowTimerList, id, base, M);
      DropWithin(pxCurrentTimerList, id, -1, M);
      DropWithin(pxOverflowTimerList, id, -1, xLastTime);
      pxCurrentTimerList := Drop(pxCurrentTimerList, id);
      pxOverflowTimerList := Drop(pxOverflowTimerList, id);
      inHand := {id};
    }

    /** The timer leaves its list before the time is sampled: the sample may serve other timers. */
    method BeginCommand(id: nat, xTimeNow: nat)
      requires Valid() && xTimeNow < M && id in timers
      modifies this
      ensures Commanded(id) && xLastTime == xTimeNow && Now() == old(Now()) + WrapSub(xTimeNow, old(xLastTime), M)
      ensures OnlyFired(old(timers), timers, old(schedules), schedules)
    {
      TakeOffLists(id);
      var xTimerListsWereSwitched := SampleTimeNow(xTimeNow);
      HandOver(id);
    }

    ghost method HandOver(id: nat)
      requires State(xLastTime) && inHand == {id} && id in timers
      modifies this`inHand
      ensures Commanded(id)
    {
      inHand := {};
      assert {} + {id} == {id};
    }

    /** A command is being carried out on timer id, which is off the lists. */
    ghost predicate Commanded(id: nat)
      reads this
    {
      && Lists(xLastTime) && inHand == {} && id in timers && id in schedules
      && Coherent(Expiries(), timers, schedules, {} + {id}) && NoneEarly(timers, schedules, Now())
    }

    method StopTimer(id: nat)
      requires Commanded(id)
      modifies this`timers
      ensures Valid() && id in timers && timers[id] == old(timers)[id].(active := false)
      ensures OthersOnlyFired({id}, old(timers), timers, old(schedules), schedules)
    {
      timers := timers[id := timers[id].(active := false)];
      CoherentUpdate(Expiries(), old(timers), schedules, {}, id, timers[id], schedules[id]);
      assert schedules[id := schedules[id]] == schedules;
    }

    /** Marks a commanded timer active, to be timed from start. */
    method Activate(id: nat, period: nat, ghost start: nat)
      requires Commanded(id) && 0 < period < M
      modifies this`timers, this`schedules
      ensures Commanded(id) && timers[id].active && timers[id].period == period
      ensures timers[id].autoReload == old(timers)[id].autoReload
      ensures timers == old(timers)[id := timers[id]] && schedules == old(schedules)[id := schedules[id]]
      ensures schedules[id] == Schedule(start, 0) && Expiry(timers[id], schedules[id]) == start + period
    {
      timers := timers[id := timers[id].(period := period, active := true)];
      schedules := schedules[id := Schedule(start, 0)];
      CoherentUpdate(Expiries(), old(timers), old(schedules), {}, id, timers[id], schedules[id]);
      FirstExpiry(timers[id], schedules[id]);
    }

    /** Inserts a commanded timer that is timed from C. */
    method FileCommanded(id: nat, xNextExpiryTime: nat, xTimeNow: nat, xCommandTime: nat, ghost C: nat)
      returns (xProcessTimerNow: bool)
      requires Commanded(id) && timers[id].active && xTimeNow == xLastTime
      requires C <= Now() < C + M && xCommandTime == TickAt(C, base, M)
      requires xNextExpiryTime == WrapAdd(xCommandTime, timers[id].period, M)
      requires Expiry(timers[id], schedules[id]) == C + timers[id].period
      modifies this`pxCurrentTimerList, this`pxOverflowTimerList
      ensures xProcessTimerNow <==> C + timers[id].period <= Now()
      ensures xProcessTimerNow ==> Commanded(id)
      ensures !xProcessTimerNow ==> Valid() && Item(C + timers[id].period, id) in Expiries()
    {
      ghost var agenda, x := Expiries(), Item(C + timers[id].period, id);
      xProcessTimerNow := InsertTimerInActiveList(id, xNextExpiryTime, xTimeNow, xCommandTime, C);
      if !xProcessTimerNow {
        CoherentInsert(agenda, timers, schedules, {}, x);
        assert Coherent(Expiries(), timers, schedules, inHand);
      }
    }

    /** The insertion cannot find the new period already over, so its result is ignored. */
    method ChangeTimerPeriod(id: nat, period: nat, xTimeNow: nat)
      requires Commanded(id) && xTimeNow == xLastTime && 0 < period < M
      modifies this`pxCurrentTimerList, this`pxOverflowTimerList, this`timers, this`schedules
      ensures Valid() && id in timers && id in schedules && timers[id].active && timers[id].period == period
      ensures timers[id].autoReload == old(timers)[id].autoReload
      ensures OthersOnlyFired({id}, old(timers), timers, old(schedules), schedules)
      ensures schedules[id] == Schedule(Now(), 0) && Item(Now() + period, id) in Expiries()
    {
      Activate(id, period, Now());
      var xProcessTimerNow := FileCommanded(id, WrapAdd(xTimeNow, period, M), xTimeNow, xTimeNow, Now());
    }

    method StartTimer(id: nat, issued: nat, xTimeNow: nat)
      requires Commanded(id) && xTimeNow == xLastTime && issued < M && WrapSub(xTimeNow, issued, M) <= Now()
      modifies this`pxCurrentTimerList, this`pxOverflowTimerList, this`timers, this`schedules
      ensures Valid() && Served(id, xTimeNow)
      ensures OthersOnlyFired({id}, old(timers), timers, old(schedules), schedules)
      ensures schedules[id].start == Now() - WrapSub(xTimeNow, issued, M)
      ensures timers[id].autoReload == old(timers)[id].autoReload && timers[id].period == old(timers)[id].period
      ensures !timers[id].autoReload ==> schedules[id].fired == if timers[id].active then 0 else 1
    {
      ghost var C := Now() - WrapSub(xTimeNow, issued, M);
      var xProcessTimerNow := LaunchTimer(id, issued, xTimeNow, C);
      ghost var t, s := timers, schedules;
      ExpireIfLate(id, xProcessTimerNow, WrapAdd(issued, timers[id].period, M), xTimeNow, C + timers[id].period);
      FiredAfterChange(id, old(timers), t, timers, old(schedules), s, schedules);
      assert Fired(t[id], timers[id], s[id], schedules[id]);
    }

    method ExpireIfLate(id: nat, xProcessTimerNow: bool, xExpiredTime: nat, xTimeNow: nat, ghost E: nat)
      requires xTimeNow == xLastTime
      requires if xProcessTimerNow then InHandAt(id, xTimeNow, E) && inHand == {} && xExpiredTime == TickAt(E, base, M)
               else Valid() && Served(id, xTimeNow)
      modifies this`pxCurrentTimerList, this`pxOverflowTimerList, this`timers, this`schedules
      ensures Valid() && Served(id, xTimeNow) && OnlyFired(old(timers), timers, old(schedules), schedules)
      ensures xProcessTimerNow ==> schedules[id].fired > old(schedules)[id].fired
      ensures !xProcessTimerNow ==> timers == old(timers) && schedules == old(schedules)
    {
      if xProcessTimerNow {
        Expire(id, xExpiredTime, xTimeNow, E);
      }
    }

    method LaunchTimer(id: nat, issued: nat, xTimeNow: nat, ghost C: nat) returns (xProcessTimerNow: bool)
      requires Commanded(id) && xTimeNow == xLastTime && issued < M && C + WrapSub(xTimeNow, issued, M) == Now()
      modifies this`pxCurrentTimerList, this`pxOverflowTimerList, this`timers, this`schedules
      ensures id in timers && id in schedules && timers[id].active && schedules[id] == Schedule(C, 0)
      ensures timers == old(timers)[id := old(timers)[id].(active := true)]
      ensures schedules == old(schedules)[id := schedules[id]]
      ensures xProcessTimerNow ==> InHandAt(id, xTimeNow, C + timers[id].period) && inHand == {}
      ensures !xProcessTimerNow ==> Valid() && Served(id, xTimeNow)
    {
      var period := timers[id].period;
      Activate(id, period, C);
      xProcessTimerNow := FileCommanded(id, WrapAdd(issued, period, M), xTimeNow, issued, C);
    }

    /** The least expiry, in ticks of the running epoch, or nothing if none lies before the wrap. */
    ghost predicate IsNextExpiry(xNextExpireTime: nat, none: bool)
      reads this`pxCurrentTimerList, this`pxOverflowTimerList, this`base
    {
      && (none <==> forall x :: x in Expiries() ==> base + M <= x.value)
      && (none ==> xNextExpireTime == 0)
      && (!none ==>
            && (forall x :: x in Expiries() ==> base + xNextExpireTime <= x.value)
            && (exists x :: x in Expiries() && x.value == base + xNextExpireTime))
    }

    lemma {:induction false} NextExpiryIsHead(now: nat)
      requires Lists(now)
      ensures IsNextExpiry(HeadValue(pxCurrentTimerList), pxCurrentTimerList == [])
      ensures Expiries() == [] <==> pxCurrentTimerList == [] && pxOverflowTimerList == []
    {
      var a := Expiries();
      AgendaLength(pxCurrentTimerList, pxOverflowTimerList, base, M);
      forall x | x in a
        ensures base + (if pxCurrentTimerList == [] then M else pxCurrentTimerList[0].value) <= x.value
      {
        var i :| 0 <= i < |a| && a[i] == x;
        AgendaAt(pxCurrentTimerList, pxOverflowTimerList, base, M, i);
      }
      if pxCurrentTimerList != [] {
        assert a[0] in a;
      }
    }

    /** The expiry so described is the head of the current list. */
    lemma {:induction false} NextExpiryUnique(now: nat, xNextExpireTime: nat, none: bool)
      requires Lists(now) && IsNextExpiry(xNextExpireTime, none)
      ensures none <==> pxCurrentTimerList == []
      ensures xNextExpireTime == HeadValue(pxCurrentTimerList)
    {
      NextExpiryIsHead(now);
    }

    /** prvGetNextExpireTime */
    method GetNextExpireTime() returns (xNextExpireTime: nat, xListWasEmpty: bool)
      requires Valid()
      ensures IsNextExpiry(xNextExpireTime, xListWasEmpty)
    {
      NextExpiryIsHead(xLastTime);
      xListWasEmpty := pxCurrentTimerList == [];
      xNextExpireTime := if xListWasEmpty then 0 else pxCurrentTimerList[0].value;
    }

    /** prvProcessTimerOrBlockTask. When it does not block, it has switched the lists or called back the timer at
        the head and filed or stopped it. */
    method ProcessTimerOrBlockTask(xNextExpireTime: nat, listWasEmpty: bool, xTimeNow: nat)
      returns (blocked: bool, blockTime: nat, indefinitely: bool)
      requires Valid() && xTimeNow < M && IsNextExpiry(xNextExpireTime, listWasEmpty)
      modifies this
      ensures Valid() && xLastTime == xTimeNow && Now() == old(Now()) + WrapSub(xTimeNow, old(xLastTime), M)
      ensures OnlyFired(old(timers), timers, old(schedules), schedules)
      ensures !blocked && base == old(base) ==>
        && old(pxCurrentTimerList) != []
        && CalledBack(old(pxCurrentTimerList)[0].id, old(schedules), schedules) && Served(old(pxCurrentTimerList)[0].id, xTimeNow)
      ensures blocked ==> MayBlock(old(Expiries()), old(timers), old(schedules), old(base) + M, Now(), blockTime, indefinitely)
      ensures blocked ==> unchanged(this`timers, this`schedules, this`pxCurrentTimerList, this`pxOverflowTimerList, this`base)
    {
      NextExpiryUnique(xLastTime, xNextExpireTime, listWasEmpty);
      blocked, blockTime, indefinitely := false, 0, false;
      var xListWasEmpty := listWasEmpty;
      var xTimerListsWereSwitched := SampleTimeNow(xTimeNow);
      if !xTimerListsWereSwitched {
        if !xListWasEmpty && xNextExpireTime <= xTimeNow {
          ProcessExpiredTimer(xNextExpireTime, xTimeNow);
        } else {
          if xListWasEmpty {
            xListWasEmpty := pxOverflowTimerList == [];
          }
          blocked, blockTime, indefinitely := true, WrapSub(xNextExpireTime, xTimeNow, M), xListWasEmpty;
          NextExpiryIsHead(xTimeNow);
          NothingMissed(Expiries(), timers, schedules, Now());
        }
      }
    }

    /** prvProcessReceivedCommands */
    method ProcessReceivedCommands(messages: seq<Message>, ghost at: seq<nat>)
      requires Valid() && Receivable(messages, at, timers.Keys, xLastTime, Now(), M)
      modifies this
      ensures Valid() && OthersOnlyFired(MessageIds(messages), old(timers), timers, old(schedules), schedules)
      ensures TimedBy(messages, at, |messages|, old(timers), timers, old(schedules), schedules, M)
      ensures Obeyed(messages, |messages|, timers)
      ensures xLastTime == SampleBefore(messages, |messages|, old(xLastTime)) && Now() == TimeBefore(at, |at|, old(Now()))
    {
      ghost var t, s, last, now := timers, schedules, xLastTime, Now();
      ReceivableInRange(messages, at, timers.Keys, xLastTime, Now(), M);
      var i := 0;
      while i < |messages|
        invariant i <= |messages| && Valid() && timers.Keys == t.Keys
        invariant xLastTime == SampleBefore(messages, i, last) && Now() == TimeBefore(at, i, now)
        invariant OthersOnlyFired(MessageIds(messages[..i]), t, timers, s, schedules)
        invariant TimedBy(messages, at, i, t, timers, s, schedules, M) && Obeyed(messages, i, timers)
      {
        assert ReceivableAt(messages, at, i, t.Keys, last, now, M);
        ReceiveNext(messages, at, i, t, s);
        i := i + 1;
      }
      assert messages[..i] == messages;
    }

    method ReceiveNext(messages: seq<Message>, ghost at: seq<nat>, i: nat, ghost t: map<nat, Timer>, ghost s: map<nat, Schedule>)
      requires Valid() && TimedBy(messages, at, i, t, timers, s, schedules, M) && i < |messages| && Obeyed(messages, i, timers)
      requires OthersOnlyFired(MessageIds(messages[..i]), t, timers, s, schedules)
      requires var m := messages[i];
        && m.id in timers && m.sampled < M && Now() + WrapSub(m.sampled, xLastTime, M) == at[i]
        && Legal(m.command, m.sampled, at[i], M)
      modifies this
      ensures Valid() && xLastTime == messages[i].sampled && Now() == at[i] && timers.Keys == old(timers).Keys
      ensures OthersOnlyFired(MessageIds(messages[..i + 1]), t, timers, s, schedules)
      ensures TimedBy(messages, at, i + 1, t, timers, s, schedules, M) && Obeyed(messages, i + 1, timers)
    {
      ghost var t1, s1 := timers, schedules;
      ReceiveOne(messages[i], at[i]);
      OthersOnlyFiredChain(MessageIds(messages[..i]), {messages[i].id}, t, t1, timers, s, s1, schedules);
      MessageIdsNext(messages, i);
      TimedNext(messages, at, i, t, t1, timers, s, s1, schedules, M);
      ObeysNext(messages, i, t1, timers, s1, schedules);
    }

    method ReceiveOne(m: Message, ghost at: nat)
      requires Valid() && m.id in timers && m.id in schedules && m.sampled < M && InRange(m, M)
      requires Now() + WrapSub(m.sampled, xLastTime, M) == at && Legal(m.command, m.sampled, at, M)
      modifies this
      ensures Valid() && xLastTime == m.sampled && Now() == at && timers.Keys == old(timers).Keys
      ensures OthersOnlyFired({m.id}, old(timers), timers, old(schedules), schedules) && m.id in timers && m.id in schedules
      ensures var t := timers[m.id]; if m.command.Stop? then !t.active else t.autoReload ==> t.active
      ensures TimingOf(timers, schedules, m.id) == Timed(m, at, m.id, TimingOf(old(timers), old(schedules), m.id), M)
    {
      ProcessCommand(m.id, m.command, m.sampled);
    }

    /** One pass of the loop of prvTimerTask, sampling xTimeNow before it blocks. A pass that blocks may do so, and
        every pass serves all timers it has no messages about. */
    method TimerTaskPass(xTimeNow: nat, messages: seq<Message>, ghost at: seq<nat>)
      returns (blocked: bool, blockTime: nat, indefinitely: bool)
      requires Valid() && xTimeNow < M
      requires Receivable(messages, at, timers.Keys, xTimeNow, Now() + WrapSub(xTimeNow, xLastTime, M), M)
      modifies this
      ensures Valid() && OthersOnlyFired(MessageIds(messages), old(timers), timers, old(schedules), schedules)
      ensures TimedBy(messages, at, |messages|, old(timers), timers, old(schedules), schedules, M)
      ensures Obeyed(messages, |messages|, timers) && xLastTime == SampleBefore(messages, |messages|, xTimeNow)
      ensures Now() == TimeBefore(at, |at|, old(Now()) + WrapSub(xTimeNow, old(xLastTime), M))
      ensures blocked ==> MayBlock(old(Expiries()), old(timers), old(schedules), old(base) + M,
                                   old(Now()) + WrapSub(xTimeNow, old(xLastTime), M), blockTime, indefinitely)
    {
      ghost var t, s := timers, schedules;
      blocked, blockTime, indefinitely := ServeOrBlock(xTimeNow);
      ghost var t1, s1 := timers, schedules;
      ProcessReceivedCommands(messages, at);
      FiredThenOthers(MessageIds(messages), t, t1, timers, s, s1, schedules);
      FiredThenTimed(messages, at, |messages|, t, t1, timers, s, s1, schedules, M);
    }

    method ServeOrBlock(xTimeNow: nat) returns (blocked: bool, blockTime: nat, indefinitely: bool)
      requires Valid() && xTimeNow < M
      modifies this
      ensures Valid() && xLastTime == xTimeNow && Now() == old(Now()) + WrapSub(xTimeNow, old(xLastTime), M)
      ensures timers.Keys == old(timers).Keys && OnlyFired(old(timers), timers, old(schedules), schedules)
      ensures blocked ==> MayBlock(old(Expiries()), old(timers), old(schedules), old(base) + M, Now(), blockTime, indefinitely)
    {
      var xNextExpireTime, xListWasEmpty := GetNextExpireTime();
      blocked, blockTime, indefinitely := ProcessTimerOrBlockTask(xNextExpireTime, xListWasEmpty, xTimeNow);
    }

    /** The loop of prvTimerTask, for any number of passes. Afterwards every timer reloads itself or not as it was created,
        and is timed by the commands received alone: an active timer stands in the agenda at the next multiple of its
        period since the time it is timed from, whatever passes, wraps and reloads there were in between. */
    method TimerTask(passes: seq<Pass>)
      requires Valid() && Passable(passes, timers.Keys, xLastTime, Now(), M)
      modifies this
      ensures Valid() && TimedSoFar(passes, |passes|, old(timers), timers, old(schedules), schedules, M)
      ensures ActiveListed(Expiries(), timers, schedules)
    {
      ghost var t, s := timers, schedules;
      PassableInRange(passes, timers.Keys, xLastTime, Now(), M);
      var i := 0;
      while i < |passes|
        invariant Passing(passes, i, t, s)
      {
        NextPass(passes, i, t, s);
        i := i + 1;
      }
      ActiveTimersListed(Expiries(), timers, schedules);
    }

    /** i passes are done, and the rest can follow. */
    ghost predicate Passing(passes: seq<Pass>, i: nat, t: map<nat, Timer>, s: map<nat, Schedule>)
      reads this
    {
      && Valid() && TimedSoFar(passes, i, t, timers, s, schedules, M)
      && Passable(passes[i..], timers.Keys, xLastTime, Now(), M)
    }

    method NextPass(passes: seq<Pass>, i: nat, ghost t: map<nat, Timer>, ghost s: map<nat, Schedule>)
      requires Passing(passes, i, t, s) && i < |passes|
      modifies this
      ensures Passing(passes, i + 1, t, s)
    {
      ghost var t1, s1 := timers, schedules;
      assert passes[i..][0] == passes[i] && passes[i..][1..] == passes[i + 1..];
      var blocked, blockTime, indefinitely := TimerTaskPass(passes[i].xTimeNow, passes[i].messages, passes[i].at);
      PassNext(passes, i, t, t1, timers, s, s1, schedules, M);
    }
  }

  lemma {:induction false} ReceivableInRange(messages: seq<Message>, at: seq<nat>, ids: set<nat>, last: nat, now: nat, M: nat)
    requires Receivable(messages, at, ids, last, now, M)
    ensures AllInRange(messages, M)
  {
    forall k | 0 <= k < |messages| ensures InRange(messages[k], M) {
      assert ReceivableAt(messages, at, k, ids, last, now, M);
    }
  }

  /** One pass of the daemon: the tick count it samples first, and the messages it then receives, at their times. */
  datatype Pass = Pass(xTimeNow: nat, messages: seq<Message>, at: seq<nat>)

  ghost predicate Passable(passes: seq<Pass>, ids: set<nat>, last: nat, now: nat, M: nat)
    decreases |passes|
  {
    passes != [] ==>
      var p := passes[0];
      && last < M && p.xTimeNow < M
      && Receivable(p.messages, p.at, ids, p.xTimeNow, now + WrapSub(p.xTimeNow, last, M), M)
      && Passable(passes[1..], ids, SampleBefore(p.messages, |p.messages|, p.xTimeNow),
                  TimeBefore(p.at, |p.at|, now + WrapSub(p.xTimeNow, last, M)), M)
  }

  ghost predicate PassesInRange(passes: seq<Pass>, M: nat) {
    forall k :: 0 <= k < |passes| ==> |passes[k].messages| == |passes[k].at| && AllInRange(passes[k].messages, M)
  }

  lemma {:induction false} PassableInRange(passes: seq<Pass>, ids: set<nat>, last: nat, now: nat, M: nat)
    requires Passable(passes, ids, last, now, M)
    ensures PassesInRange(passes, M)
    decreases |passes|
  {
    if passes != [] {
      var p := passes[0];
      ReceivableInRange(p.messages, p.at, ids, p.xTimeNow, now + WrapSub(p.xTimeNow, last, M), M);
      PassableInRange(passes[1..], ids, SampleBefore(p.messages, |p.messages|, p.xTimeNow),
                      TimeBefore(p.at, |p.at|, now + WrapSub(p.xTimeNow, last, M)), M);
      assert passes == [p] + passes[1..];
    }
  }

  /** After the first n passes */
  ghost function TimedByPasses(passes: seq<Pass>, n: nat, id: nat, was: Timing, M: nat): Timing
    requires n <= |passes| && PassesInRange(passes, M)
  {
    if n == 0 then was else
    var p := passes[n - 1];
    TimedAll(p.messages, p.at, |p.messages|, id, TimedByPasses(passes, n - 1, id, was, M), M)
  }

  ghost predicate TimedSoFar(passes: seq<Pass>, n: nat, t0: map<nat, Timer>, t1: map<nat, Timer>,
                             s0: map<nat, Schedule>, s1: map<nat, Schedule>, M: nat)
  {
    && n <= |passes| && PassesInRange(passes, M) && t0.Keys == t1.Keys == s0.Keys == s1.Keys
    && (forall k {:trigger TimingOf(t1, s1, k)} :: k in t0 ==>
          TimingOf(t1, s1, k) == TimedByPasses(passes, n, k, TimingOf(t0, s0, k), M))
  }

  lemma {:induction false} PassNext(passes: seq<Pass>, n: nat, t0: map<nat, Timer>, t1: map<nat, Timer>, t2: map<nat, Timer>,
                                    s0: map<nat, Schedule>, s1: map<nat, Schedule>, s2: map<nat, Schedule>, M: nat)
    requires TimedSoFar(passes, n, t0, t1, s0, s1, M) && n < |passes|
    requires TimedBy(passes[n].messages, passes[n].at, |passes[n].messages|, t1, t2, s1, s2, M)
    ensures TimedSoFar(passes, n + 1, t0, t2, s0, s2, M)
  {
    var p := passes[n];
    forall k | k in t0
      ensures TimingOf(t2, s2, k) == TimedByPasses(passes, n + 1, k, TimingOf(t0, s0, k), M)
    {
      assert TimingOf(t1, s1, k) == TimedByPasses(passes, n, k, TimingOf(t0, s0, k), M);
      assert TimingOf(t2, s2, k) == TimedAll(p.messages, p.at, |p.messages|, k, TimingOf(t1, s1, k), M);
    }
  }

  /** Message i of pass j is the last of the first n passes' that changes the period of timer id; or the last about it
      that is no stop. */
  ghost predicate LastChangeOf(passes: seq<Pass>, n: nat, j: nat, i: nat, id: nat)
    requires n <= |passes|
  {
    && j < n && LastChange(passes[j].messages, i, |passes[j].messages|, id)
    && forall k :: j < k < n ==> NoChange(passes[k].messages, 0, |passes[k].messages|, id)
  }

  ghost predicate LastCommandOf(passes: seq<Pass>, n: nat, j: nat, i: nat, id: nat)
    requires n <= |passes|
  {
    && j < n && LastCommand(passes[j].messages, i, |passes[j].messages|, id)
    && forall k :: j < k < n ==> OnlyStops(passes[k].messages, 0, |passes[k].messages|, id)
  }

  /** Over any number of passes a timer's period is the one last asked for, or else the one at first, and it is timed from
      the last command that was no stop, or else as at first; how it reloads itself never changes. */
  lemma {:induction false} TimedByLastCommand(passes: seq<Pass>, n: nat, id: nat, was: Timing, M: nat, j: nat, i: nat)
    requires n <= |passes| && PassesInRange(passes, M)
    ensures var r := TimedByPasses(passes, n, id, was, M);
      && r.autoReload == was.autoReload
      && ((forall k :: 0 <= k < n ==> NoChange(passes[k].messages, 0, |passes[k].messages|, id)) ==> r.period == was.period)
      && (LastChangeOf(passes, n, j, i, id) ==> r.period == passes[j].messages[i].command.period)
      && ((forall k :: 0 <= k < n ==> OnlyStops(passes[k].messages, 0, |passes[k].messages|, id)) ==> r.start == was.start)
      && (LastCommandOf(passes, n, j, i, id) ==> r.start == TimedFrom(passes[j].messages[i], passes[j].at[i], M))
    decreases n
  {
    if n != 0 {
      var p := passes[n - 1];
      TimedByLastCommand(passes, n - 1, id, was, M, j, i);
      TimedByLast(p.messages, p.at, |p.messages|, id, TimedByPasses(passes, n - 1, id, was, M), M, i);
    }
  }

  /** Every active timer has its item at the next multiple of its period since its start. */
  ghost predicate ActiveListed(agenda: seq<Item>, timers: map<nat, Timer>, schedules: map<nat, Schedule>) {
    forall id :: id in timers && id in schedules && timers[id].active ==>
      Item(schedules[id].start + (schedules[id].fired + 1) * timers[id].period, id) in agenda
  }

  lemma {:induction false} ActiveTimersListed(agenda: seq<Item>, timers: map<nat, Timer>, schedules: map<nat, Schedule>)
    requires Coherent(agenda, timers, schedules, {})
    ensures ActiveListed(agenda, timers, schedules)
  {
    forall id | id in timers && timers[id].active
      ensures Item(schedules[id].start + (schedules[id].fired + 1) * timers[id].period, id) in agenda
    {
      assert HasId(agenda, id);
      MultipleIsProduct(schedules[id].fired + 1, timers[id].period);
    }
  }

  lemma {:induction false} MessageIdsNext(messages: seq<Message>, i: nat)
    requires i < |messages|
    ensures MessageIds(messages[..i + 1]) == MessageIds(messages[..i]) + {messages[i].id}
  {
    assert messages[..i + 1] == messages[..i] + [messages[i]];
    assert messages[i] in messages[..i + 1] && forall m :: m in messages[..i] ==> m in messages[..i + 1];
  }

  /** The daemon may block at absolute time t until its block time is over: nothing is due, every active
      timer has been called back for exactly the multiples of its period up to t, and a finite block
      time is positive and passes neither the next expiry nor the wrap. */
  ghost predicate MayBlock(agenda: seq<Item>, timers: map<nat, Timer>, schedules: map<nat, Schedule>, wrap: nat,
                           t: nat, blockTime: nat, indefinitely: bool)
  {
    && UpToDate(timers, schedules, t)
    && (forall x :: x in agenda ==> t < x.value)
    && (indefinitely <==> agenda == [])
    && (!indefinitely ==> 0 < blockTime && t + blockTime <= wrap)
    && (!indefinitely ==> forall x :: x in agenda ==> t + blockTime <= x.value)
  }

  /** What serving expiries does to a timer: an auto-reload timer gains callbacks, and a one-shot timer is
      left alone or is called back once and stopped. */
  predicate Fired(t0: Timer, t1: Timer, s0: Schedule, s1: Schedule) {
    && s1.start == s0.start
    && if t0.autoReload then t1 == t0 && s0.fired <= s1.fired
       else (t1 == t0 && s1 == s0) || (t0.active && t1 == t0.(active := false) && s1.fired == s0.fired + 1)
  }

  /** Serving expiries does nothing else to any timer. */
  ghost predicate OnlyFired(t0: map<nat, Timer>, t1: map<nat, Timer>, s0: map<nat, Schedule>, s1: map<nat, Schedule>) {
    && t0.Keys == t1.Keys && s0.Keys == s1.Keys
    && (forall id :: id in t0 && id in s0 ==> Fired(t0[id], t1[id], s0[id], s1[id]))
  }

  /** An auto-reload timer gains callbacks. */
  lemma {:induction false} OneFired(timers: map<nat, Timer>, s0: map<nat, Schedule>, s1: map<nat, Schedule>, id: nat)
    requires id in timers && timers[id].autoReload && id in s0 && id in s1 && s1 == s0[id := s1[id]]
    requires s1[id].start == s0[id].start && s0[id].fired <= s1[id].fired
    ensures OnlyFired(timers, timers, s0, s1)
  {
  }

  predicate CalledBack(id: nat, s0: map<nat, Schedule>, s1: map<nat, Schedule>) {
    id in s0 && id in s1 && s0[id].fired < s1[id].fired
  }

  /** Commands on the timers of ids leave the other timers to their expiries. */
  ghost predicate OthersOnlyFired(ids: set<nat>, t0: map<nat, Timer>, t1: map<nat, Timer>, s0: map<nat, Schedule>, s1: map<nat, Schedule>) {
    && t0.Keys == t1.Keys && s0.Keys == s1.Keys
    && (forall k :: k in t0 && k in s0 && k !in ids ==> Fired(t0[k], t1[k], s0[k], s1[k]))
  }

  lemma {:induction false} OthersOnlyFiredChain(a: set<nat>, b: set<nat>, t0: map<nat, Timer>, t1: map<nat, Timer>, t2: map<nat, Timer>,
                                                s0: map<nat, Schedule>, s1: map<nat, Schedule>, s2: map<nat, Schedule>)
    requires OthersOnlyFired(a, t0, t1, s0, s1) && OthersOnlyFired(b, t1, t2, s1, s2)
    ensures OthersOnlyFired(a + b, t0, t2, s0, s2)
  {
  }

  lemma {:induction false} FiredThenOthers(ids: set<nat>, t0: map<nat, Timer>, t1: map<nat, Timer>, t2: map<nat, Timer>,
                                           s0: map<nat, Schedule>, s1: map<nat, Schedule>, s2: map<nat, Schedule>)
    requires OnlyFired(t0, t1, s0, s1) && OthersOnlyFired(ids, t1, t2, s1, s2)
    ensures OthersOnlyFired(ids, t0, t2, s0, s2)
  {
  }

  lemma {:induction false} FiredAfterChange(id: nat, t0: map<nat, Timer>, t1: map<nat, Timer>, t2: map<nat, Timer>,
                                            s0: map<nat, Schedule>, s1: map<nat, Schedule>, s2: map<nat, Schedule>)
    requires id in t0 && id in s0 && id in t1 && id in s1 && t1 == t0[id := t1[id]] && s1 == s0[id := s1[id]]
    requires OnlyFired(t1, t2, s1, s2)
    ensures OthersOnlyFired({id}, t0, t2, s0, s2)
  {
  }

  lemma {:induction false} OnlyFiredChain(t0: map<nat, Timer>, t1: map<nat, Timer>, t2: map<nat, Timer>,
                                          s0: map<nat, Schedule>, s1: map<nat, Schedule>, s2: map<nat, Schedule>)
    requires OnlyFired(t0, t1, s0, s1) && OnlyFired(t1, t2, s1, s2)
    ensures OnlyFired(t0, t2, s0, s2)
  {
  }

  /** Auto-reload timers neither drift nor drop an expiry: once nothing is due at N, the callbacks made
      since the start are exactly the multiples of the period up to N. */
  lemma {:induction false} ExactlyOneCallbackEach(agenda: seq<Item>, timers: map<nat, Timer>, schedules: map<nat, Schedule>,
                                                  N: nat, id: nat, k: nat)
    requires Coherent(agenda, timers, schedules, {}) && NoneEarly(timers, schedules, N)
    requires forall x :: x in agenda ==> N < x.value
    requires id in timers && timers[id].active && 0 < timers[id].period
    ensures schedules[id].start + k * timers[id].period <= N && 0 < k ==> k <= schedules[id].fired
    ensures 0 < k <= schedules[id].fired ==> schedules[id].start + k * timers[id].period <= N
  {
    var s, p := schedules[id], timers[id].period;
    assert HasId(agenda, id);
    var x :| x in agenda && x.id == id;
    MultipleIsProduct(k, p);
    if k <= s.fired {
      MultipleMonotone(k, s.fired, p);
    } else {
      MultipleMonotone(s.fired + 1, k, p);
    }
  }

  /** A one-shot timer started with no callback made, and left to its expiries since, has been called
      back once and stopped if its expiry has passed by N, and else is still to be called back. */
  lemma {:induction false} OneShotRunsOnce(t0: map<nat, Timer>, t1: map<nat, Timer>, s0: map<nat, Schedule>, s1: map<nat, Schedule>,
                                           ids: set<nat>, agenda: seq<Item>, N: nat, id: nat)
    requires OthersOnlyFired(ids, t0, t1, s0, s1) && id in t0 && id in s0 && id !in ids
    requires !t0[id].autoReload && t0[id].active && s0[id].fired == 0
    requires Coherent(agenda, t1, s1, {}) && NoneEarly(t1, s1, N) && forall x :: x in agenda ==> N < x.value
    ensures if s0[id].start + t0[id].period <= N then !t1[id].active && s1[id].fired == 1
            else t1[id].active && s1[id].fired == 0
  {
    FirstExpiry(t0[id], s0[id]);
    if t1[id].active {
      assert HasId(agenda, id);
    }
  }

  /** Every active timer has been called back for exactly the multiples of its period up to N. */
  ghost predicate UpToDate(timers: map<nat, Timer>, schedules: map<nat, Schedule>, N: nat) {
    forall id, k: nat {:trigger Elapsed(timers, schedules, id, k, N)} ::
      id in timers && id in schedules && timers[id].active && 0 < k ==> (k <= schedules[id].fired <==> Elapsed(timers, schedules, id, k, N))
  }

  ghost predicate Elapsed(timers: map<nat, Timer>, schedules: map<nat, Schedule>, id: nat, k: nat, N: nat)
    requires id in timers && id in schedules
  {
    schedules[id].start + k * timers[id].period <= N
  }

  lemma {:induction false} NothingMissed(agenda: seq<Item>, timers: map<nat, Timer>, schedules: map<nat, Schedule>, N: nat)
    requires Coherent(agenda, timers, schedules, {}) && NoneEarly(timers, schedules, N)
    requires forall x :: x in agenda ==> N < x.value
    requires forall id :: id in timers ==> 0 < timers[id].period
    ensures UpToDate(timers, schedules, N)
  {
    forall id, k: nat | id in timers && id in schedules && timers[id].active && 0 < k
      ensures k <= schedules[id].fired <==> Elapsed(timers, schedules, id, k, N)
    {
      ExactlyOneCallbackEach(agenda, timers, schedules, N, id, k);
    }
  }

  lemma {:induction false} MultipleMonotone(a: nat, b: nat, period: nat)
    requires a <= b
    ensures Multiple(a, period) <= Multiple(b, period)
  {
    MultipleAdd(a, b - a, period);
  }
}
