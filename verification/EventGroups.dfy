/** OS/event_groups.c: tasks waiting for bits.

    The sections of these calls run with the scheduler suspended, and interrupts reach an event group only through
    the timer task, so each section is one step. A word is the set of the positions of its one bits. */
module EventGroups {
  import opened KernelConfig

  type Word = set<nat>

  const eventCLEAR_EVENTS_ON_EXIT_BIT: nat := 24
  const eventUNBLOCKED_DUE_TO_BIT_SET: nat := 25
  const eventWAIT_FOR_ALL_BITS: nat := 26
  const taskEVENT_LIST_ITEM_VALUE_IN_USE: nat := 31
  const eventEVENT_BITS_CONTROL_BYTES: Word := {24, 25, 26, 27, 28, 29, 30, 31}

  /** An event list item: its value holds the bits waited for and the control bits. */
  datatype Waiter = Waiter(value: Word, task: nat)

  /** released and timedOut hold the item values of the tasks that are off the list but have not run yet. */
  datatype Group = Group(bits: Word, waiters: seq<Waiter>, released: map<nat, Word>, timedOut: map<nat, Word>)

  function UserBits(value: Word): Word {
    value - eventEVENT_BITS_CONTROL_BYTES
  }

  predicate WaitsForAll(value: Word) {
    eventWAIT_FOR_ALL_BITS in value
  }

  predicate ClearsOnExit(value: Word) {
    eventCLEAR_EVENTS_ON_EXIT_BIT in value
  }

  /** prvTestWaitCondition */
  predicate TestWaitCondition(current: Word, waitedFor: Word, all: bool) {
    if all then current * waitedFor == waitedFor else current * waitedFor != {}
  }

  /** The bits meet a wait: all of the bits waited for are set, or any of them is. */
  ghost predicate Meets(bits: Word, waitFor: Word, all: bool) {
    if all then forall b :: b in waitFor ==> b in bits else exists b :: b in waitFor && b in bits
  }

  lemma {:induction false} ConditionMeans(bits: Word, waitFor: Word, all: bool)
    ensures TestWaitCondition(bits, waitFor, true) <==> forall b :: b in waitFor ==> b in bits
    ensures TestWaitCondition(bits, waitFor, false) <==> exists b :: b in waitFor && b in bits
    ensures TestWaitCondition(bits, waitFor, all) <==> Meets(bits, waitFor, all)
  {
    if bits * waitFor == waitFor {
      assert forall b :: b in waitFor ==> b in bits * waitFor;
    }
    if b :| b in waitFor && b in bits {
      assert b in bits * waitFor;
    }
  }

  predicate Matches(value: Word, bits: Word) {
    TestWaitCondition(bits, UserBits(value), WaitsForAll(value))
  }

  function Unmatched(ws: seq<Waiter>, bits: Word): seq<Waiter> {
    if ws == [] then []
    else if Matches(ws[0].value, bits) then Unmatched(ws[1..], bits) else [ws[0]] + Unmatched(ws[1..], bits)
  }

  /** The bits of all matched waiters that clear on exit */
  function ToClear(ws: seq<Waiter>, bits: Word): Word {
    if ws == [] then {}
    else (if Matches(ws[0].value, bits) && ClearsOnExit(ws[0].value) then UserBits(ws[0].value) else {}) + ToClear(ws[1..], bits)
  }

  /** What a released task finds in its item */
  function Snapshot(bits: Word): Word {
    bits + {eventUNBLOCKED_DUE_TO_BIT_SET} + {taskEVENT_LIST_ITEM_VALUE_IN_USE}
  }

  function Release(ws: seq<Waiter>, bits: Word, released: map<nat, Word>): map<nat, Word> {
    if ws == [] then released
    else Release(ws[1..], bits, if Matches(ws[0].value, bits) then released[ws[0].task := Snapshot(bits)] else released)
  }

  function SetBits(g: Group, toSet: Word): Group {
    var bits := g.bits + toSet;
    g.(bits := bits - ToClear(g.waiters, bits), waiters := Unmatched(g.waiters, bits),
       released := Release(g.waiters, bits, g.released))
  }

  function WaitValue(waitFor: Word, clear: bool, all: bool): Word {
    waitFor + (if clear then {eventCLEAR_EVENTS_ON_EXIT_BIT} else {}) + (if all then {eventWAIT_FOR_ALL_BITS} else {})
    + {taskEVENT_LIST_ITEM_VALUE_IN_USE}
  }

  function ClearBits(g: Group, toClear: Word): Group {
    g.(bits := g.bits - toClear)
  }

  /** The section of xEventGroupWaitBits before the task sleeps */
  function WaitBits(g: Group, t: nat, waitFor: Word, clear: bool, all: bool, mayBlock: bool): Group {
    if TestWaitCondition(g.bits, waitFor, all) then (if clear then ClearBits(g, waitFor) else g)
    else if !mayBlock then g
    else g.(waiters := g.waiters + [Waiter(WaitValue(waitFor, clear, all), t)])
  }

  function Sync(g: Group, t: nat, toSet: Word, waitFor: Word, mayBlock: bool): Group {
    var h := SetBits(g, toSet);
    if (g.bits + toSet) * waitFor == waitFor then ClearBits(h, waitFor)
    else if !mayBlock then h
    else h.(waiters := h.waiters + [Waiter(WaitValue(waitFor, true, true), t)])
  }

  /** A task that timed out looks at the bits once more. */
  function AfterTimeout(g: Group, value: Word): Group {
    if Matches(value, g.bits) && ClearsOnExit(value) then ClearBits(g, UserBits(value)) else g
  }

  function Without(ws: seq<Waiter>, t: nat): seq<Waiter> {
    if ws == [] then [] else if ws[0].task == t then ws[1..] else [ws[0]] + Without(ws[1..], t)
  }

  function Find(ws: seq<Waiter>, t: nat): Option<Waiter> {
    if ws == [] then None else if ws[0].task == t then Some(ws[0]) else Find(ws[1..], t)
  }

  // ---- Bits ----

  predicate UserOnly(bits: Word) {
    bits * eventEVENT_BITS_CONTROL_BYTES == {}
  }

  lemma {:induction false} MatchesFewer(value: Word, bits: Word, cleared: Word)
    requires Matches(value, bits - cleared)
    ensures Matches(value, bits)
  {
    var u := UserBits(value);
    if WaitsForAll(value) {
      assert bits * u == u by {
        assert forall b :: b in u ==> b in (bits - cleared) * u;
      }
    } else {
      var b :| b in (bits - cleared) * u;
      assert b in bits * u;
    }
  }

  lemma {:induction false} WaitValueReads(waitFor: Word, clear: bool, all: bool)
    requires UserOnly(waitFor)
    ensures var v := WaitValue(waitFor, clear, all);
      UserBits(v) == waitFor && (WaitsForAll(v) <==> all) && (ClearsOnExit(v) <==> clear)
  {
    var v := WaitValue(waitFor, clear, all);
    assert forall b :: b in waitFor ==> b !in eventEVENT_BITS_CONTROL_BYTES by {
      assert forall b :: b in waitFor && b in eventEVENT_BITS_CONTROL_BYTES ==> b in waitFor * eventEVENT_BITS_CONTROL_BYTES;
    }
    assert UserBits(v) == waitFor;
  }

  // ---- One traversal ----

  ghost predicate UniqueTasks(ws: seq<Waiter>) {
    ws == [] || ((forall w :: w in ws[1..] ==> w.task != ws[0].task) && UniqueTasks(ws[1..]))
  }

  lemma {:induction false} UnmatchedMembers(ws: seq<Waiter>, bits: Word)
    ensures forall w :: w in Unmatched(ws, bits) <==> w in ws && !Matches(w.value, bits)
    ensures UniqueTasks(ws) ==> UniqueTasks(Unmatched(ws, bits))
  {
    if ws != [] {
      UnmatchedMembers(ws[1..], bits);
      assert ws == [ws[0]] + ws[1..];
      var rest := Unmatched(ws[1..], bits);
      assert ([ws[0]] + rest)[1..] == rest;
    }
  }

  /** Exactly those stay whose wait the bits do not meet. */
  lemma {:induction false} StayIfUnmet(ws: seq<Waiter>, bits: Word)
    ensures forall w :: w in Unmatched(ws, bits) <==> w in ws && !Meets(bits, UserBits(w.value), WaitsForAll(w.value))
  {
    UnmatchedMembers(ws, bits);
    forall w: Waiter ensures Matches(w.value, bits) <==> Meets(bits, UserBits(w.value), WaitsForAll(w.value)) {
      ConditionMeans(bits, UserBits(w.value), WaitsForAll(w.value));
    }
  }

  ghost predicate Released(ws: seq<Waiter>, bits: Word, t: nat) {
    exists w :: w in ws && w.task == t && Matches(w.value, bits)
  }

  /** Exactly the tasks of matched waiters are released, all with the same snapshot. */
  lemma {:induction false} ReleaseExact(ws: seq<Waiter>, bits: Word, released: map<nat, Word>, t: nat)
    ensures var r := Release(ws, bits, released);
      && (Released(ws, bits, t) ==> t in r && r[t] == Snapshot(bits))
      && (!Released(ws, bits, t) ==> (t in r <==> t in released) && (t in r ==> r[t] == released[t]))
  {
    if ws != [] {
      ReleaseExact(ws[1..], bits, if Matches(ws[0].value, bits) then released[ws[0].task := Snapshot(bits)] else released, t);
      assert ws == [ws[0]] + ws[1..];
      assert Released(ws, bits, t) <==> Released(ws[1..], bits, t) || (ws[0].task == t && Matches(ws[0].value, bits));
    }
  }

  /** A matched waiter that clears on exit waited for bit b. */
  ghost predicate ClearedBy(ws: seq<Waiter>, bits: Word, b: nat) {
    exists w :: w in ws && Matches(w.value, bits) && ClearsOnExit(w.value) && b in UserBits(w.value)
  }

  lemma {:induction false} ToClearIsUnion(ws: seq<Waiter>, bits: Word, b: nat)
    ensures b in ToClear(ws, bits) <==> ClearedBy(ws, bits, b)
  {
    if ws != [] {
      ToClearIsUnion(ws[1..], bits, b);
      assert ws == [ws[0]] + ws[1..];
      assert ClearedBy(ws, bits, b) <==>
        (ClearedBy(ws[1..], bits, b) ||
         (Matches(ws[0].value, bits) && ClearsOnExit(ws[0].value) && b in UserBits(ws[0].value)));
    }
  }

  // ---- The invariant ----

  /** Nobody sleeps whose condition the bits meet. */
  ghost predicate NoSatisfiedSleeper(g: Group) {
    forall w :: w in g.waiters ==> !Matches(w.value, g.bits)
  }

  ghost predicate Inv(g: Group) {
    && UserOnly(g.bits)
    && UniqueTasks(g.waiters) && NoSatisfiedSleeper(g)
    && (forall w :: w in g.waiters ==> w.task !in g.released && w.task !in g.timedOut)
    && (forall t :: t in g.released ==> t !in g.timedOut)
  }

  lemma {:induction false} ClearKeepsInv(g: Group, toClear: Word)
    requires Inv(g)
    ensures Inv(ClearBits(g, toClear))
  {
    forall w | w in g.waiters ensures !Matches(w.value, g.bits - toClear) {
      if Matches(w.value, g.bits - toClear) {
        MatchesFewer(w.value, g.bits, toClear);
      }
    }
  }

  lemma {:induction false} SetBitsKeepsInv(g: Group, toSet: Word)
    requires Inv(g) && UserOnly(toSet)
    ensures Inv(SetBits(g, toSet))
  {
    var bits, mask, r := g.bits + toSet, ToClear(g.waiters, g.bits + toSet), SetBits(g, toSet);
    UnmatchedMembers(g.waiters, bits);
    forall w | w in r.waiters ensures !Matches(w.value, r.bits) && w.task !in r.released {
      if Matches(w.value, r.bits) {
        MatchesFewer(w.value, bits, mask);
      }
      SleeperNotReleased(g.waiters, bits, w);
      ReleaseExact(g.waiters, bits, g.released, w.task);
    }
    forall t | t in r.released ensures t !in r.timedOut {
      ReleaseExact(g.waiters, bits, g.released, t);
    }
  }

  lemma {:induction false} OneItemEach(ws: seq<Waiter>, v: Waiter, w: Waiter)
    requires UniqueTasks(ws) && v in ws && w in ws && v.task == w.task
    ensures v == w
  {
    assert ws == [ws[0]] + ws[1..];
    if v != ws[0] && w != ws[0] {
      OneItemEach(ws[1..], v, w);
    }
  }

  lemma {:induction false} SleeperNotReleased(ws: seq<Waiter>, bits: Word, w: Waiter)
    requires UniqueTasks(ws) && w in ws && !Matches(w.value, bits)
    ensures !Released(ws, bits, w.task)
  {
    forall v | v in ws && v.task == w.task ensures !Matches(v.value, bits) {
      OneItemEach(ws, v, w);
    }
  }

  lemma {:induction false} ReleasedMatch(g: Group, toSet: Word, w: Waiter)
    requires Inv(g) && w in g.waiters
    ensures var r := SetBits(g, toSet);
      && (w in r.waiters <==> !Matches(w.value, g.bits + toSet))
      && (w.task in r.released <==> Matches(w.value, g.bits + toSet))
      && (w.task in r.released ==> r.released[w.task] == Snapshot(g.bits + toSet))
  {
    UnmatchedMembers(g.waiters, g.bits + toSet);
    ReleaseExact(g.waiters, g.bits + toSet, g.released, w.task);
    if !Matches(w.value, g.bits + toSet) {
      SleeperNotReleased(g.waiters, g.bits + toSet, w);
    }
  }

  /** xEventGroupSetBits, for a task that called with waitFor and all: it is released, with all the bits old and new, exactly if
      each of the bits it waits for is one of these, or any of them if that is enough; otherwise it sleeps on with its item. */
  lemma {:induction false} SetBitsExact(g: Group, toSet: Word, t: nat, waitFor: Word, clear: bool, all: bool)
    requires Inv(g) && UserOnly(waitFor) && Waiter(WaitValue(waitFor, clear, all), t) in g.waiters
    ensures var r, w := SetBits(g, toSet), Waiter(WaitValue(waitFor, clear, all), t);
      && (if all then (t in r.released <==> forall b :: b in waitFor ==> b in g.bits || b in toSet)
          else (t in r.released <==> exists b :: b in waitFor && (b in g.bits || b in toSet)))
      && (w in r.waiters <==> t !in r.released)
      && (t in r.released ==> forall b :: b !in eventEVENT_BITS_CONTROL_BYTES ==>
            (b in r.released[t] <==> b in g.bits || b in toSet))
  {
    var w := Waiter(WaitValue(waitFor, clear, all), t);
    ReleasedMatch(g, toSet, w);
    WaitValueReads(waitFor, clear, all);
    ConditionMeans(g.bits + toSet, waitFor, all);
  }

  /** A bit is set afterwards exactly if it was set or is being set, and no released waiter that clears on exit waited
      for it. */
  lemma {:induction false} SetBitsClearsExactly(g: Group, toSet: Word, b: nat)
    ensures b in SetBits(g, toSet).bits <==>
      ((b in g.bits || b in toSet) && !ClearedBy(g.waiters, g.bits + toSet, b))
  {
    ToClearIsUnion(g.waiters, g.bits + toSet, b);
  }

  lemma {:induction false} AppendKeepsUnique(ws: seq<Waiter>, x: Waiter)
    requires UniqueTasks(ws) && forall w :: w in ws ==> w.task != x.task
    ensures UniqueTasks(ws + [x])
  {
    if ws != [] {
      assert ws == [ws[0]] + ws[1..];
      assert (ws + [x])[1..] == ws[1..] + [x];
      AppendKeepsUnique(ws[1..], x);
    } else {
      assert [x][1..] == [] && ws + [x] == [x];
    }
  }

  ghost predicate Free(g: Group, t: nat) {
    t !in g.released && t !in g.timedOut && forall w :: w in g.waiters ==> w.task != t
  }

  lemma {:induction false} SleepKeepsInv(g: Group, t: nat, value: Word)
    requires Inv(g) && Free(g, t) && !Matches(value, g.bits)
    ensures Inv(g.(waiters := g.waiters + [Waiter(value, t)]))
  {
    AppendKeepsUnique(g.waiters, Waiter(value, t));
  }

  lemma {:induction false} WaitKeepsInv(g: Group, t: nat, waitFor: Word, clear: bool, all: bool, mayBlock: bool)
    requires Inv(g) && Free(g, t) && UserOnly(waitFor)
    ensures Inv(WaitBits(g, t, waitFor, clear, all, mayBlock))
  {
    WaitValueReads(waitFor, clear, all);
    if TestWaitCondition(g.bits, waitFor, all) {
      ClearKeepsInv(g, waitFor);
    } else {
      SleepKeepsInv(g, t, WaitValue(waitFor, clear, all));
    }
  }

  /** A wait returns at once exactly if the bits meet it, and then takes the bits it waited for out of the group, or no
      bits; otherwise it goes to sleep behind the others, if it may, and changes nothing else. */
  lemma {:induction false} WaitExact(g: Group, t: nat, waitFor: Word, clear: bool, all: bool, mayBlock: bool, b: nat)
    ensures var r, met := WaitBits(g, t, waitFor, clear, all, mayBlock), Meets(g.bits, waitFor, all);
      && (b in r.bits <==> b in g.bits && !(met && clear && b in waitFor))
      && r.waiters == (if mayBlock && !met then g.waiters + [Waiter(WaitValue(waitFor, clear, all), t)] else g.waiters)
      && r.released == g.released && r.timedOut == g.timedOut
  {
    ConditionMeans(g.bits, waitFor, all);
  }

  /** Beside what setting the bits does: a rendezvous that is complete clears its bits, and one that is not waits for all
      of them, if it may. */
  lemma {:induction false} SyncExact(g: Group, t: nat, toSet: Word, waitFor: Word, mayBlock: bool, b: nat)
    ensures var r, h := Sync(g, t, toSet, waitFor, mayBlock), SetBits(g, toSet);
      var complete := forall k :: k in waitFor ==> k in g.bits || k in toSet;
      && (b in r.bits <==> b in h.bits && !(complete && b in waitFor))
      && r.waiters == (if mayBlock && !complete then h.waiters + [Waiter(WaitValue(waitFor, true, true), t)] else h.waiters)
      && r.released == h.released && r.timedOut == h.timedOut
  {
    ConditionMeans(g.bits + toSet, waitFor, true);
  }

  /** Clearing takes exactly the given bits out. */
  lemma {:induction false} ClearExact(g: Group, toClear: Word, b: nat)
    ensures b in ClearBits(g, toClear).bits <==> b in g.bits && b !in toClear
    ensures ClearBits(g, toClear) == g.(bits := ClearBits(g, toClear).bits)
  {
  }

  /** A task whose time is over leaves the list, alone, and its item is kept; when it looks again, it takes its bits out
      exactly if they are met now and the call clears on exit. */
  lemma {:induction false} TimeoutExact(g: Group, t: nat, waitFor: Word, clear: bool, all: bool, b: nat)
    requires Inv(g) && UserOnly(waitFor) && Waiter(WaitValue(waitFor, clear, all), t) in g.waiters
    ensures Enabled(g, Timeout(t))
    ensures var r, v := Step(g, Timeout(t)), WaitValue(waitFor, clear, all);
      && (forall w :: w in r.waiters <==> w in g.waiters && w.task != t)
      && r.timedOut == g.timedOut[t := v] && r.bits == g.bits && r.released == g.released
      && (b in AfterTimeout(g, v).bits <==> b in g.bits && !(Meets(g.bits, waitFor, all) && clear && b in waitFor))
  {
    var w := Waiter(WaitValue(waitFor, clear, all), t);
    WithoutMembers(g.waiters, t);
    FindThere(g.waiters, w);
    WaitValueReads(waitFor, clear, all);
    ConditionMeans(g.bits, waitFor, all);
  }

  lemma {:induction false} FindThere(ws: seq<Waiter>, w: Waiter)
    requires UniqueTasks(ws) && w in ws
    ensures Find(ws, w.task) == Some(w)
  {
    assert ws == [ws[0]] + ws[1..];
    if ws[0] != w {
      FindThere(ws[1..], w);
    }
  }

  lemma {:induction false} SyncKeepsInv(g: Group, t: nat, toSet: Word, waitFor: Word, mayBlock: bool)
    requires Inv(g) && Free(g, t) && UserOnly(waitFor) && UserOnly(toSet)
    ensures Inv(Sync(g, t, toSet, waitFor, mayBlock))
  {
    var h, bits := SetBits(g, toSet), g.bits + toSet;
    SetBitsKeepsInv(g, toSet);
    if bits * waitFor == waitFor {
      ClearKeepsInv(h, waitFor);
    } else {
      WaitValueReads(waitFor, true, true);
      var value := WaitValue(waitFor, true, true);
      if Matches(value, h.bits) {
        MatchesFewer(value, bits, ToClear(g.waiters, bits));
      }
      UnmatchedMembers(g.waiters, bits);
      ReleaseExact(g.waiters, bits, g.released, t);
      SleepKeepsInv(h, t, value);
    }
  }

  /** The task that completes a rendezvous releases every other task of it in its own traversal, with a value that
      shows the rendezvous complete, and leaves the rendezvous bits clear. */
  lemma {:induction false} RendezvousReleasesAll(g: Group, t: nat, toSet: Word, waitFor: Word, mayBlock: bool, w: Waiter)
    requires Inv(g) && UserOnly(waitFor)
    requires (g.bits + toSet) * waitFor == waitFor
    requires w in g.waiters && w.value == WaitValue(waitFor, true, true)
    ensures var r := Sync(g, t, toSet, waitFor, mayBlock);
      && w !in r.waiters && w.task in r.released
      && waitFor <= r.released[w.task] && r.bits * waitFor == {}
  {
    WaitValueReads(waitFor, true, true);
    ReleasedMatch(g, toSet, w);
    assert forall b :: b in waitFor ==> b in (g.bits + toSet) * waitFor;
  }

  // ---- Runs ----

  datatype Event =
    | Set(toSet: Word)
    | Clear(toClear: Word)
    | Wait(task: nat, waitFor: Word, clear: bool, all: bool, mayBlock: bool)
    | Rendezvous(task: nat, toSet: Word, waitFor: Word, mayBlock: bool)
    | Timeout(task: nat)
    | ReturnReleased(task: nat)
    | ReturnTimedOut(task: nat)

  ghost predicate Enabled(g: Group, e: Event) {
    match e
    case Set(toSet) => UserOnly(toSet)
    case Clear(toClear) => UserOnly(toClear)
    case Wait(t, waitFor, _, _, _) => Free(g, t) && UserOnly(waitFor) && waitFor != {}
    case Rendezvous(t, toSet, waitFor, _) =>
      Free(g, t) && UserOnly(waitFor) && waitFor != {} && UserOnly(toSet)
    case Timeout(t) => Find(g.waiters, t).Some?
    case ReturnReleased(t) => t in g.released
    case ReturnTimedOut(t) => t in g.timedOut
  }

  ghost function Step(g: Group, e: Event): Group
    requires Enabled(g, e)
  {
    match e
    case Set(toSet) => SetBits(g, toSet)
    case Clear(toClear) => ClearBits(g, toClear)
    case Wait(t, waitFor, clear, all, mayBlock) => WaitBits(g, t, waitFor, clear, all, mayBlock)
    case Rendezvous(t, toSet, waitFor, mayBlock) => Sync(g, t, toSet, waitFor, mayBlock)
    case Timeout(t) => g.(waiters := Without(g.waiters, t), timedOut := g.timedOut[t := Find(g.waiters, t).value.value])
    case ReturnReleased(t) => g.(released := g.released - {t})
    case ReturnTimedOut(t) => AfterTimeout(g, g.timedOut[t]).(timedOut := g.timedOut - {t})
  }

  lemma {:induction false} WithoutMembers(ws: seq<Waiter>, t: nat)
    requires UniqueTasks(ws)
    ensures forall w :: w in Without(ws, t) <==> w in ws && w.task != t
    ensures UniqueTasks(Without(ws, t)) && (Find(ws, t).Some? ==> Find(ws, t).value in ws && Find(ws, t).value.task == t)
  {
    if ws != [] {
      WithoutMembers(ws[1..], t);
      assert ws == [ws[0]] + ws[1..];
      var rest := Without(ws[1..], t);
      assert ([ws[0]] + rest)[1..] == rest;
    }
  }

  lemma {:induction false} StepKeepsInv(g: Group, e: Event)
    requires Inv(g) && Enabled(g, e)
    ensures Inv(Step(g, e))
  {
    match e
    case Set(toSet) => SetBitsKeepsInv(g, toSet);
    case Clear(toClear) => ClearKeepsInv(g, toClear);
    case Wait(t, waitFor, clear, all, mayBlock) => WaitKeepsInv(g, t, waitFor, clear, all, mayBlock);
    case Rendezvous(t, toSet, waitFor, mayBlock) => SyncKeepsInv(g, t, toSet, waitFor, mayBlock);
    case Timeout(t) => WithoutMembers(g.waiters, t);
    case ReturnReleased(t) =>
    case ReturnTimedOut(t) => ClearKeepsInv(g, UserBits(g.timedOut[t]));
  }

  ghost predicate IsRun(g: Group, es: seq<Event>)
    decreases |es|
  {
    es != [] ==> Enabled(g, es[0]) && IsRun(Step(g, es[0]), es[1..])
  }

  ghost function Run(g: Group, es: seq<Event>): Group
    requires IsRun(g, es)
    decreases |es|
  {
    if es == [] then g else Run(Step(g, es[0]), es[1..])
  }

  lemma {:induction false} RunKeepsInv(g: Group, es: seq<Event>)
    requires Inv(g) && IsRun(g, es)
    ensures Inv(Run(g, es))
    decreases |es|
  {
    if es != [] {
      StepKeepsInv(g, es[0]);
      RunKeepsInv(Step(g, es[0]), es[1..]);
    }
  }

  /** What a call that may sleep waits for */
  datatype Wanted = Wanted(waitFor: Word, clear: bool, all: bool)

  /** What each task last asked for */
  function Ask(asked: map<nat, Wanted>, e: Event): map<nat, Wanted> {
    match e
    case Wait(t, waitFor, clear, all, _) => asked[t := Wanted(waitFor, clear, all)]
    case Rendezvous(t, _, waitFor, _) => asked[t := Wanted(waitFor, true, true)]
    case _ => asked
  }

  ghost function AskedFor(asked: map<nat, Wanted>, es: seq<Event>): map<nat, Wanted>
    decreases |es|
  {
    if es == [] then asked else AskedFor(Ask(asked, es[0]), es[1..])
  }

  /** Whoever sleeps has the item its call made. */
  ghost predicate ItemsAsAsked(g: Group, asked: map<nat, Wanted>) {
    forall w :: w in g.waiters ==>
      && w.task in asked && UserOnly(asked[w.task].waitFor)
      && w.value == WaitValue(asked[w.task].waitFor, asked[w.task].clear, asked[w.task].all)
  }

  lemma {:induction false} StepKeepsItems(g: Group, e: Event, asked: map<nat, Wanted>)
    requires Inv(g) && Enabled(g, e) && ItemsAsAsked(g, asked)
    ensures ItemsAsAsked(Step(g, e), Ask(asked, e))
  {
    match e
    case Set(toSet) => UnmatchedMembers(g.waiters, g.bits + toSet);
    case Rendezvous(_, toSet, _, _) => UnmatchedMembers(g.waiters, g.bits + toSet);
    case Timeout(t) => WithoutMembers(g.waiters, t);
    case _ =>
  }

  lemma {:induction false} RunKeepsItems(g: Group, es: seq<Event>, asked: map<nat, Wanted>)
    requires Inv(g) && IsRun(g, es) && ItemsAsAsked(g, asked)
    ensures Inv(Run(g, es)) && ItemsAsAsked(Run(g, es), AskedFor(asked, es))
    decreases |es|
  {
    if es != [] {
      StepKeepsInv(g, es[0]);
      StepKeepsItems(g, es[0], asked);
      RunKeepsItems(Step(g, es[0]), es[1..], Ask(asked, es[0]));
    }
  }

  lemma {:induction false} SleepersLackBits(es: seq<Event>, w: Waiter)
    requires IsRun(Group({}, [], map[], map[]), es) && w in Run(Group({}, [], map[], map[]), es).waiters
    ensures w.task in AskedFor(map[], es)
    ensures var r, call := Run(Group({}, [], map[], map[]), es), AskedFor(map[], es)[w.task];
      if call.all then exists b :: b in call.waitFor && b !in r.bits else forall b :: b in call.waitFor ==> b !in r.bits
  {
    RunKeepsItems(Group({}, [], map[], map[]), es, map[]);
    var r, call := Run(Group({}, [], map[], map[]), es), AskedFor(map[], es)[w.task];
    WaitValueReads(call.waitFor, call.clear, call.all);
    ConditionMeans(r.bits, call.waitFor, call.all);
  }

  /** In every reachable state no task sleeps whose any-bit or all-bits condition the event bits meet, that is: of what its
      call asked for, some bit is not set, and none is unless it asked for all. */
  lemma {:induction false} NobodySleepsSatisfied(es: seq<Event>)
    requires IsRun(Group({}, [], map[], map[]), es)
    ensures NoSatisfiedSleeper(Run(Group({}, [], map[], map[]), es))
    ensures var r, asked := Run(Group({}, [], map[], map[]), es), AskedFor(map[], es);
      forall w :: w in r.waiters ==>
        && w.task in asked
        && if asked[w.task].all then exists b :: b in asked[w.task].waitFor && b !in r.bits
           else forall b :: b in asked[w.task].waitFor ==> b !in r.bits
  {
    RunKeepsItems(Group({}, [], map[], map[]), es, map[]);
    forall w | w in Run(Group({}, [], map[], map[]), es).waiters
      ensures w.task in AskedFor(map[], es)
      ensures var r, call := Run(Group({}, [], map[], map[]), es), AskedFor(map[], es)[w.task];
        if call.all then exists b :: b in call.waitFor && b !in r.bits else forall b :: b in call.waitFor ==> b !in r.bits
    {
      SleepersLackBits(es, w);
    }
  }

  // ---- The kernel's code ----

  /** listGET_HEAD_ENTRY, or the end marker */
  function HeadEntry(ws: seq<Waiter>): Option<nat> {
    if ws == [] then None else Some(ws[0].task)
  }

  /** listGET_NEXT */
  function NextEntry(ws: seq<Waiter>, t: nat): Option<nat> {
    if ws == [] then None else if ws[0].task == t then HeadEntry(ws[1..]) else NextEntry(ws[1..], t)
  }

  lemma {:induction false} AtEntry(kept: seq<Waiter>, x: Waiter, rest: seq<Waiter>)
    requires forall w :: w in kept ==> w.task != x.task
    ensures Find(kept + [x] + rest, x.task) == Some(x)
    ensures NextEntry(kept + [x] + rest, x.task) == HeadEntry(rest)
    ensures Without(kept + [x] + rest, x.task) == kept + rest
  {
    var ws := kept + [x] + rest;
    if kept == [] {
      assert ws[0] == x && ws[1..] == rest;
    } else {
      assert ws[0] == kept[0] && ws[1..] == kept[1..] + [x] + rest;
      AtEntry(kept[1..], x, rest);
    }
  }

  /** The traversal has kept some waiters, and rest is still to be visited. */
  ghost predicate Visiting(goal: Group, bits: Word, list: seq<Waiter>, released: map<nat, Word>, toClear: Word,
                           kept: seq<Waiter>, rest: seq<Waiter>)
  {
    && list == kept + rest && UniqueTasks(rest)
    && (forall k, w :: k in kept && w in rest ==> k.task != w.task)
    && goal.waiters == kept + Unmatched(rest, bits)
    && goal.released == Release(rest, bits, released)
    && goal.bits == bits - (toClear + ToClear(rest, bits))
  }

  /** One visit: the item and the one after it are found, and the traversal goes on from there, whether or not the
      item is taken off the list. */
  lemma {:induction false} VisitNext(goal: Group, bits: Word, list: seq<Waiter>, released: map<nat, Word>, toClear: Word,
                                     kept: seq<Waiter>, rest: seq<Waiter>)
    requires Visiting(goal, bits, list, released, toClear, kept, rest) && rest != []
    ensures var x := rest[0];
      && Find(list, x.task) == Some(x) && NextEntry(list, x.task) == HeadEntry(rest[1..])
      && (Matches(x.value, bits) ==>
            Visiting(goal, bits, Without(list, x.task), released[x.task := Snapshot(bits)],
                     toClear + (if ClearsOnExit(x.value) then UserBits(x.value) else {}), kept, rest[1..]))
      && (!Matches(x.value, bits) ==> Visiting(goal, bits, list, released, toClear, kept + [x], rest[1..]))
  {
    var x := rest[0];
    assert rest == [x] + rest[1..] && list == kept + [x] + rest[1..];
    AtEntry(kept, x, rest[1..]);
  }

  class EventGroup {
    var uxEventBits: Word
    var xTasksWaitingForBits: seq<Waiter>
    var released: map<nat, Word>
    ghost var timedOut: map<nat, Word>

    ghost function Abs(): Group
      reads this
    {
      Group(uxEventBits, xTasksWaitingForBits, released, timedOut)
    }

    constructor ()
      ensures Abs() == Group({}, [], map[], map[])
    {
      uxEventBits, xTasksWaitingForBits, released, timedOut := {}, [], map[], map[];
    }

    /** vTaskRemoveFromUnorderedEventList */
    method RemoveFromUnorderedEventList(pxEventListItem: nat, xItemValue: Word)
      modifies this`xTasksWaitingForBits, this`released
      ensures xTasksWaitingForBits == Without(old(xTasksWaitingForBits), pxEventListItem)
      ensures released == old(released)[pxEventListItem := xItemValue + {taskEVENT_LIST_ITEM_VALUE_IN_USE}]
    {
      released := released[pxEventListItem := xItemValue + {taskEVENT_LIST_ITEM_VALUE_IN_USE}];
      xTasksWaitingForBits := Without(xTasksWaitingForBits, pxEventListItem);
    }

    /** The control bits are split off, and the condition they ask for is tested. */
    method MatchItem(value: Word) returns (xMatchFound: bool, xClear: bool)
      ensures xMatchFound <==> Matches(value, uxEventBits)
      ensures xClear <==> ClearsOnExit(value)
    {
      xMatchFound := false;
      var uxControlBits := value * eventEVENT_BITS_CONTROL_BYTES;
      var uxBitsWaitedFor := value - eventEVENT_BITS_CONTROL_BYTES;
      assert eventWAIT_FOR_ALL_BITS in uxControlBits <==> eventWAIT_FOR_ALL_BITS in value;
      assert eventCLEAR_EVENTS_ON_EXIT_BIT in uxControlBits <==> eventCLEAR_EVENTS_ON_EXIT_BIT in value;
      assert uxBitsWaitedFor * uxEventBits == uxEventBits * uxBitsWaitedFor;
      if eventWAIT_FOR_ALL_BITS !in uxControlBits {
        if uxBitsWaitedFor * uxEventBits != {} {
          xMatchFound := true;
        }
      } else if uxBitsWaitedFor * uxEventBits == uxBitsWaitedFor {
        xMatchFound := true;
      }
      xClear := eventCLEAR_EVENTS_ON_EXIT_BIT in uxControlBits;
    }

    /** xEventGroupSetBits: the next entry is read before the current one may leave the list, so every waiter is
        visited once. */
    method SetEventBits(uxBitsToSet: Word) returns (uxReturn: Word)
      requires UniqueTasks(xTasksWaitingForBits)
      modifies this
      ensures Abs() == SetBits(old(Abs()), uxBitsToSet) && uxReturn == uxEventBits
      ensures forall w :: w in xTasksWaitingForBits <==>
        (w in old(xTasksWaitingForBits) && !Meets(old(uxEventBits) + uxBitsToSet, UserBits(w.value), WaitsForAll(w.value)))
    {
      StayIfUnmet(xTasksWaitingForBits, uxEventBits + uxBitsToSet);
      var pxListItem := HeadEntry(xTasksWaitingForBits);
      uxEventBits := uxEventBits + uxBitsToSet;
      var uxBitsToClear: Word := {};
      ghost var bits, kept, rest := uxEventBits, [], xTasksWaitingForBits;
      ghost var goal := SetBits(old(Abs()), uxBitsToSet);
      while pxListItem != None
        invariant uxEventBits == bits && timedOut == old(timedOut) && pxListItem == HeadEntry(rest)
        invariant Visiting(goal, bits, xTasksWaitingForBits, released, uxBitsToClear, kept, rest)
        decreases |rest|
      {
        VisitNext(goal, bits, xTasksWaitingForBits, released, uxBitsToClear, kept, rest);
        var item := pxListItem.value;
        var pxNext := NextEntry(xTasksWaitingForBits, item);
        var value := Find(xTasksWaitingForBits, item).value.value;
        var xMatchFound, xClear := MatchItem(value);
        ghost var was := uxBitsToClear;
        if xMatchFound {
          if xClear {
            uxBitsToClear := uxBitsToClear + UserBits(value);
          }
          assert uxBitsToClear == was + (if ClearsOnExit(value) then UserBits(value) else {});
          RemoveFromUnorderedEventList(item, uxEventBits + {eventUNBLOCKED_DUE_TO_BIT_SET});
        } else {
          kept := kept + [rest[0]];
        }
        rest := rest[1..];
        pxListItem := pxNext;
      }
      uxEventBits := uxEventBits - uxBitsToClear;
      uxReturn := uxEventBits;
    }

    /** vTaskPlaceOnUnorderedEventList */
    method PlaceOnUnorderedEventList(pxCurrentTCB: nat, xItemValue: Word)
      modifies this`xTasksWaitingForBits
      ensures xTasksWaitingForBits ==
        old(xTasksWaitingForBits) + [Waiter(xItemValue + {taskEVENT_LIST_ITEM_VALUE_IN_USE}, pxCurrentTCB)]
    {
      xTasksWaitingForBits := xTasksWaitingForBits + [Waiter(xItemValue + {taskEVENT_LIST_ITEM_VALUE_IN_USE}, pxCurrentTCB)];
    }

    /** xEventGroupWaitBits up to xTaskResumeAll */
    method WaitForBits(pxCurrentTCB: nat, uxBitsToWaitFor: Word, xClearOnExit: bool, xWaitForAllBits: bool, mayBlock: bool)
      returns (uxReturn: Word, blocked: bool)
      requires UserOnly(uxBitsToWaitFor) && uxBitsToWaitFor != {}
      modifies this
      ensures Abs() == WaitBits(old(Abs()), pxCurrentTCB, uxBitsToWaitFor, xClearOnExit, xWaitForAllBits, mayBlock)
      ensures blocked <==>
        mayBlock && (if xWaitForAllBits then exists b :: b in uxBitsToWaitFor && b !in old(uxEventBits)
                     else forall b :: b in uxBitsToWaitFor ==> b !in old(uxEventBits))
      ensures !blocked ==> uxReturn == old(uxEventBits)
    {
      ConditionMeans(uxEventBits, uxBitsToWaitFor, xWaitForAllBits);
      uxReturn, blocked := uxEventBits, false;
      if TestWaitCondition(uxEventBits, uxBitsToWaitFor, xWaitForAllBits) {
        if xClearOnExit {
          uxEventBits := uxEventBits - uxBitsToWaitFor;
        }
      } else if mayBlock {
        blocked := true;
        var uxControlBits: Word := {};
        if xClearOnExit {
          uxControlBits := uxControlBits + {eventCLEAR_EVENTS_ON_EXIT_BIT};
        }
        if xWaitForAllBits {
          uxControlBits := uxControlBits + {eventWAIT_FOR_ALL_BITS};
        }
        assert uxBitsToWaitFor + uxControlBits + {taskEVENT_LIST_ITEM_VALUE_IN_USE} ==
               WaitValue(uxBitsToWaitFor, xClearOnExit, xWaitForAllBits);
        PlaceOnUnorderedEventList(pxCurrentTCB, uxBitsToWaitFor + uxControlBits);
      }
    }

    /** xEventGroupSync up to xTaskResumeAll */
    method SyncBits(pxCurrentTCB: nat, uxBitsToSet: Word, uxBitsToWaitFor: Word, mayBlock: bool)
      returns (uxReturn: Word, blocked: bool)
      requires UniqueTasks(xTasksWaitingForBits) && UserOnly(uxBitsToWaitFor) && uxBitsToWaitFor != {} && UserOnly(uxBitsToSet)
      modifies this
      ensures Abs() == Sync(old(Abs()), pxCurrentTCB, uxBitsToSet, uxBitsToWaitFor, mayBlock)
      ensures blocked <==> mayBlock && (old(uxEventBits) + uxBitsToSet) * uxBitsToWaitFor != uxBitsToWaitFor
      ensures (old(uxEventBits) + uxBitsToSet) * uxBitsToWaitFor == uxBitsToWaitFor ==> uxReturn == old(uxEventBits) + uxBitsToSet
    {
      var uxOriginalBitValue := uxEventBits;
      var newBits := SetEventBits(uxBitsToSet);
      blocked := false;
      if (uxOriginalBitValue + uxBitsToSet) * uxBitsToWaitFor == uxBitsToWaitFor {
        uxReturn := uxOriginalBitValue + uxBitsToSet;
        uxEventBits := uxEventBits - uxBitsToWaitFor;
      } else if mayBlock {
        uxReturn, blocked := {}, true;
        var value := uxBitsToWaitFor + {eventCLEAR_EVENTS_ON_EXIT_BIT} + {eventWAIT_FOR_ALL_BITS};
        assert value + {taskEVENT_LIST_ITEM_VALUE_IN_USE} == WaitValue(uxBitsToWaitFor, true, true);
        PlaceOnUnorderedEventList(pxCurrentTCB, value);
      } else {
        uxReturn := uxEventBits;
      }
    }
  }
}
