/** OS/queue.c: who is woken first. Over the interleavings of QueueProtocol, with the places in which tasks went to sleep
    counted, a wake-up goes to the waiting task of the highest priority, and among equals to the one that has
    waited longest. The value of a waiting task's item is configMAX_PRIORITIES less its priority. */
module QueueOrder {
  import opened SortedLists
  import opened QueueBlocking
  import opened QueueProtocol

  /** x is to be woken before y: placed says when each task last went to sleep. */
  predicate Before(x: Item, y: Item, placed: map<nat, nat>) {
    && x.id in placed && y.id in placed
    && (x.value < y.value || (x.value == y.value && placed[x.id] < placed[y.id]))
  }

  ghost predicate InTurn(s: seq<Item>, placed: map<nat, nat>) {
    s == [] || ((forall y :: y in s[1..] ==> Before(s[0], y, placed)) && InTurn(s[1..], placed))
  }

  /** Everyone in the list has been placed before now. */
  ghost predicate Placed(s: seq<Item>, placed: map<nat, nat>, now: nat) {
    forall x :: x in s ==> x.id in placed && placed[x.id] < now
  }

  lemma {:induction false} InTurnAt(s: seq<Item>, placed: map<nat, nat>, i: nat, j: nat)
    requires InTurn(s, placed) && i < j < |s|
    ensures Before(s[i], s[j], placed)
  {
    if i == 0 {
      assert s[j] == s[1..][j - 1];
    } else {
      InTurnAt(s[1..], placed, i - 1, j - 1);
    }
  }

  lemma {:induction false} InTurnFrom(s: seq<Item>, placed: map<nat, nat>, n: nat)
    requires InTurn(s, placed) && n <= |s|
    ensures InTurn(s[n..], placed)
  {
    if n != 0 {
      InTurnFrom(s[1..], placed, n - 1);
      assert s[n..] == s[1..][n - 1..];
    }
  }

  lemma {:induction false} InTurnDrop(s: seq<Item>, placed: map<nat, nat>, id: nat)
    requires InTurn(s, placed)
    ensures InTurn(Drop(s, id), placed) && forall y :: y in Drop(s, id) ==> y in s
  {
    forall y ensures y in Drop(s, id) <==> y in s && y.id != id {
      DropMembers(s, id, y);
    }
    if s != [] {
      InTurnDrop(s[1..], placed, id);
      var r := Drop(s[1..], id);
      assert ([s[0]] + r)[1..] == r;
    }
  }

  /** The stamp of a task that is not in the list does not matter to it. */
  lemma {:induction false} InTurnSame(s: seq<Item>, placed: map<nat, nat>, id: nat, now: nat)
    requires InTurn(s, placed) && !HasId(s, id)
    ensures InTurn(s, placed[id := now])
  {
    if s != [] {
      assert s[0] in s && forall y :: y in s[1..] ==> y in s;
      InTurnSame(s[1..], placed, id, now);
    }
  }

  /** A task that goes to sleep now is put behind everyone it is not to be woken before. */
  lemma {:induction false} InTurnInsert(s: seq<Item>, placed: map<nat, nat>, x: Item, now: nat)
    requires InTurn(s, placed) && Placed(s, placed, now) && x.id in placed && placed[x.id] == now
    ensures InTurn(Insert(s, x), placed)
  {
    if s == [] || x.value < s[0].value {
      assert ([x] + s)[1..] == s;
      assert s != [] ==> s == [s[0]] + s[1..];
    } else {
      assert s == [s[0]] + s[1..];
      InTurnInsert(s[1..], placed, x, now);
      var r := Insert(s[1..], x);
      forall y | y in r ensures Before(s[0], y, placed) {
        InsertMembers(s[1..], x, y);
      }
      assert ([s[0]] + r)[1..] == r;
    }
  }

  // ---- Steps ----

  /** The tasks woken are the n at the head of the list. */
  ghost predicate HeadsWoken(list: seq<Item>, woken: set<nat>, list': seq<Item>, woken': set<nat>, n: nat) {
    && n <= |list| && list' == list[n..]
    && forall t :: t in woken' ==> t in woken || HasId(list[..n], t)
  }

  lemma {:induction false} ReceiversAreHeads(c: Control, k: nat) returns (n: nat)
    ensures var d := WakeReceivers(c, k);
      HeadsWoken(c.toReceive, c.wokenReceivers, d.toReceive, d.wokenReceivers, n) && d.toSend == c.toSend && d.wokenSenders == c.wokenSenders
    decreases k
  {
    n := 0;
    if k != 0 {
      var m := ReceiversAreHeads(WakeReceiver(c), k - 1);
      if c.toReceive == [] {
        n := m;
      } else {
        n := m + 1;
        HeadAndMore(c.toReceive, m);
      }
    }
  }

  lemma {:induction false} SendersAreHeads(c: Control, k: nat) returns (n: nat)
    ensures var d := WakeSenders(c, k);
      HeadsWoken(c.toSend, c.wokenSenders, d.toSend, d.wokenSenders, n) && d.toReceive == c.toReceive && d.wokenReceivers == c.wokenReceivers
    decreases k
  {
    n := 0;
    if k != 0 {
      var m := SendersAreHeads(WakeSender(c), k - 1);
      if c.toSend == [] {
        n := m;
      } else {
        n := m + 1;
        HeadAndMore(c.toSend, m);
      }
    }
  }

  lemma {:induction false} HeadAndMore(list: seq<Item>, m: nat)
    requires list != [] && m <= |list[1..]|
    ensures list[1..][m..] == list[m + 1..]
    ensures HasId(list[..m + 1], list[0].id)
    ensures forall t :: HasId(list[1..][..m], t) ==> HasId(list[..m + 1], t)
  {
    assert list[..m + 1] == [list[0]] + list[1..][..m];
    assert list[0] in list[..m + 1];
    forall t | HasId(list[1..][..m], t) ensures HasId(list[..m + 1], t) {
      var x :| x in list[1..][..m] && x.id == t;
      assert x in list[..m + 1];
    }
  }

  /** Every step that wakes tasks wakes those at the head of their list, and leaves the rest of it. */
  lemma {:induction false} StepWakesHeads(s: System, e: Event) returns (n: nat, k: nat)
    requires WellTyped(s) && Enabled(s, e) && !e.PlaceOnEventList? && !e.Timeout?
    ensures var r := Step(s, e);
      && HeadsWoken(s.c.toReceive, s.c.wokenReceivers, r.c.toReceive, r.c.wokenReceivers, n)
      && HeadsWoken(s.c.toSend, s.c.wokenSenders, r.c.toSend, r.c.wokenSenders, k)
  {
    n, k := 0, 0;
    match e
    case Unlock =>
      if s.locker.stage.UnlockTx? {
        if s.c.cTxLock > 0 {
          n := ReceiversAreHeads(s.c, s.c.cTxLock);
        }
      } else if s.c.cRxLock > 0 {
        k := SendersAreHeads(s.c, s.c.cRxLock);
      }
    case Try(t, mayBlock) => n, k := TryWakesHeads(s, t, mayBlock);
    case SendISR(_) =>
      if s.c.cTxLock == queueUNLOCKED && s.c.toReceive != [] {
        n := 1;
        HeadAndMore(s.c.toReceive, 0);
      }
    case ReceiveISR =>
      if s.c.cRxLock == queueUNLOCKED && s.c.toSend != [] {
        k := 1;
        HeadAndMore(s.c.toSend, 0);
      }
    case _ =>
  }

  lemma {:induction false} TryWakesHeads(s: System, t: nat, mayBlock: bool) returns (n: nat, k: nat)
    requires WellTyped(s) && Enabled(s, Try(t, mayBlock))
    ensures var r := Step(s, Try(t, mayBlock));
      && HeadsWoken(s.c.toReceive, s.c.wokenReceivers, r.c.toReceive, r.c.wokenReceivers, n)
      && HeadsWoken(s.c.toSend, s.c.wokenSenders, r.c.toSend, r.c.wokenSenders, k)
  {
    n, k := 0, 0;
    var op := s.pcs[t].op;
    if op.Receive? {
      if s.c.messages > 0 && s.c.toSend != [] {
        k := 1;
        HeadAndMore(s.c.toSend, 0);
      }
    } else if (op.Peek? && s.c.messages > 0) || (!TakesMessage(op) && HasRoom(s.c, op.Overwrite?)) {
      if s.c.toReceive != [] {
        n := 1;
        HeadAndMore(s.c.toReceive, 0);
      }
    }
  }

  // ---- Runs ----

  /** When each task last went to sleep, and how often tasks have */
  datatype Clock = Clock(placed: map<nat, nat>, now: nat)

  ghost function Tick(s: System, c: Clock, e: Event): Clock
    requires Enabled(s, e)
  {
    if e.PlaceOnEventList? then Clock(c.placed[s.locker.task := c.now], c.now + 1) else c
  }

  ghost function Clocked(s: System, c: Clock, es: seq<Event>): Clock
    requires IsRun(s, es)
    decreases |es|
  {
    if es == [] then c else Clocked(Step(s, es[0]), Tick(s, c, es[0]), es[1..])
  }

  ghost predicate Queued(s: System, c: Clock) {
    && InTurn(s.c.toReceive, c.placed) && Placed(s.c.toReceive, c.placed, c.now)
    && InTurn(s.c.toSend, c.placed) && Placed(s.c.toSend, c.placed, c.now)
  }

  lemma {:induction false} PlaceKeepsTurn(list: seq<Item>, c: Clock, v: nat, t: nat)
    requires InTurn(list, c.placed) && Placed(list, c.placed, c.now) && !HasId(list, t)
    ensures var d := Clock(c.placed[t := c.now], c.now + 1);
      && InTurn(list, d.placed) && Placed(list, d.placed, d.now)
      && InTurn(Insert(list, Item(v, t)), d.placed) && Placed(Insert(list, Item(v, t)), d.placed, d.now)
  {
    var placed := c.placed[t := c.now];
    InTurnSame(list, c.placed, t, c.now);
    forall x | x in list ensures x.id in placed && placed[x.id] < c.now {
    }
    InTurnInsert(list, placed, Item(v, t), c.now);
    forall x | x in Insert(list, Item(v, t)) ensures x.id in placed && placed[x.id] < c.now + 1 {
      InsertMembers(list, Item(v, t), x);
    }
  }

  lemma {:induction false} PlaceStepKeepsTurn(s: System, c: Clock, v: nat)
    requires Inv(s) && Queued(s, c) && Enabled(s, PlaceOnEventList(v))
    ensures Queued(Step(s, PlaceOnEventList(v)), Tick(s, c, PlaceOnEventList(v)))
  {
    var t := s.locker.task;
    assert !WentToSleep(s, t, true) && !WentToSleep(s, t, false);
    PlaceKeepsTurn(s.c.toReceive, c, v, t);
    PlaceKeepsTurn(s.c.toSend, c, v, t);
  }

  lemma {:induction false} TimeoutKeepsTurn(s: System, c: Clock, t: nat)
    requires WellTyped(s) && Queued(s, c) && Enabled(s, Timeout(t))
    ensures Queued(Step(s, Timeout(t)), c)
  {
    InTurnDrop(s.c.toReceive, c.placed, t);
    InTurnDrop(s.c.toSend, c.placed, t);
  }

  lemma {:induction false} WakingKeepsTurn(list: seq<Item>, woken: set<nat>, list': seq<Item>, woken': set<nat>, n: nat, c: Clock)
    requires HeadsWoken(list, woken, list', woken', n) && InTurn(list, c.placed) && Placed(list, c.placed, c.now)
    ensures InTurn(list', c.placed) && Placed(list', c.placed, c.now)
  {
    InTurnFrom(list, c.placed, n);
    assert forall x :: x in list[n..] ==> x in list;
  }

  lemma {:induction false} StepKeepsTurn(s: System, c: Clock, e: Event)
    requires Inv(s) && Queued(s, c) && Enabled(s, e)
    ensures Queued(Step(s, e), Tick(s, c, e))
  {
    match e
    case PlaceOnEventList(v) => PlaceStepKeepsTurn(s, c, v);
    case Timeout(t) => TimeoutKeepsTurn(s, c, t);
    case _ =>
      var n, k := StepWakesHeads(s, e);
      var r := Step(s, e);
      WakingKeepsTurn(s.c.toReceive, s.c.wokenReceivers, r.c.toReceive, r.c.wokenReceivers, n, c);
      WakingKeepsTurn(s.c.toSend, s.c.wokenSenders, r.c.toSend, r.c.wokenSenders, k, c);
  }

  lemma {:induction false} RunKeepsTurn(s: System, c: Clock, es: seq<Event>)
    requires Inv(s) && Queued(s, c) && IsRun(s, es)
    ensures Inv(Run(s, es)) && Queued(Run(s, es), Clocked(s, c, es))
    decreases |es|
  {
    if es != [] {
      StepKeepsInv(s, es[0]);
      StepKeepsTurn(s, c, es[0]);
      RunKeepsTurn(Step(s, es[0]), Tick(s, c, es[0]), es[1..]);
    }
  }

  /** Whoever is woken is to be woken before all that still wait. */
  ghost predicate WokenFirst(list: seq<Item>, woken: set<nat>, list': seq<Item>, woken': set<nat>, placed: map<nat, nat>) {
    forall x, y :: x in list && x.id in woken' && x.id !in woken && y in list' ==> Before(x, y, placed)
  }

  lemma {:induction false} HeadsGoFirst(list: seq<Item>, woken: set<nat>, list': seq<Item>, woken': set<nat>, n: nat, placed: map<nat, nat>)
    requires InTurn(list, placed) && Unique(list) && HeadsWoken(list, woken, list', woken', n)
    ensures WokenFirst(list, woken, list', woken', placed)
  {
    forall x, y | x in list && x.id in woken' && x.id !in woken && y in list'
      ensures Before(x, y, placed)
    {
      var z :| z in list[..n] && z.id == x.id;
      var i :| 0 <= i < n && list[..n][i] == z;
      var j :| 0 <= j < |list'| && list'[j] == y;
      SameItem(list, x, list[i]);
      InTurnAt(list, placed, i, n + j);
    }
  }

  lemma {:induction false} SameItem(s: seq<Item>, x: Item, y: Item)
    requires Unique(s) && x in s && y in s && x.id == y.id
    ensures x == y
  {
    if x != s[0] && y != s[0] {
      SameItem(s[1..], x, y);
    } else {
      assert forall z :: z in s ==> z == s[0] || z in s[1..];
    }
  }

  lemma {:induction false} StepWakesInTurn(s: System, c: Clock, e: Event)
    requires Inv(s) && Queued(s, c) && Enabled(s, e)
    ensures var q := Step(s, e);
      && WokenFirst(s.c.toReceive, s.c.wokenReceivers, q.c.toReceive, q.c.wokenReceivers, c.placed)
      && WokenFirst(s.c.toSend, s.c.wokenSenders, q.c.toSend, q.c.wokenSenders, c.placed)
  {
    if !e.PlaceOnEventList? && !e.Timeout? {
      var n, k := StepWakesHeads(s, e);
      var q := Step(s, e);
      HeadsGoFirst(s.c.toReceive, s.c.wokenReceivers, q.c.toReceive, q.c.wokenReceivers, n, c.placed);
      HeadsGoFirst(s.c.toSend, s.c.wokenSenders, q.c.toSend, q.c.wokenSenders, k, c.placed);
    }
  }

  /** Over every run: whichever task a step wakes has a higher priority than every task that still waits on its side, or
      the same and has waited longer. */
  lemma {:induction false} WokenInTurn(s: System, es: seq<Event>, e: Event)
    requires Init(s) && IsRun(s, es) && Enabled(Run(s, es), e)
    ensures WellTyped(Run(s, es))
    ensures var r, c := Run(s, es), Clocked(s, Clock(map[], 0), es);
      var q := Step(r, e);
      && WokenFirst(r.c.toReceive, r.c.wokenReceivers, q.c.toReceive, q.c.wokenReceivers, c.placed)
      && WokenFirst(r.c.toSend, r.c.wokenSenders, q.c.toSend, q.c.wokenSenders, c.placed)
  {
    RunKeepsTurn(s, Clock(map[], 0), es);
    StepWakesInTurn(Run(s, es), Clocked(s, Clock(map[], 0), es), e);
  }
}
