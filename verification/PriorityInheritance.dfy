/** OS/queue.c and OS/tasks.c: mutexes, their holders and waiters, and the priorities the holders inherit.

    A task control block's functions are methods of the class TaskControlBlock, each proved to be one of the
    functions on Tcb. Tasks are then interleaved one critical section, or one section with the scheduler
    suspended, at a time. */
module PriorityInheritance {
  import opened KernelConfig
  import opened TaskLists

  /** Where a task is. Trying: at the head of the loop of xQueueSemaphoreTake. Refused: found the mutex taken,
      about to suspend the scheduler. Waiting: on the mutex's wait list. TimedOut and Disinheriting: before the two
      steps that follow a timeout. inherited is the call's xInheritanceOccurred. */
  datatype Pc =
    | Outside
    | Delayed
    | Trying(mutex: nat, inherited: bool)
    | Refused(mutex: nat, inherited: bool)
    | Waiting(mutex: nat, inherited: bool)
    | TimedOut(mutex: nat, inherited: bool)
    | Disinheriting(mutex: nat)

  /** eventItemValue is the value of xEventListItem, which orders the wait lists. */
  datatype Tcb = Tcb(base: nat, priority: nat, held: nat, eventItemValue: int, pc: Pc)

  /** woken is a ghost of the source: the task last taken off the wait list. */
  datatype Mutex = Mutex(count: nat, holder: Option<nat>, waiters: seq<nat>, woken: nat)

  datatype System = System(tcbs: map<nat, Tcb>, mutexes: map<nat, Mutex>)

  // ---- One task ----

  function At(x: Tcb, priority: nat): Tcb {
    x.(priority := priority, eventItemValue := configMAX_PRIORITIES - priority)
  }

  function Inherit(x: Tcb, priority: nat): Tcb {
    if x.priority < priority then At(x, priority) else x
  }

  /** A mutex is given back: only the last one returned brings the priority down. */
  function Disinherit(x: Tcb): Tcb
    requires x.held > 0
  {
    var y := x.(held := x.held - 1);
    if x.priority != x.base && y.held == 0 then At(y, x.base) else y
  }

  function Max(a: nat, b: nat): nat {
    if a < b then b else a
  }

  function DisinheritAfterTimeout(x: Tcb, highestWaiting: nat): Tcb {
    if x.held == 1 && x.priority != Max(x.base, highestWaiting) then At(x, Max(x.base, highestWaiting)) else x
  }

  function SetPriority(x: Tcb, priority: nat): Tcb {
    if x.base == priority then x
    else
      x.(priority := if x.base == x.priority || priority > x.priority then priority else x.priority,
         base := priority, eventItemValue := configMAX_PRIORITIES - priority)
  }

  class TaskControlBlock {
    var uxPriority: nat
    var uxBasePriority: nat
    var uxMutexesHeld: nat
    var xEventListItemValue: int

    ghost function Abs(pc: Pc): Tcb
      reads this
    {
      Tcb(uxBasePriority, uxPriority, uxMutexesHeld, xEventListItemValue, pc)
    }

    /** xTaskPriorityInherit, for a caller of the given priority. It reports inheritance exactly if the holder's
        own priority is below the caller's. */
    method PriorityInherit(current: nat) returns (occurred: bool)
      requires uxBasePriority <= uxPriority
      modifies this
      ensures forall pc :: Abs(pc) == Inherit(old(Abs(pc)), current)
      ensures occurred <==> old(uxBasePriority) < current
    {
      occurred := false;
      if uxPriority < current {
        xEventListItemValue := configMAX_PRIORITIES - current;
        uxPriority := current;
        occurred := true;
      } else if uxBasePriority < current {
        occurred := true;
      }
    }

    /** xTaskPriorityDisinherit */
    method PriorityDisinherit() returns (yieldRequired: bool)
      requires uxMutexesHeld > 0
      modifies this
      ensures forall pc :: Abs(pc) == Disinherit(old(Abs(pc)))
      ensures yieldRequired <==> uxPriority != old(uxPriority)
    {
      yieldRequired := false;
      uxMutexesHeld := uxMutexesHeld - 1;
      if uxPriority != uxBasePriority {
        if uxMutexesHeld == 0 {
          uxPriority := uxBasePriority;
          xEventListItemValue := configMAX_PRIORITIES - uxPriority;
          yieldRequired := true;
        }
      }
    }

    /** vTaskPriorityDisinheritAfterTimeout */
    method PriorityDisinheritAfterTimeout(uxHighestPriorityWaitingTask: nat)
      requires uxMutexesHeld > 0
      modifies this
      ensures forall pc :: Abs(pc) == DisinheritAfterTimeout(old(Abs(pc)), uxHighestPriorityWaitingTask)
    {
      var uxPriorityToUse := uxBasePriority;
      if uxBasePriority < uxHighestPriorityWaitingTask {
        uxPriorityToUse := uxHighestPriorityWaitingTask;
      }
      if uxPriority != uxPriorityToUse {
        if uxMutexesHeld == 1 {
          uxPriority := uxPriorityToUse;
          xEventListItemValue := configMAX_PRIORITIES - uxPriorityToUse;
        }
      }
    }

    /** vTaskPrioritySet */
    method PrioritySet(uxNewPriority: nat)
      modifies this
      ensures forall pc :: Abs(pc) == SetPriority(old(Abs(pc)), uxNewPriority)
    {
      if uxBasePriority != uxNewPriority {
        if uxBasePriority == uxPriority || uxNewPriority > uxPriority {
          uxPriority := uxNewPriority;
        }
        uxBasePriority := uxNewPriority;
        xEventListItemValue := configMAX_PRIORITIES - uxNewPriority;
      }
    }
  }

  // ---- Wait lists ----

  /** vListInsert on a wait list: the items' values are in the control blocks. */
  function Insert(tcbs: map<nat, Tcb>, s: seq<nat>, t: nat): seq<nat>
    requires t in tcbs && forall u :: u in s ==> u in tcbs
  {
    if s == [] || tcbs[t].eventItemValue < tcbs[s[0]].eventItemValue then [t] + s
    else [s[0]] + Insert(tcbs, s[1..], t)
  }

  ghost predicate Ordered(tcbs: map<nat, Tcb>, s: seq<nat>)
    requires forall u :: u in s ==> u in tcbs
  {
    s == [] || ((forall u :: u in s[1..] ==> tcbs[s[0]].eventItemValue <= tcbs[u].eventItemValue) && Ordered(tcbs, s[1..]))
  }

  lemma {:induction false} InsertMembers(tcbs: map<nat, Tcb>, s: seq<nat>, t: nat)
    requires t in tcbs && forall u :: u in s ==> u in tcbs
    ensures forall u :: u in Insert(tcbs, s, t) <==> u in s || u == t
    ensures NoDuplicates(s) && t !in s ==> NoDuplicates(Insert(tcbs, s, t))
    ensures Ordered(tcbs, s) ==> Ordered(tcbs, Insert(tcbs, s, t))
  {
    if s == [] || tcbs[t].eventItemValue < tcbs[s[0]].eventItemValue {
      assert ([t] + s)[1..] == s;
    } else {
      InsertMembers(tcbs, s[1..], t);
      assert s == [s[0]] + s[1..];
      var r := Insert(tcbs, s[1..], t);
      assert ([s[0]] + r)[1..] == r;
    }
  }

  lemma {:induction false} WithoutKeepsOrder(tcbs: map<nat, Tcb>, s: seq<nat>, t: nat)
    requires (forall u :: u in s ==> u in tcbs) && Ordered(tcbs, s)
    ensures (forall u :: u in Without(s, t) ==> u in tcbs) && Ordered(tcbs, Without(s, t))
  {
    if s != [] {
      WithoutMembers(s[1..], t);
      WithoutKeepsOrder(tcbs, s[1..], t);
      var r := Without(s[1..], t);
      assert ([s[0]] + r)[1..] == r;
    }
  }

  lemma {:induction false} OrderedSame(a: map<nat, Tcb>, b: map<nat, Tcb>, s: seq<nat>)
    requires forall u :: u in s ==> u in a && u in b && a[u].eventItemValue == b[u].eventItemValue
    requires Ordered(a, s)
    ensures Ordered(b, s)
  {
    if s != [] {
      OrderedSame(a, b, s[1..]);
    }
  }

  // ---- The steps ----

  datatype Event =
    | CreateTask(task: nat, priority: nat)
    | CreateMutex(mutex: nat)
    | Call(task: nat, mutex: nat)
    | Try(task: nat, mayBlock: bool)
    | Suspended(task: nat, expired: bool)
    | Timeout(task: nat)
    | CheckEmpty(task: nat)
    | Disinheriting(task: nat)
    | Give(task: nat, mutex: nat)
    | Delay(task: nat)
    | Wake(task: nat)
    | PrioritySet(task: nat, priority: nat)

  predicate Ready(x: Tcb) {
    !x.pc.Waiting? && !x.pc.Delayed?
  }

  predicate Uses(pc: Pc, m: nat) {
    !pc.Outside? && !pc.Delayed? && pc.mutex == m
  }

  ghost predicate Enabled(s: System, e: Event) {
    match e
    case CreateTask(t, p) => t !in s.tcbs && p < configMAX_PRIORITIES
    case CreateMutex(m) => m !in s.mutexes
    case Call(t, m) => t in s.tcbs && s.tcbs[t].pc.Outside? && m in s.mutexes
    case Try(t, _) => t in s.tcbs && s.tcbs[t].pc.Trying?
    case Suspended(t, _) => t in s.tcbs && s.tcbs[t].pc.Refused?
    case Timeout(t) => t in s.tcbs && s.tcbs[t].pc.Waiting?
    case CheckEmpty(t) => t in s.tcbs && s.tcbs[t].pc.TimedOut?
    case Disinheriting(t) => t in s.tcbs && s.tcbs[t].pc.Disinheriting?
    case Give(t, m) => t in s.tcbs && s.tcbs[t].pc.Outside? && m in s.mutexes && s.mutexes[m].holder == Some(t)
    case Delay(t) => t in s.tcbs && s.tcbs[t].pc.Outside?
    case Wake(t) => t in s.tcbs && s.tcbs[t].pc.Delayed?
    case PrioritySet(t, p) => t in s.tcbs && p < configMAX_PRIORITIES
  }

  function Move(s: System, t: nat, pc: Pc): System
    requires t in s.tcbs
  {
    s.(tcbs := s.tcbs[t := s.tcbs[t].(pc := pc)])
  }

  /** xQueueSemaphoreTake finds the count at one: pvTaskIncrementMutexHeldCount and the new holder. */
  function Take(s: System, t: nat, m: nat): System
    requires t in s.tcbs && m in s.mutexes
  {
    System(s.tcbs[t := s.tcbs[t].(held := s.tcbs[t].held + 1, pc := Outside)],
           s.mutexes[m := s.mutexes[m].(count := 0, holder := Some(t))])
  }

  /** The holder inherits, then the caller goes on the wait list. */
  function Block(s: System, t: nat, m: nat): System
    requires t in s.tcbs && Known(s, m) && s.mutexes[m].holder.Some?
  {
    var h := s.mutexes[m].holder.value;
    var occurred := s.tcbs[h].base < s.tcbs[t].priority;
    var tcbs := s.tcbs[h := Inherit(s.tcbs[h], s.tcbs[t].priority)];
    System(tcbs[t := tcbs[t].(pc := Waiting(m, occurred))],
           s.mutexes[m := s.mutexes[m].(waiters := Insert(tcbs, s.mutexes[m].waiters, t))])
  }

  /** prvGetDisinheritPriorityAfterTimeout */
  function HighestWaiting(tcbs: map<nat, Tcb>, waiters: seq<nat>): nat
    requires forall u :: u in waiters ==> u in tcbs && tcbs[u].eventItemValue <= configMAX_PRIORITIES
  {
    if waiters == [] then 0 else configMAX_PRIORITIES - tcbs[waiters[0]].eventItemValue
  }

  /** prvCopyDataToQueue on a mutex, and the head of the wait list woken. */
  function GiveBack(s: System, t: nat, m: nat): System
    requires t in s.tcbs && s.tcbs[t].held > 0 && Known(s, m)
  {
    var x := s.mutexes[m];
    var tcbs := s.tcbs[t := Disinherit(s.tcbs[t])];
    if x.waiters == [] then System(tcbs, s.mutexes[m := x.(count := x.count + 1, holder := None)])
    else
      var w := x.waiters[0];
      System(tcbs[w := tcbs[w].(pc := Awake(tcbs[w].pc))],
             s.mutexes[m := Mutex(x.count + 1, None, x.waiters[1..], w)])
  }

  /** A task taken off a wait list goes round the loop of xQueueSemaphoreTake once more. */
  function Awake(pc: Pc): Pc {
    if pc.Waiting? then Trying(pc.mutex, pc.inherited) else pc
  }

  /** m exists and every task it mentions does. */
  ghost predicate Known(s: System, m: nat) {
    && m in s.mutexes
    && (s.mutexes[m].holder.Some? ==> s.mutexes[m].holder.value in s.tcbs)
    && (forall u :: u in s.mutexes[m].waiters ==> u in s.tcbs)
  }

  ghost function Held(mutexes: map<nat, Mutex>, t: nat): set<nat> {
    set m | m in mutexes && mutexes[m].holder == Some(t)
  }

  // ---- Bookkeeping: holds in every run ----

  ghost predicate MutexBook(tcbs: map<nat, Tcb>, m: nat, x: Mutex) {
    && x.count == (if x.holder.None? then 1 else 0)
    && (x.holder.Some? ==> x.holder.value in tcbs)
    && NoDuplicates(x.waiters)
    && (forall u :: u in x.waiters ==> u in tcbs && tcbs[u].pc.Waiting? && tcbs[u].pc.mutex == m)
  }

  ghost predicate TaskBook(mutexes: map<nat, Mutex>, t: nat, x: Tcb) {
    && x.held == |Held(mutexes, t)|
    && x.base <= x.priority < configMAX_PRIORITIES
    && (x.held == 0 ==> x.priority == x.base)
    && configMAX_PRIORITIES - x.priority <= x.eventItemValue <= configMAX_PRIORITIES
    && (x.pc.Outside? || x.pc.Delayed? || x.pc.mutex in mutexes)
    && (x.pc.Waiting? ==> t in mutexes[x.pc.mutex].waiters)
  }

  ghost predicate Books(s: System) {
    && (forall m :: m in s.mutexes ==> MutexBook(s.tcbs, m, s.mutexes[m]))
    && (forall t :: t in s.tcbs ==> TaskBook(s.mutexes, t, s.tcbs[t]))
  }

  ghost function TryOnce(s: System, t: nat, mayBlock: bool): System
    requires Books(s) && t in s.tcbs && s.tcbs[t].pc.Trying?
  {
    var pc := s.tcbs[t].pc;
    assert TaskBook(s.mutexes, t, s.tcbs[t]);
    if s.mutexes[pc.mutex].count > 0 then Take(s, t, pc.mutex)
    else Move(s, t, if mayBlock then Refused(pc.mutex, pc.inherited) else Outside)
  }

  /** From vTaskSuspendAll to xTaskResumeAll */
  ghost function SuspendedSection(s: System, t: nat, expired: bool): System
    requires Books(s) && t in s.tcbs && s.tcbs[t].pc.Refused?
  {
    var pc := s.tcbs[t].pc;
    assert TaskBook(s.mutexes, t, s.tcbs[t]) && MutexBook(s.tcbs, pc.mutex, s.mutexes[pc.mutex]);
    if expired then Move(s, t, TimedOut(pc.mutex, pc.inherited))
    else if s.mutexes[pc.mutex].count > 0 then Move(s, t, Trying(pc.mutex, pc.inherited))
    else Block(s, t, pc.mutex)
  }

  ghost function TakeOffList(s: System, t: nat): System
    requires Books(s) && t in s.tcbs && s.tcbs[t].pc.Waiting?
  {
    var m := s.tcbs[t].pc.mutex;
    assert TaskBook(s.mutexes, t, s.tcbs[t]);
    System(s.tcbs[t := s.tcbs[t].(pc := Awake(s.tcbs[t].pc))],
           s.mutexes[m := s.mutexes[m].(waiters := Without(s.mutexes[m].waiters, t))])
  }

  ghost function LookAgain(s: System, t: nat): System
    requires Books(s) && t in s.tcbs && s.tcbs[t].pc.TimedOut?
  {
    var pc := s.tcbs[t].pc;
    assert TaskBook(s.mutexes, t, s.tcbs[t]);
    if s.mutexes[pc.mutex].count > 0 then Move(s, t, Trying(pc.mutex, pc.inherited))
    else Move(s, t, if pc.inherited then Pc.Disinheriting(pc.mutex) else Outside)
  }

  /** The holder's priority falls to that of the head of the wait list, if it falls at all. */
  ghost function GiveUp(s: System, t: nat): System
    requires Books(s) && t in s.tcbs && s.tcbs[t].pc.Disinheriting?
  {
    assert TaskBook(s.mutexes, t, s.tcbs[t]);
    var x := s.mutexes[s.tcbs[t].pc.mutex];
    assert MutexBook(s.tcbs, s.tcbs[t].pc.mutex, x);
    if x.holder.None? then Move(s, t, Outside)
    else
      var h := x.holder.value;
      Move(s.(tcbs := s.tcbs[h := DisinheritAfterTimeout(s.tcbs[h], HighestWaiting(s.tcbs, x.waiters))]), t, Outside)
  }

  ghost function Step(s: System, e: Event): System
    requires Books(s) && Enabled(s, e)
  {
    match e
    case CreateTask(t, p) => s.(tcbs := s.tcbs[t := Tcb(p, p, 0, configMAX_PRIORITIES - p, Outside)])
    case CreateMutex(m) => s.(mutexes := s.mutexes[m := Mutex(1, None, [], 0)])
    case Call(t, m) => Move(s, t, Trying(m, false))
    case Try(t, mayBlock) => TryOnce(s, t, mayBlock)
    case Suspended(t, expired) => SuspendedSection(s, t, expired)
    case Timeout(t) => TakeOffList(s, t)
    case CheckEmpty(t) => LookAgain(s, t)
    case Disinheriting(t) => GiveUp(s, t)
    case Give(t, m) => HolderHolds(s, m); assert MutexBook(s.tcbs, m, s.mutexes[m]); GiveBack(s, t, m)
    case Delay(t) => Move(s, t, Delayed)
    case Wake(t) => Move(s, t, Outside)
    case PrioritySet(t, p) => s.(tcbs := s.tcbs[t := SetPriority(s.tcbs[t], p)])
  }

  lemma {:induction false} HeldUpdate(mutexes: map<nat, Mutex>, m: nat, y: Mutex, t: nat)
    ensures Held(mutexes[m := y], t) == if y.holder == Some(t) then Held(mutexes, t) + {m} else Held(mutexes, t) - {m}
  {
  }

  /** The mutexes change only in m, whose holder stays. */
  lemma {:induction false} SameHolders(mutexes: map<nat, Mutex>, m: nat, y: Mutex)
    requires m in mutexes && y.holder == mutexes[m].holder
    ensures forall t: nat :: Held(mutexes[m := y], t) == Held(mutexes, t)
  {
  }

  lemma {:induction false} TcbKeepsBooks(s: System, t: nat, x: Tcb)
    requires Books(s) && t in s.tcbs && TaskBook(s.mutexes, t, x)
    requires s.tcbs[t].pc.Waiting? ==> x.pc == s.tcbs[t].pc
    ensures Books(s.(tcbs := s.tcbs[t := x]))
  {
    var r := s.(tcbs := s.tcbs[t := x]);
    forall m | m in r.mutexes ensures MutexBook(r.tcbs, m, r.mutexes[m]) {
      assert MutexBook(s.tcbs, m, s.mutexes[m]);
    }
  }

  lemma {:induction false} CreateTaskKeepsBooks(s: System, t: nat, p: nat)
    requires Books(s) && Enabled(s, CreateTask(t, p))
    ensures Books(Step(s, CreateTask(t, p)))
  {
    var r := Step(s, CreateTask(t, p));
    forall m | m in r.mutexes ensures MutexBook(r.tcbs, m, r.mutexes[m]) && r.mutexes[m].holder != Some(t) {
      assert MutexBook(s.tcbs, m, s.mutexes[m]);
    }
    assert Held(s.mutexes, t) == {};
  }

  lemma {:induction false} CreateMutexKeepsBooks(s: System, m: nat)
    requires Books(s) && Enabled(s, CreateMutex(m))
    ensures Books(Step(s, CreateMutex(m)))
  {
    var r := Step(s, CreateMutex(m));
    forall k | k in r.mutexes ensures MutexBook(r.tcbs, k, r.mutexes[k]) {
      assert k in s.mutexes ==> MutexBook(s.tcbs, k, s.mutexes[k]);
    }
    forall t | t in r.tcbs ensures TaskBook(r.mutexes, t, r.tcbs[t]) {
      assert TaskBook(s.mutexes, t, s.tcbs[t]);
      HeldUpdate(s.mutexes, m, r.mutexes[m], t);
      assert Held(s.mutexes, t) - {m} == Held(s.mutexes, t);
    }
  }

  lemma {:induction false} TakeKeepsBooks(s: System, t: nat, m: nat)
    requires Books(s) && t in s.tcbs && m in s.mutexes && s.mutexes[m].holder.None? && !s.tcbs[t].pc.Waiting?
    ensures Books(Take(s, t, m))
  {
    var r := Take(s, t, m);
    forall k | k in r.mutexes ensures MutexBook(r.tcbs, k, r.mutexes[k]) {
      assert MutexBook(s.tcbs, k, s.mutexes[k]);
    }
    forall u | u in r.tcbs ensures TaskBook(r.mutexes, u, r.tcbs[u]) {
      HeldUpdate(s.mutexes, m, r.mutexes[m], u);
      assert TaskBook(s.mutexes, u, s.tcbs[u]) && m !in Held(s.mutexes, u);
    }
  }

  /** The wait list of m changes, and only task t moves on to it or off it. */
  lemma {:induction false} WaitersKeepBooks(s: System, m: nat, y: Mutex, t: nat, pc: Pc)
    requires Books(s) && t in s.tcbs && m in s.mutexes
    requires y.holder == s.mutexes[m].holder && y.count == s.mutexes[m].count && NoDuplicates(y.waiters)
    requires !pc.Delayed? && !pc.Outside? && pc.mutex == m
    requires forall u :: u != t ==> (u in y.waiters <==> u in s.mutexes[m].waiters)
    requires pc.Waiting? <==> t in y.waiters
    requires s.tcbs[t].pc.Waiting? ==> s.tcbs[t].pc.mutex == m
    ensures Books(System(s.tcbs[t := s.tcbs[t].(pc := pc)], s.mutexes[m := y]))
  {
    var r := System(s.tcbs[t := s.tcbs[t].(pc := pc)], s.mutexes[m := y]);
    SameHolders(s.mutexes, m, y);
    forall k | k in r.mutexes ensures MutexBook(r.tcbs, k, r.mutexes[k]) {
      assert MutexBook(s.tcbs, k, s.mutexes[k]);
    }
    forall u | u in r.tcbs ensures TaskBook(r.mutexes, u, r.tcbs[u]) {
      assert TaskBook(s.mutexes, u, s.tcbs[u]);
    }
  }

  lemma {:induction false} HolderHolds(s: System, m: nat)
    requires Books(s) && m in s.mutexes && s.mutexes[m].holder.Some?
    ensures s.tcbs[s.mutexes[m].holder.value].held > 0
  {
    var h := s.mutexes[m].holder.value;
    assert MutexBook(s.tcbs, m, s.mutexes[m]);
    assert TaskBook(s.mutexes, h, s.tcbs[h]) && m in Held(s.mutexes, h);
  }

  lemma {:induction false} BlockKeepsBooks(s: System, t: nat, m: nat)
    requires Books(s) && t in s.tcbs && m in s.mutexes && s.mutexes[m].holder.Some? && !s.tcbs[t].pc.Waiting?
    ensures Books(Block(s, t, m))
  {
    var h := s.mutexes[m].holder.value;
    assert MutexBook(s.tcbs, m, s.mutexes[m]);
    HolderHolds(s, m);
    var x := Inherit(s.tcbs[h], s.tcbs[t].priority);
    var occurred := s.tcbs[h].base < s.tcbs[t].priority;
    TcbKeepsBooks(s, h, x);
    var r := s.(tcbs := s.tcbs[h := x]);
    InsertMembers(r.tcbs, s.mutexes[m].waiters, t);
    WaitersKeepBooks(r, m, s.mutexes[m].(waiters := Insert(r.tcbs, s.mutexes[m].waiters, t)), t, Waiting(m, occurred));
  }

  lemma {:induction false} ReleaseKeepsBooks(s: System, t: nat, m: nat)
    requires Books(s) && t in s.tcbs && m in s.mutexes && s.mutexes[m].holder == Some(t) && s.tcbs[t].held > 0
    ensures Books(System(s.tcbs[t := Disinherit(s.tcbs[t])], s.mutexes[m := s.mutexes[m].(count := 1, holder := None)]))
  {
    var r := System(s.tcbs[t := Disinherit(s.tcbs[t])], s.mutexes[m := s.mutexes[m].(count := 1, holder := None)]);
    forall k | k in r.mutexes ensures MutexBook(r.tcbs, k, r.mutexes[k]) {
      assert MutexBook(s.tcbs, k, s.mutexes[k]);
    }
    forall u | u in r.tcbs ensures TaskBook(r.mutexes, u, r.tcbs[u]) {
      ReleasedBook(s.mutexes, m, r.mutexes[m], u, s.tcbs[u]);
    }
  }

  lemma {:induction false} ReleasedBook(mutexes: map<nat, Mutex>, m: nat, y: Mutex, u: nat, x: Tcb)
    requires TaskBook(mutexes, u, x) && m in mutexes && y.holder.None? && y.waiters == mutexes[m].waiters
    requires mutexes[m].holder == Some(u) ==> x.held > 0
    ensures TaskBook(mutexes[m := y], u, if mutexes[m].holder == Some(u) then Disinherit(x) else x)
  {
    HeldUpdate(mutexes, m, y, u);
    if mutexes[m].holder != Some(u) {
      assert Held(mutexes, u) - {m} == Held(mutexes, u);
    } else {
      assert m in Held(mutexes, u);
    }
  }

  lemma {:induction false} GiveKeepsBooks(s: System, t: nat, m: nat)
    requires Books(s) && Enabled(s, Give(t, m))
    ensures Books(Step(s, Give(t, m)))
  {
    HolderHolds(s, m);
    ReleaseKeepsBooks(s, t, m);
    var x := s.mutexes[m];
    assert MutexBook(s.tcbs, m, x);
    var r := System(s.tcbs[t := Disinherit(s.tcbs[t])], s.mutexes[m := x.(count := 1, holder := None)]);
    if x.waiters != [] {
      var w := x.waiters[0];
      assert MutexBook(r.tcbs, m, r.mutexes[m]) && w in x.waiters;
      assert x.waiters == [w] + x.waiters[1..];
      var y := Mutex(1, None, x.waiters[1..], w);
      WaitersKeepBooks(r, m, y, w, Awake(r.tcbs[w].pc));
      assert r.mutexes[m := y] == s.mutexes[m := y];
    }
  }

  lemma {:induction false} TimeoutKeepsBooks(s: System, t: nat)
    requires Books(s) && Enabled(s, Timeout(t))
    ensures Books(Step(s, Timeout(t)))
  {
    assert TaskBook(s.mutexes, t, s.tcbs[t]);
    var m := s.tcbs[t].pc.mutex;
    assert MutexBook(s.tcbs, m, s.mutexes[m]);
    WithoutMembers(s.mutexes[m].waiters, t);
    WithoutOnce(s.mutexes[m].waiters, t);
    WaitersKeepBooks(s, m, s.mutexes[m].(waiters := Without(s.mutexes[m].waiters, t)), t, Awake(s.tcbs[t].pc));
  }

  lemma {:induction false} DisinheritingKeepsBooks(s: System, t: nat)
    requires Books(s) && Enabled(s, Event.Disinheriting(t))
    ensures Books(Step(s, Event.Disinheriting(t)))
  {
    assert TaskBook(s.mutexes, t, s.tcbs[t]);
    var m := s.tcbs[t].pc.mutex;
    var x := s.mutexes[m];
    KnownWaiters(s, m);
    if x.holder.Some? {
      var h := x.holder.value;
      DisinheritedBook(s, m);
      var r := s.(tcbs := s.tcbs[h := DisinheritAfterTimeout(s.tcbs[h], HighestWaiting(s.tcbs, x.waiters))]);
      TcbKeepsBooks(r, t, r.tcbs[t].(pc := Outside));
    } else {
      TcbKeepsBooks(s, t, s.tcbs[t].(pc := Outside));
    }
  }

  lemma {:induction false} SectionKeepsBooks(s: System, t: nat, expired: bool)
    requires Books(s) && Enabled(s, Suspended(t, expired))
    ensures Books(Step(s, Suspended(t, expired)))
  {
    var pc := s.tcbs[t].pc;
    assert TaskBook(s.mutexes, t, s.tcbs[t]) && MutexBook(s.tcbs, pc.mutex, s.mutexes[pc.mutex]);
    if expired {
      TcbKeepsBooks(s, t, s.tcbs[t].(pc := TimedOut(pc.mutex, pc.inherited)));
    } else if s.mutexes[pc.mutex].count > 0 {
      TcbKeepsBooks(s, t, s.tcbs[t].(pc := Trying(pc.mutex, pc.inherited)));
    } else {
      BlockKeepsBooks(s, t, pc.mutex);
    }
  }

  /** Every step keeps the books, with vTaskPrioritySet and nested blocking included. */
  lemma {:induction false} StepKeepsBooks(s: System, e: Event)
    requires Books(s) && Enabled(s, e)
    ensures Books(Step(s, e))
  {
    match e
    case CreateTask(t, p) => CreateTaskKeepsBooks(s, t, p);
    case CreateMutex(m) => CreateMutexKeepsBooks(s, m);
    case Call(t, m) => TcbKeepsBooks(s, t, s.tcbs[t].(pc := Trying(m, false)));
    case Try(t, mayBlock) =>
      var pc := s.tcbs[t].pc;
      assert TaskBook(s.mutexes, t, s.tcbs[t]) && MutexBook(s.tcbs, pc.mutex, s.mutexes[pc.mutex]);
      if s.mutexes[pc.mutex].count > 0 {
        TakeKeepsBooks(s, t, pc.mutex);
      } else {
        TcbKeepsBooks(s, t, s.tcbs[t].(pc := if mayBlock then Refused(pc.mutex, pc.inherited) else Outside));
      }
    case Suspended(t, expired) => SectionKeepsBooks(s, t, expired);
    case Timeout(t) => TimeoutKeepsBooks(s, t);
    case CheckEmpty(t) =>
      assert TaskBook(s.mutexes, t, s.tcbs[t]);
      TcbKeepsBooks(s, t, Step(s, e).tcbs[t]);
    case Disinheriting(t) => DisinheritingKeepsBooks(s, t);
    case Give(t, m) => GiveKeepsBooks(s, t, m);
    case Delay(t) => TcbKeepsBooks(s, t, s.tcbs[t].(pc := Delayed));
    case Wake(t) => TcbKeepsBooks(s, t, s.tcbs[t].(pc := Outside));
    case PrioritySet(t, p) => TcbKeepsBooks(s, t, SetPriority(s.tcbs[t], p));
  }

  // ---- The bound: holds in disciplined runs ----

  /** t has the highest priority of the tasks that can run. */
  ghost predicate Highest(s: System, t: nat)
    requires t in s.tcbs
  {
    forall u :: u in s.tcbs && Ready(s.tcbs[u]) ==> s.tcbs[u].priority <= s.tcbs[t].priority
  }

  /** Takes are made by the highest-priority ready task, a task that goes to sleep on a mutex holds no other, and
      no priority is set from outside. A task may still take any number of mutexes that it finds free. */
  ghost predicate Disciplined(s: System, e: Event)
    requires Books(s) && Enabled(s, e)
  {
    match e
    case Try(t, _) => Step(s, e).tcbs[t].held > s.tcbs[t].held ==> Highest(s, t)
    case Suspended(t, expired) => Step(s, e).tcbs[t].pc.Waiting? ==> s.tcbs[t].held == 0
    case PrioritySet(_, _) => false
    case _ => true
  }

  predicate Inherited(pc: Pc) {
    pc.Disinheriting? || (!pc.Outside? && !pc.Delayed? && pc.inherited)
  }

  predicate TaskBound(x: Tcb) {
    && x.eventItemValue == configMAX_PRIORITIES - x.priority
    && (x.pc.Waiting? || Inherited(x.pc) ==> x.held == 0)
  }

  /** The holder's priority is at least every waiter's. While the mutex is free, the task woken for it is awake,
      about to try for it, and has at least the priority of all that still wait. */
  ghost predicate MutexBound(tcbs: map<nat, Tcb>, m: nat, x: Mutex) {
    && (forall u :: u in x.waiters ==> u in tcbs)
    && Ordered(tcbs, x.waiters)
    && (x.holder.Some? ==>
          && x.holder.value in tcbs
          && forall u :: u in x.waiters ==> tcbs[u].priority <= tcbs[x.holder.value].priority)
    && (x.holder.None? && x.waiters != [] ==>
          && x.woken in tcbs && tcbs[x.woken].pc.Trying? && tcbs[x.woken].pc.mutex == m && tcbs[x.woken].held == 0
          && forall u :: u in x.waiters ==> tcbs[u].priority <= tcbs[x.woken].priority)
  }

  ghost predicate Bounded(s: System) {
    && (forall m :: m in s.mutexes ==> MutexBound(s.tcbs, m, s.mutexes[m]))
    && (forall t :: t in s.tcbs ==> TaskBound(s.tcbs[t]))
  }

  lemma {:induction false} BoundFrame(a: map<nat, Tcb>, b: map<nat, Tcb>, m: nat, x: Mutex)
    requires MutexBound(a, m, x)
    requires forall u :: u in x.waiters ==>
               u in b && a[u].priority == b[u].priority && a[u].eventItemValue == b[u].eventItemValue
    requires x.holder.Some? ==> x.holder.value in b && a[x.holder.value].priority <= b[x.holder.value].priority
    requires x.holder.None? && x.waiters != [] ==> x.woken in b && a[x.woken] == b[x.woken]
    ensures MutexBound(b, m, x)
  {
    OrderedSame(a, b, x.waiters);
  }

  /** Moving a task, other than the one woken for a mutex that is still free. */
  lemma {:induction false} MoveKeepsBound(s: System, t: nat, pc: Pc)
    requires Books(s) && Bounded(s) && t in s.tcbs && !s.tcbs[t].pc.Waiting? && !pc.Waiting?
    requires Inherited(pc) ==> s.tcbs[t].held == 0
    requires s.tcbs[t].pc.Trying? && s.tcbs[t].pc.mutex in s.mutexes ==> s.mutexes[s.tcbs[t].pc.mutex].holder.Some?
    ensures Bounded(Move(s, t, pc))
  {
    var r := Move(s, t, pc);
    forall m | m in r.mutexes ensures MutexBound(r.tcbs, m, r.mutexes[m]) {
      assert MutexBound(s.tcbs, m, s.mutexes[m]);
      BoundFrame(s.tcbs, r.tcbs, m, s.mutexes[m]);
    }
  }

  /** The taker has at least the priority of the woken task, and so of all that wait. */
  lemma {:induction false} TakenBound(s: System, t: nat, m: nat)
    requires Books(s) && Bounded(s) && t in s.tcbs && Highest(s, t) && m in s.mutexes && s.mutexes[m].holder.None?
    ensures MutexBound(Take(s, t, m).tcbs, m, Take(s, t, m).mutexes[m])
  {
    assert MutexBound(s.tcbs, m, s.mutexes[m]) && MutexBook(s.tcbs, m, s.mutexes[m]);
    OrderedSame(s.tcbs, Take(s, t, m).tcbs, s.mutexes[m].waiters);
  }

  lemma {:induction false} TakeFrame(s: System, t: nat, m: nat)
    requires Books(s) && Bounded(s) && t in s.tcbs && s.tcbs[t].pc.Trying? && s.tcbs[t].pc.mutex == m && m in s.mutexes
    ensures forall k :: k in s.mutexes && k != m ==> MutexBound(Take(s, t, m).tcbs, k, s.mutexes[k])
  {
    var r := Take(s, t, m);
    forall k | k in s.mutexes && k != m ensures MutexBound(r.tcbs, k, s.mutexes[k]) {
      assert MutexBound(s.tcbs, k, s.mutexes[k]) && MutexBook(s.tcbs, k, s.mutexes[k]);
      BoundFrame(s.tcbs, r.tcbs, k, s.mutexes[k]);
    }
  }

  lemma {:induction false} TakeKeepsBound(s: System, t: nat)
    requires Books(s) && Bounded(s) && t in s.tcbs && s.tcbs[t].pc.Trying? && Highest(s, t)
    requires s.tcbs[t].pc.mutex in s.mutexes && s.mutexes[s.tcbs[t].pc.mutex].holder.None?
    ensures Bounded(Take(s, t, s.tcbs[t].pc.mutex))
  {
    var k := s.tcbs[t].pc.mutex;
    var r := Take(s, t, k);
    TakeFrame(s, t, k);
    TakenBound(s, t, k);
    BoundedUpdate(r.tcbs, s.mutexes, k, r.mutexes[k]);
  }

  /** A holder's priority changes: nobody waits for it, and it is no woken task. */
  lemma {:induction false} HolderKeepsBound(s: System, h: nat, x: Tcb)
    requires Books(s) && Bounded(s) && h in s.tcbs && s.tcbs[h].held > 0 && TaskBound(x)
    requires forall m, u :: m in s.mutexes && s.mutexes[m].holder == Some(h) && u in s.mutexes[m].waiters ==>
               s.tcbs[u].priority <= x.priority
    ensures Bounded(s.(tcbs := s.tcbs[h := x]))
  {
    var r := s.(tcbs := s.tcbs[h := x]);
    forall m | m in r.mutexes ensures MutexBound(r.tcbs, m, r.mutexes[m]) {
      assert MutexBound(s.tcbs, m, s.mutexes[m]) && MutexBook(s.tcbs, m, s.mutexes[m]) && TaskBound(s.tcbs[h]);
      HolderBound(s.tcbs, m, s.mutexes[m], h, x);
    }
  }

  lemma {:induction false} HolderBound(tcbs: map<nat, Tcb>, m: nat, y: Mutex, h: nat, x: Tcb)
    requires MutexBook(tcbs, m, y) && MutexBound(tcbs, m, y)
    requires h in tcbs && tcbs[h].held > 0 && TaskBound(tcbs[h])
    requires y.holder == Some(h) ==> forall u :: u in y.waiters ==> tcbs[u].priority <= x.priority
    ensures MutexBound(tcbs[h := x], m, y)
  {
    OrderedSame(tcbs, tcbs[h := x], y.waiters);
  }

  lemma {:induction false} InheritKeepsBound(s: System, h: nat, p: nat)
    requires Books(s) && Bounded(s) && h in s.tcbs && s.tcbs[h].held > 0
    ensures Bounded(s.(tcbs := s.tcbs[h := Inherit(s.tcbs[h], p)]))
  {
    assert TaskBound(s.tcbs[h]);
    forall m, u | m in s.mutexes && s.mutexes[m].holder == Some(h) && u in s.mutexes[m].waiters
      ensures u in s.tcbs && s.tcbs[u].priority <= Inherit(s.tcbs[h], p).priority
    {
      assert MutexBound(s.tcbs, m, s.mutexes[m]);
    }
    HolderKeepsBound(s, h, Inherit(s.tcbs[h], p));
  }

  lemma {:induction false} JoinBound(tcbs: map<nat, Tcb>, m: nat, y: Mutex, t: nat, x: Tcb)
    requires MutexBook(tcbs, m, y) && MutexBound(tcbs, m, y) && y.holder.Some? && t in tcbs
    requires x.priority == tcbs[t].priority && x.eventItemValue == tcbs[t].eventItemValue
    requires x.priority <= tcbs[y.holder.value].priority
    ensures MutexBound(tcbs[t := x], m, y.(waiters := Insert(tcbs, y.waiters, t)))
  {
    InsertMembers(tcbs, y.waiters, t);
    OrderedSame(tcbs, tcbs[t := x], Insert(tcbs, y.waiters, t));
  }

  lemma {:induction false} JoinKeepsBound(s: System, t: nat, m: nat, inherited: bool)
    requires Books(s) && Bounded(s) && t in s.tcbs && m in s.mutexes && s.mutexes[m].holder.Some?
    requires s.tcbs[t].held == 0 && s.tcbs[t].pc.Refused? && forall u :: u in s.mutexes[m].waiters ==> u in s.tcbs
    requires s.mutexes[m].holder.value in s.tcbs && s.tcbs[t].priority <= s.tcbs[s.mutexes[m].holder.value].priority
    ensures Bounded(System(s.tcbs[t := s.tcbs[t].(pc := Waiting(m, inherited))],
                           s.mutexes[m := s.mutexes[m].(waiters := Insert(s.tcbs, s.mutexes[m].waiters, t))]))
  {
    var x := s.tcbs[t].(pc := Waiting(m, inherited));
    var tcbs := s.tcbs[t := x];
    forall k | k in s.mutexes && k != m ensures MutexBound(tcbs, k, s.mutexes[k]) {
      assert MutexBound(s.tcbs, k, s.mutexes[k]) && MutexBook(s.tcbs, k, s.mutexes[k]);
      BoundFrame(s.tcbs, tcbs, k, s.mutexes[k]);
    }
    assert MutexBound(s.tcbs, m, s.mutexes[m]) && MutexBook(s.tcbs, m, s.mutexes[m]) && TaskBound(s.tcbs[t]);
    JoinBound(s.tcbs, m, s.mutexes[m], t, x);
    BoundedUpdate(tcbs, s.mutexes, m, s.mutexes[m].(waiters := Insert(s.tcbs, s.mutexes[m].waiters, t)));
  }

  lemma {:induction false} BlockKeepsBound(s: System, t: nat, m: nat)
    requires Books(s) && Bounded(s) && t in s.tcbs && s.tcbs[t].held == 0 && s.tcbs[t].pc.Refused?
    requires m in s.mutexes && s.mutexes[m].holder.Some?
    ensures Known(s, m) && Bounded(Block(s, t, m))
  {
    assert MutexBook(s.tcbs, m, s.mutexes[m]);
    var h := s.mutexes[m].holder.value;
    HolderHolds(s, m);
    InheritKeepsBound(s, h, s.tcbs[t].priority);
    var x := Inherit(s.tcbs[h], s.tcbs[t].priority);
    TcbKeepsBooks(s, h, x);
    JoinKeepsBound(s.(tcbs := s.tcbs[h := x]), t, m, s.tcbs[h].base < s.tcbs[t].priority);
  }

  lemma {:induction false} LeaveBound(tcbs: map<nat, Tcb>, b: map<nat, Tcb>, m: nat, x: Mutex, t: nat)
    requires MutexBound(tcbs, m, x) && tcbs.Keys == b.Keys
    requires t in tcbs && tcbs[t].pc.Waiting? && b == tcbs[t := tcbs[t].(pc := b[t].pc)]
    ensures MutexBound(b, m, x) && MutexBound(b, m, x.(waiters := Without(x.waiters, t)))
  {
    WithoutMembers(x.waiters, t);
    WithoutKeepsOrder(tcbs, x.waiters, t);
    BoundFrame(tcbs, b, m, x);
    BoundFrame(tcbs, b, m, x.(waiters := Without(x.waiters, t)));
  }

  lemma {:induction false} TimeoutKeepsBound(s: System, t: nat)
    requires Books(s) && Bounded(s) && t in s.tcbs && s.tcbs[t].pc.Waiting?
    ensures Bounded(TakeOffList(s, t))
  {
    var m, r := s.tcbs[t].pc.mutex, TakeOffList(s, t);
    assert TaskBook(s.mutexes, t, s.tcbs[t]) && TaskBound(s.tcbs[t]) && MutexBound(s.tcbs, m, s.mutexes[m]);
    AwakeFrame(s.tcbs, s.mutexes, m, t);
    LeaveBound(s.tcbs, r.tcbs, m, s.mutexes[m], t);
    BoundedUpdate(r.tcbs, s.mutexes, m, r.mutexes[m]);
  }

  lemma {:induction false} OnlyMutexHeld(s: System, h: nat, m: nat, k: nat)
    requires Books(s) && h in s.tcbs && s.tcbs[h].held == 1
    requires m in s.mutexes && s.mutexes[m].holder == Some(h) && k in s.mutexes && s.mutexes[k].holder == Some(h)
    ensures k == m
  {
    assert TaskBook(s.mutexes, h, s.tcbs[h]);
    var held := Held(s.mutexes, h);
    assert m in held && k in held;
    assert |held - {m}| == 0;
    assert held - {m} == {};
  }

  /** The task that stopped waiting is not the holder: the assertion in the source. */
  lemma {:induction false} GivesUpNotHolding(s: System, t: nat)
    requires Books(s) && Bounded(s) && t in s.tcbs && s.tcbs[t].pc.Disinheriting?
    ensures s.tcbs[t].pc.mutex in s.mutexes && s.mutexes[s.tcbs[t].pc.mutex].holder != Some(t)
  {
    assert TaskBook(s.mutexes, t, s.tcbs[t]) && TaskBound(s.tcbs[t]);
    var m := s.tcbs[t].pc.mutex;
    if s.mutexes[m].holder.Some? {
      HolderHolds(s, m);
    }
  }

  lemma {:induction false} GiveUpKeepsBound(s: System, t: nat)
    requires Books(s) && Bounded(s) && t in s.tcbs && s.tcbs[t].pc.Disinheriting?
    ensures Bounded(GiveUp(s, t))
  {
    GivesUpNotHolding(s, t);
    var m := s.tcbs[t].pc.mutex;
    var x := s.mutexes[m];
    assert MutexBook(s.tcbs, m, x);
    if x.holder.Some? {
      var h := x.holder.value;
      KnownWaiters(s, m);
      DisinheritedBound(s, m);
      DisinheritedBook(s, m);
      MoveKeepsBound(s.(tcbs := s.tcbs[h := DisinheritAfterTimeout(s.tcbs[h], HighestWaiting(s.tcbs, x.waiters))]), t, Outside);
    } else {
      MoveKeepsBound(s, t, Outside);
    }
  }

  lemma {:induction false} KnownWaiters(s: System, m: nat)
    requires Books(s) && m in s.mutexes
    ensures Known(s, m) && forall u :: u in s.mutexes[m].waiters ==> s.tcbs[u].eventItemValue <= configMAX_PRIORITIES
  {
    assert MutexBook(s.tcbs, m, s.mutexes[m]);
    assert forall u :: u in s.mutexes[m].waiters ==> TaskBook(s.mutexes, u, s.tcbs[u]);
  }

  lemma {:induction false} DisinheritedBook(s: System, m: nat)
    requires Books(s) && m in s.mutexes && s.mutexes[m].holder.Some?
    requires Known(s, m) && forall u :: u in s.mutexes[m].waiters ==> s.tcbs[u].eventItemValue <= configMAX_PRIORITIES
    ensures var h := s.mutexes[m].holder.value;
      Books(s.(tcbs := s.tcbs[h := DisinheritAfterTimeout(s.tcbs[h], HighestWaiting(s.tcbs, s.mutexes[m].waiters))]))
  {
    var x := s.mutexes[m];
    var h := x.holder.value;
    assert TaskBook(s.mutexes, h, s.tcbs[h]);
    if x.waiters != [] {
      assert x.waiters[0] in x.waiters;
      assert TaskBook(s.mutexes, x.waiters[0], s.tcbs[x.waiters[0]]);
    }
    TcbKeepsBooks(s, h, DisinheritAfterTimeout(s.tcbs[h], HighestWaiting(s.tcbs, x.waiters)));
  }

  lemma {:induction false} HeadIsHighest(s: System, m: nat, u: nat)
    requires Bounded(s) && m in s.mutexes && u in s.mutexes[m].waiters
    requires forall v :: v in s.mutexes[m].waiters ==> v in s.tcbs && s.tcbs[v].eventItemValue <= configMAX_PRIORITIES
    ensures u in s.tcbs && s.tcbs[u].priority <= HighestWaiting(s.tcbs, s.mutexes[m].waiters)
  {
    var w := s.mutexes[m].waiters;
    assert MutexBound(s.tcbs, m, s.mutexes[m]);
    assert w[0] in w && w == [w[0]] + w[1..];
    assert TaskBound(s.tcbs[u]) && TaskBound(s.tcbs[w[0]]);
  }

  lemma {:induction false} DisinheritedBound(s: System, m: nat)
    requires Books(s) && Bounded(s) && m in s.mutexes && s.mutexes[m].holder.Some?
    requires Known(s, m) && forall u :: u in s.mutexes[m].waiters ==> s.tcbs[u].eventItemValue <= configMAX_PRIORITIES
    ensures var h := s.mutexes[m].holder.value;
      Bounded(s.(tcbs := s.tcbs[h := DisinheritAfterTimeout(s.tcbs[h], HighestWaiting(s.tcbs, s.mutexes[m].waiters))]))
  {
    var x := s.mutexes[m];
    var h, highest := x.holder.value, HighestWaiting(s.tcbs, x.waiters);
    var y := DisinheritAfterTimeout(s.tcbs[h], highest);
    HolderHolds(s, m);
    forall k, u | k in s.mutexes && s.mutexes[k].holder == Some(h) && u in s.mutexes[k].waiters
      ensures u in s.tcbs && s.tcbs[u].priority <= y.priority
    {
      assert MutexBound(s.tcbs, k, s.mutexes[k]);
      if s.tcbs[h].held == 1 {
        OnlyMutexHeld(s, h, m, k);
        HeadIsHighest(s, m, u);
      }
    }
    assert TaskBound(s.tcbs[h]);
    HolderKeepsBound(s, h, y);
  }

  lemma {:induction false} DisinheritKeepsBound(s: System, t: nat, m: nat)
    requires Books(s) && Bounded(s) && Enabled(s, Give(t, m)) && s.tcbs[t].held > 0
    ensures forall k :: k in s.mutexes && k != m ==> MutexBound(s.tcbs[t := Disinherit(s.tcbs[t])], k, s.mutexes[k])
  {
    var x := Disinherit(s.tcbs[t]);
    forall k | k in s.mutexes && k != m ensures MutexBound(s.tcbs[t := x], k, s.mutexes[k]) {
      assert MutexBound(s.tcbs, k, s.mutexes[k]) && MutexBook(s.tcbs, k, s.mutexes[k]) && TaskBound(s.tcbs[t]);
      if s.mutexes[k].holder == Some(t) && x.held == 0 {
        OnlyMutexHeld(s, t, m, k);
      }
      HolderBound(s.tcbs, k, s.mutexes[k], t, x);
    }
  }

  /** The mutex comes back and its highest waiter is woken. */
  lemma {:induction false} WakeBound(tcbs: map<nat, Tcb>, m: nat, x: Mutex, b: map<nat, Tcb>)
    requires MutexBook(tcbs, m, x) && MutexBound(tcbs, m, x) && x.waiters != []
    requires forall u :: u in x.waiters ==> TaskBound(tcbs[u])
    requires var w := x.waiters[0]; w in b && b[w] == tcbs[w].(pc := Awake(tcbs[w].pc))
    requires forall u :: u in x.waiters[1..] ==> u in b && b[u] == tcbs[u]
    ensures MutexBound(b, m, Mutex(1, None, x.waiters[1..], x.waiters[0]))
  {
    assert x.waiters == [x.waiters[0]] + x.waiters[1..];
    OrderedSame(tcbs, b, x.waiters[1..]);
  }

  lemma {:induction false} GiveKeepsBound(s: System, t: nat, m: nat)
    requires Books(s) && Bounded(s) && Enabled(s, Give(t, m))
    ensures Bounded(Step(s, Give(t, m)))
  {
    HolderHolds(s, m);
    DisinheritKeepsBound(s, t, m);
    assert MutexBook(s.tcbs, m, s.mutexes[m]) && MutexBound(s.tcbs, m, s.mutexes[m]) && TaskBound(s.tcbs[t]);
    if s.mutexes[m].waiters != [] {
      GivenBound(s, t, m);
      GiveWakes(s, t, m);
    }
  }

  /** Waking a task matters to the mutex it waited for alone. */
  lemma {:induction false} AwakeFrame(tcbs: map<nat, Tcb>, mutexes: map<nat, Mutex>, m: nat, w: nat)
    requires w in tcbs && tcbs[w].pc.Waiting?
    requires forall k :: k in mutexes && k != m ==> MutexBound(tcbs, k, mutexes[k])
    ensures forall k :: k in mutexes && k != m ==> MutexBound(tcbs[w := tcbs[w].(pc := Awake(tcbs[w].pc))], k, mutexes[k])
  {
    var b := tcbs[w := tcbs[w].(pc := Awake(tcbs[w].pc))];
    forall k | k in mutexes && k != m ensures MutexBound(b, k, mutexes[k]) {
      assert MutexBound(tcbs, k, mutexes[k]);
      BoundFrame(tcbs, b, k, mutexes[k]);
    }
  }

  lemma {:induction false} GivenBound(s: System, t: nat, m: nat)
    requires Books(s) && Bounded(s) && Known(s, m) && t in s.tcbs && s.tcbs[t].held > 0
    requires s.mutexes[m].holder == Some(t) && s.mutexes[m].waiters != []
    ensures var r, w := GiveBack(s, t, m), s.mutexes[m].waiters[0];
      MutexBound(r.tcbs, m, Mutex(1, None, s.mutexes[m].waiters[1..], w)) && s.tcbs[w].pc.Waiting? && t != w
  {
    var x := s.mutexes[m];
    assert MutexBook(s.tcbs, m, x) && MutexBound(s.tcbs, m, x) && TaskBound(s.tcbs[t]);
    var w := x.waiters[0];
    assert x.waiters == [w] + x.waiters[1..] && w in x.waiters && TaskBound(s.tcbs[w]);
    WakeBound(s.tcbs, m, x, GiveBack(s, t, m).tcbs);
  }

  lemma {:induction false} BoundedUpdate(tcbs: map<nat, Tcb>, mutexes: map<nat, Mutex>, m: nat, y: Mutex)
    requires forall k :: k in mutexes && k != m ==> MutexBound(tcbs, k, mutexes[k])
    requires MutexBound(tcbs, m, y)
    requires forall t :: t in tcbs ==> TaskBound(tcbs[t])
    ensures Bounded(System(tcbs, mutexes[m := y]))
  {
  }

  lemma {:induction false} GiveWakes(s: System, t: nat, m: nat)
    requires Known(s, m) && t in s.tcbs && s.tcbs[t].held > 0 && s.mutexes[m].count == 0 && s.mutexes[m].waiters != []
    requires forall k :: k in s.mutexes && k != m ==> MutexBound(s.tcbs[t := Disinherit(s.tcbs[t])], k, s.mutexes[k])
    requires forall u :: u in s.tcbs ==> TaskBound(s.tcbs[u])
    requires var r, w := GiveBack(s, t, m), s.mutexes[m].waiters[0];
      MutexBound(r.tcbs, m, Mutex(1, None, s.mutexes[m].waiters[1..], w)) && s.tcbs[w].pc.Waiting? && t != w
    ensures Bounded(GiveBack(s, t, m))
  {
    var r, w := GiveBack(s, t, m), s.mutexes[m].waiters[0];
    AwakeFrame(s.tcbs[t := Disinherit(s.tcbs[t])], s.mutexes, m, w);
    BoundedUpdate(r.tcbs, s.mutexes, m, Mutex(1, None, s.mutexes[m].waiters[1..], w));
  }

  lemma {:induction false} CreateKeepsBound(s: System, e: Event)
    requires Books(s) && Bounded(s) && Enabled(s, e) && (e.CreateTask? || e.CreateMutex?)
    ensures Bounded(Step(s, e))
  {
    var r := Step(s, e);
    forall m | m in s.mutexes ensures MutexBound(r.tcbs, m, s.mutexes[m]) {
      assert MutexBound(s.tcbs, m, s.mutexes[m]);
      BoundFrame(s.tcbs, r.tcbs, m, s.mutexes[m]);
    }
  }

  lemma {:induction false} CallKeepsBound(s: System, e: Event)
    requires Books(s) && Bounded(s) && Enabled(s, e) && Disciplined(s, e)
    requires e.Call? || e.Delay? || e.Wake? || e.CheckEmpty? || e.Try? || e.Suspended?
    ensures Bounded(Step(s, e))
  {
    var t := e.task;
    var pc := s.tcbs[t].pc;
    assert TaskBook(s.mutexes, t, s.tcbs[t]) && TaskBound(s.tcbs[t]);
    assert !pc.Outside? && !pc.Delayed? ==> MutexBook(s.tcbs, pc.mutex, s.mutexes[pc.mutex]);
    if e.Try? && s.mutexes[pc.mutex].count > 0 {
      TakeKeepsBound(s, t);
    } else if e.Suspended? && !e.expired && s.mutexes[pc.mutex].count == 0 {
      BlockKeepsBound(s, t, pc.mutex);
    } else {
      MoveKeepsBound(s, t, Step(s, e).tcbs[t].pc);
    }
  }

  lemma {:induction false} StepKeepsBound(s: System, e: Event)
    requires Books(s) && Bounded(s) && Enabled(s, e) && Disciplined(s, e)
    ensures Bounded(Step(s, e))
  {
    match e
    case CreateTask(_, _) => CreateKeepsBound(s, e);
    case CreateMutex(_) => CreateKeepsBound(s, e);
    case Timeout(t) => TimeoutKeepsBound(s, t);
    case Disinheriting(t) => GiveUpKeepsBound(s, t);
    case Give(t, m) => GiveKeepsBound(s, t, m);
    case _ => CallKeepsBound(s, e);
  }

  // ---- Runs ----

  const START := System(map[], map[])

  ghost predicate IsRun(s: System, es: seq<Event>)
    requires Books(s)
    decreases |es|
  {
    es != [] ==> Enabled(s, es[0]) && (StepKeepsBooks(s, es[0]); IsRun(Step(s, es[0]), es[1..]))
  }

  ghost function Run(s: System, es: seq<Event>): System
    requires Books(s) && IsRun(s, es)
    decreases |es|
  {
    if es == [] then s else (StepKeepsBooks(s, es[0]); Run(Step(s, es[0]), es[1..]))
  }

  lemma {:induction false} RunKeepsBooks(s: System, es: seq<Event>)
    requires Books(s) && IsRun(s, es)
    ensures Books(Run(s, es))
    decreases |es|
  {
    if es != [] {
      StepKeepsBooks(s, es[0]);
      RunKeepsBooks(Step(s, es[0]), es[1..]);
    }
  }

  ghost predicate DisciplinedRun(s: System, es: seq<Event>)
    requires Books(s) && IsRun(s, es)
    decreases |es|
  {
    es != [] ==> Disciplined(s, es[0]) && (StepKeepsBooks(s, es[0]); DisciplinedRun(Step(s, es[0]), es[1..]))
  }

  /** Over every run, with priorities set and mutexes nested at will: each task's count of mutexes held is the
      number of mutexes whose holder it is, its priority is never below its base priority and equals it once it
      holds no mutex, and a mutex has count one exactly while nobody holds it. */
  lemma {:induction false} BookkeepingAlwaysRight(es: seq<Event>)
    requires IsRun(START, es)
    ensures var r := Run(START, es);
      && (forall t :: t in r.tcbs ==>
            && r.tcbs[t].held == |Held(r.mutexes, t)|
            && r.tcbs[t].base <= r.tcbs[t].priority < configMAX_PRIORITIES
            && (Held(r.mutexes, t) == {} ==> r.tcbs[t].priority == r.tcbs[t].base))
      && (forall m :: m in r.mutexes ==> r.mutexes[m].count <= 1 && (r.mutexes[m].count == 1 <==> r.mutexes[m].holder.None?))
  {
    var r := Run(START, es);
    RunKeepsBooks(START, es);
    forall t | t in r.tcbs ensures TaskBook(r.mutexes, t, r.tcbs[t]) {
    }
    forall m | m in r.mutexes ensures MutexBook(r.tcbs, m, r.mutexes[m]) {
    }
  }

  lemma {:induction false} RunKeepsBound(s: System, es: seq<Event>)
    requires Books(s) && Bounded(s) && IsRun(s, es) && DisciplinedRun(s, es)
    ensures Bounded(Run(s, es))
    decreases |es|
  {
    if es != [] {
      StepKeepsBound(s, es[0]);
      StepKeepsBooks(s, es[0]);
      RunKeepsBound(Step(s, es[0]), es[1..]);
    }
  }

  /** Every holder runs at no less than the priority of every task that waits for a mutex it holds. */
  ghost predicate HoldersBound(s: System)
    requires Books(s)
  {
    forall m, u :: m in s.mutexes && s.mutexes[m].holder.Some? && u in s.mutexes[m].waiters ==>
      (assert MutexBook(s.tcbs, m, s.mutexes[m]);
       s.tcbs[u].priority <= s.tcbs[s.mutexes[m].holder.value].priority)
  }

  /** Over every disciplined run, through gives in any order, re-takes and timeouts. A task that waits for a free
      mutex waits behind a woken one of at least its priority. */
  lemma {:induction false} InheritanceBound(es: seq<Event>)
    requires IsRun(START, es) && DisciplinedRun(START, es)
    ensures Books(Run(START, es)) && HoldersBound(Run(START, es))
    ensures var r := Run(START, es);
      forall m, u :: m in r.mutexes && r.mutexes[m].holder.None? && u in r.mutexes[m].waiters && u in r.tcbs ==>
           var w := r.mutexes[m].woken;
           w in r.tcbs && Ready(r.tcbs[w]) && Uses(r.tcbs[w].pc, m) && r.tcbs[u].priority <= r.tcbs[w].priority
  {
    RunKeepsBooks(START, es);
    RunKeepsBound(START, es);
    var r := Run(START, es);
    forall m | m in r.mutexes ensures MutexBound(r.tcbs, m, r.mutexes[m]) && MutexBook(r.tcbs, m, r.mutexes[m]) {
    }
  }

  /** Blocking on m makes its holder wait at a priority its own holder does not have: inheritance is not passed on. */
  ghost predicate Overtakes(s: System, t: nat, m: nat)
    requires Books(s) && t in s.tcbs && m in s.mutexes && s.mutexes[m].holder.Some?
  {
    KnownWaiters(s, m);
    var h := s.mutexes[m].holder.value;
    && s.tcbs[h].priority < s.tcbs[t].priority
    && s.tcbs[h].pc.Waiting?
    && (assert TaskBook(s.mutexes, h, s.tcbs[h]);
        var y := s.mutexes[s.tcbs[h].pc.mutex];
        y.holder.Some? && y.holder.value != h && y.holder.value in s.tcbs && s.tcbs[y.holder.value].priority < s.tcbs[t].priority)
  }

  lemma {:induction false} BlockMembers(s: System, t: nat, m: nat)
    requires Books(s) && t in s.tcbs && s.tcbs[t].pc.Refused? && m in s.mutexes && s.mutexes[m].holder.Some?
    ensures Known(s, m) && Books(Block(s, t, m))
    ensures var r := Block(s, t, m);
      forall k :: k in s.mutexes ==>
        && r.mutexes[k].holder == s.mutexes[k].holder
        && forall u :: u in r.mutexes[k].waiters <==> u in s.mutexes[k].waiters || (u == t && k == m)
  {
    KnownWaiters(s, m);
    BlockKeepsBooks(s, t, m);
    var h := s.mutexes[m].holder.value;
    InsertMembers(s.tcbs[h := Inherit(s.tcbs[h], s.tcbs[t].priority)], s.mutexes[m].waiters, t);
  }

  lemma {:induction false} OvertakenUnbound(s: System, t: nat, m: nat)
    requires Books(s) && t in s.tcbs && s.tcbs[t].pc.Refused? && m in s.mutexes && s.mutexes[m].holder.Some?
    requires Overtakes(s, t, m)
    ensures Known(s, m) && Books(Block(s, t, m)) && !HoldersBound(Block(s, t, m))
  {
    BlockMembers(s, t, m);
    var h, r := s.mutexes[m].holder.value, Block(s, t, m);
    assert TaskBook(s.mutexes, h, s.tcbs[h]);
    var k := s.tcbs[h].pc.mutex;
    assert h in r.mutexes[k].waiters;
  }

  lemma {:induction false} NotOvertaken(s: System, t: nat, m: nat, k: nat, u: nat)
    requires Books(s) && HoldersBound(s) && t in s.tcbs && s.tcbs[t].pc.Refused?
    requires m in s.mutexes && s.mutexes[m].holder.Some? && !Overtakes(s, t, m)
    requires k in s.mutexes && s.mutexes[k].holder.Some? && (u in s.mutexes[k].waiters || (u == t && k == m))
    ensures Known(s, m) && Known(s, k) && u in s.tcbs
    ensures var r := Block(s, t, m); r.tcbs[u].priority <= r.tcbs[s.mutexes[k].holder.value].priority
  {
    KnownWaiters(s, m);
    KnownWaiters(s, k);
    assert MutexBook(s.tcbs, k, s.mutexes[k]);
  }

  /** Blocking on a mutex keeps the bound exactly if it overtakes nobody. */
  lemma {:induction false} BlockKeepsBoundIff(s: System, t: nat, m: nat)
    requires Books(s) && HoldersBound(s) && t in s.tcbs && s.tcbs[t].pc.Refused?
    requires m in s.mutexes && s.mutexes[m].holder.Some?
    ensures Known(s, m) && Books(Block(s, t, m))
    ensures HoldersBound(Block(s, t, m)) <==> !Overtakes(s, t, m)
  {
    BlockMembers(s, t, m);
    if Overtakes(s, t, m) {
      OvertakenUnbound(s, t, m);
    } else {
      var r := Block(s, t, m);
      forall k, u | k in r.mutexes && r.mutexes[k].holder.Some? && u in r.mutexes[k].waiters
        ensures MutexBook(r.tcbs, k, r.mutexes[k]) && r.tcbs[u].priority <= r.tcbs[r.mutexes[k].holder.value].priority
      {
        NotOvertaken(s, t, m, k, u);
      }
    }
  }

  /** vTaskPrioritySet would take a task that is not running at an inherited priority below another task that waits
      for a mutex it holds. */
  ghost predicate DropsBelowWaiter(s: System, t: nat, p: nat)
    requires Books(s) && t in s.tcbs
  {
    && s.tcbs[t].base == s.tcbs[t].priority && p < s.tcbs[t].priority
    && exists m, u :: AnotherWaits(s, t, m, u) && p < s.tcbs[u].priority
  }

  ghost predicate AnotherWaits(s: System, t: nat, m: nat, u: nat) {
    m in s.mutexes && s.mutexes[m].holder == Some(t) && u in s.mutexes[m].waiters && u in s.tcbs && u != t
  }

  /** vTaskPrioritySet would take a waiting task above the holder of the mutex it waits for: inheritance happens
      only when a task goes to wait. */
  ghost predicate RisesAboveHolder(s: System, t: nat, p: nat)
    requires Books(s) && t in s.tcbs
  {
    && s.tcbs[t].priority < p && s.tcbs[t].pc.Waiting?
    && (assert TaskBook(s.mutexes, t, s.tcbs[t]);
        var y := s.mutexes[s.tcbs[t].pc.mutex];
        y.holder.Some? && y.holder.value != t && y.holder.value in s.tcbs && s.tcbs[y.holder.value].priority < p)
  }

  lemma {:induction false} DroppedUnbound(s: System, t: nat, p: nat)
    requires Books(s) && HoldersBound(s) && Enabled(s, PrioritySet(t, p)) && Books(Step(s, PrioritySet(t, p)))
    requires DropsBelowWaiter(s, t, p)
    ensures !HoldersBound(Step(s, PrioritySet(t, p)))
  {
    var m, u :| AnotherWaits(s, t, m, u) && p < s.tcbs[u].priority;
    var r := Step(s, PrioritySet(t, p));
    assert MutexBook(r.tcbs, m, r.mutexes[m]) && r.tcbs[t].priority == p && r.tcbs[u] == s.tcbs[u];
  }

  lemma {:induction false} RisenUnbound(s: System, t: nat, p: nat)
    requires Books(s) && HoldersBound(s) && Enabled(s, PrioritySet(t, p)) && Books(Step(s, PrioritySet(t, p)))
    requires RisesAboveHolder(s, t, p)
    ensures !HoldersBound(Step(s, PrioritySet(t, p)))
  {
    var m, r := s.tcbs[t].pc.mutex, Step(s, PrioritySet(t, p));
    assert TaskBook(s.mutexes, t, s.tcbs[t]) && MutexBook(r.tcbs, m, r.mutexes[m]);
    assert r.tcbs[t].priority == p;
  }

  lemma {:induction false} SetStaysBound(s: System, t: nat, p: nat, m: nat, u: nat)
    requires Books(s) && HoldersBound(s) && t in s.tcbs && !DropsBelowWaiter(s, t, p) && !RisesAboveHolder(s, t, p)
    requires m in s.mutexes && s.mutexes[m].holder.Some? && u in s.mutexes[m].waiters
    ensures Known(s, m)
    ensures var tcbs := s.tcbs[t := SetPriority(s.tcbs[t], p)];
      tcbs[u].priority <= tcbs[s.mutexes[m].holder.value].priority
  {
    KnownWaiters(s, m);
    var h := s.mutexes[m].holder.value;
    assert MutexBook(s.tcbs, m, s.mutexes[m]) && TaskBook(s.mutexes, t, s.tcbs[t]);
    assert s.tcbs[u].priority <= s.tcbs[h].priority;
    if h == t && u != t {
      assert AnotherWaits(s, t, m, u);
    }
  }

  /** Setting a priority keeps the bound exactly if it neither drops the task below a waiter nor raises it, waiting,
      above a holder. */
  lemma {:induction false} PrioritySetKeepsBoundIff(s: System, t: nat, p: nat)
    requires Books(s) && HoldersBound(s) && Enabled(s, PrioritySet(t, p))
    ensures Books(Step(s, PrioritySet(t, p)))
    ensures HoldersBound(Step(s, PrioritySet(t, p))) <==> !DropsBelowWaiter(s, t, p) && !RisesAboveHolder(s, t, p)
  {
    StepKeepsBooks(s, PrioritySet(t, p));
    var r := Step(s, PrioritySet(t, p));
    if DropsBelowWaiter(s, t, p) {
      DroppedUnbound(s, t, p);
    } else if RisesAboveHolder(s, t, p) {
      RisenUnbound(s, t, p);
    } else {
      forall m, u | m in r.mutexes && r.mutexes[m].holder.Some? && u in r.mutexes[m].waiters
        ensures MutexBook(r.tcbs, m, r.mutexes[m]) && r.tcbs[u].priority <= r.tcbs[r.mutexes[m].holder.value].priority
      {
        SetStaysBound(s, t, p, m, u);
      }
    }
  }

  /** The mutex is free, and a task of higher priority than the taker's waits for it. */
  ghost predicate TakesBelowWaiter(s: System, t: nat)
    requires Books(s) && t in s.tcbs && s.tcbs[t].pc.Trying?
  {
    assert TaskBook(s.mutexes, t, s.tcbs[t]);
    var y := s.mutexes[s.tcbs[t].pc.mutex];
    y.count > 0 && exists u :: u in y.waiters && u in s.tcbs && s.tcbs[t].priority < s.tcbs[u].priority
  }

  /** The holder falls, with this mutex the only one it holds, and the head of the wait list is not the highest. */
  ghost predicate DisinheritsBelowWaiter(s: System, t: nat)
    requires Books(s) && t in s.tcbs && s.tcbs[t].pc.Disinheriting?
  {
    assert TaskBook(s.mutexes, t, s.tcbs[t]);
    var m := s.tcbs[t].pc.mutex;
    KnownWaiters(s, m);
    var y := s.mutexes[m];
    y.holder.Some? &&
    (var h := s.tcbs[y.holder.value];
     h.held == 1 && exists u :: AnotherAbove(s, m, u))
  }

  /** The priority the holder of m is given after a timeout */
  ghost function FallsTo(s: System, m: nat): nat
    requires Known(s, m) && s.mutexes[m].holder.Some?
    requires forall u :: u in s.mutexes[m].waiters ==> s.tcbs[u].eventItemValue <= configMAX_PRIORITIES
  {
    Max(s.tcbs[s.mutexes[m].holder.value].base, HighestWaiting(s.tcbs, s.mutexes[m].waiters))
  }

  /** The steps that put a holder below a waiter */
  ghost predicate Breaks(s: System, e: Event)
    requires Books(s) && Enabled(s, e)
  {
    match e
    case Try(t, _) => TakesBelowWaiter(s, t)
    case Suspended(t, expired) =>
      assert TaskBook(s.mutexes, t, s.tcbs[t]) && MutexBook(s.tcbs, s.tcbs[t].pc.mutex, s.mutexes[s.tcbs[t].pc.mutex]);
      !expired && s.mutexes[s.tcbs[t].pc.mutex].count == 0 && Overtakes(s, t, s.tcbs[t].pc.mutex)
    case Disinheriting(t) => DisinheritsBelowWaiter(s, t)
    case PrioritySet(t, p) => DropsBelowWaiter(s, t, p) || RisesAboveHolder(s, t, p)
    case _ => false
  }

  /** No task waits for a mutex of a holder of lower priority, given that none did and that the mutexes held are
      held by the same tasks, have no new waiters, and no priority has changed. */
  lemma {:induction false} StillBound(s: System, r: System)
    requires Books(s) && HoldersBound(s) && Books(r)
    requires forall t :: t in s.tcbs ==> t in r.tcbs && r.tcbs[t].priority == s.tcbs[t].priority
    requires forall m :: m in r.mutexes && r.mutexes[m].holder.Some? && r.mutexes[m].waiters != [] ==>
               && m in s.mutexes && s.mutexes[m].holder == r.mutexes[m].holder
               && forall u :: u in r.mutexes[m].waiters ==> u in s.mutexes[m].waiters
    ensures HoldersBound(r)
  {
    forall m, u | m in r.mutexes && r.mutexes[m].holder.Some? && u in r.mutexes[m].waiters
      ensures MutexBook(r.tcbs, m, r.mutexes[m]) && r.tcbs[u].priority <= r.tcbs[r.mutexes[m].holder.value].priority
    {
      assert MutexBook(s.tcbs, m, s.mutexes[m]);
    }
  }

  lemma {:induction false} Unbound(s: System, m: nat, u: nat)
    requires Books(s) && m in s.mutexes && s.mutexes[m].holder.Some? && u in s.mutexes[m].waiters
    requires u in s.tcbs && s.mutexes[m].holder.value in s.tcbs && s.tcbs[s.mutexes[m].holder.value].priority < s.tcbs[u].priority
    ensures !HoldersBound(s)
  {
    assert MutexBook(s.tcbs, m, s.mutexes[m]);
  }

  lemma {:induction false} TakeBoundIff(s: System, t: nat)
    requires Books(s) && HoldersBound(s) && t in s.tcbs && s.tcbs[t].pc.Trying?
    requires s.tcbs[t].pc.mutex in s.mutexes && s.mutexes[s.tcbs[t].pc.mutex].holder.None?
    ensures Books(Take(s, t, s.tcbs[t].pc.mutex))
    ensures HoldersBound(Take(s, t, s.tcbs[t].pc.mutex)) <==> !TakesBelowWaiter(s, t)
  {
    var k := s.tcbs[t].pc.mutex;
    var r := Take(s, t, k);
    TakeKeepsBooks(s, t, k);
    assert MutexBook(s.tcbs, k, s.mutexes[k]) && MutexBook(r.tcbs, k, r.mutexes[k]);
    if TakesBelowWaiter(s, t) {
      var u :| u in s.mutexes[k].waiters && u in s.tcbs && s.tcbs[t].priority < s.tcbs[u].priority;
      Unbound(r, k, u);
    } else {
      forall m, u | m in r.mutexes && r.mutexes[m].holder.Some? && u in r.mutexes[m].waiters
        ensures MutexBook(r.tcbs, m, r.mutexes[m]) && r.tcbs[u].priority <= r.tcbs[r.mutexes[m].holder.value].priority
      {
        assert MutexBook(s.tcbs, m, s.mutexes[m]);
      }
    }
  }

  /** A task that is to fall does not rise: it runs at no less than its base priority and its waiters' values show. */
  lemma {:induction false} FallsDown(s: System, m: nat)
    requires Books(s) && HoldersBound(s) && m in s.mutexes && s.mutexes[m].holder.Some?
    ensures Known(s, m) && forall u :: u in s.mutexes[m].waiters ==> s.tcbs[u].eventItemValue <= configMAX_PRIORITIES
    ensures FallsTo(s, m) <= s.tcbs[s.mutexes[m].holder.value].priority
  {
    KnownWaiters(s, m);
    var x := s.mutexes[m];
    assert MutexBook(s.tcbs, m, x) && TaskBook(s.mutexes, x.holder.value, s.tcbs[x.holder.value]);
    if x.waiters != [] {
      var w := x.waiters[0];
      assert w in x.waiters && TaskBook(s.mutexes, w, s.tcbs[w]);
      assert s.tcbs[w].priority <= s.tcbs[x.holder.value].priority;
    }
  }

  ghost function Fallen(s: System, m: nat): System
    requires Known(s, m) && s.mutexes[m].holder.Some?
    requires forall u :: u in s.mutexes[m].waiters ==> s.tcbs[u].eventItemValue <= configMAX_PRIORITIES
  {
    var h := s.mutexes[m].holder.value;
    s.(tcbs := s.tcbs[h := DisinheritAfterTimeout(s.tcbs[h], HighestWaiting(s.tcbs, s.mutexes[m].waiters))])
  }

  ghost predicate AnotherAbove(s: System, m: nat, u: nat)
    requires Known(s, m) && s.mutexes[m].holder.Some?
    requires forall v :: v in s.mutexes[m].waiters ==> s.tcbs[v].eventItemValue <= configMAX_PRIORITIES
  {
    u in s.mutexes[m].waiters && u != s.mutexes[m].holder.value && FallsTo(s, m) < s.tcbs[u].priority
  }

  lemma {:induction false} FallBoundIff(s: System, m: nat)
    requires Books(s) && HoldersBound(s) && m in s.mutexes && s.mutexes[m].holder.Some?
    ensures Known(s, m) && forall u :: u in s.mutexes[m].waiters ==> s.tcbs[u].eventItemValue <= configMAX_PRIORITIES
    ensures Books(Fallen(s, m))
    ensures HoldersBound(Fallen(s, m)) <==>
            !(s.tcbs[s.mutexes[m].holder.value].held == 1 && exists u :: AnotherAbove(s, m, u))
  {
    FallsDown(s, m);
    DisinheritedBook(s, m);
    var h, r := s.mutexes[m].holder.value, Fallen(s, m);
    if s.tcbs[h].held == 1 && exists u :: AnotherAbove(s, m, u) {
      var u :| AnotherAbove(s, m, u);
      Unbound(r, m, u);
    } else {
      forall k, u | k in r.mutexes && r.mutexes[k].holder.Some? && u in r.mutexes[k].waiters
        ensures MutexBook(r.tcbs, k, r.mutexes[k]) && r.tcbs[u].priority <= r.tcbs[r.mutexes[k].holder.value].priority
      {
        FallenStaysBound(s, m, k, u);
      }
    }
  }

  lemma {:induction false} FallenStaysBound(s: System, m: nat, k: nat, u: nat)
    requires Books(s) && HoldersBound(s) && m in s.mutexes && s.mutexes[m].holder.Some?
    requires k in s.mutexes && s.mutexes[k].holder.Some? && u in s.mutexes[k].waiters
    requires Known(s, m) && forall v :: v in s.mutexes[m].waiters ==> s.tcbs[v].eventItemValue <= configMAX_PRIORITIES
    requires FallsTo(s, m) <= s.tcbs[s.mutexes[m].holder.value].priority
    requires s.tcbs[s.mutexes[m].holder.value].held == 1 ==> !AnotherAbove(s, m, u)
    ensures Known(s, k)
    ensures var tcbs := Fallen(s, m).tcbs; tcbs[u].priority <= tcbs[s.mutexes[k].holder.value].priority
  {
    KnownWaiters(s, k);
    var h := s.mutexes[m].holder.value;
    assert MutexBook(s.tcbs, k, s.mutexes[k]);
    assert s.tcbs[u].priority <= s.tcbs[s.mutexes[k].holder.value].priority;
    if s.tcbs[h].held == 1 && s.mutexes[k].holder.value == h {
      OnlyMutexHeld(s, h, m, k);
    }
  }

  lemma {:induction false} GiveStaysBound(s: System, t: nat, m: nat)
    requires Books(s) && HoldersBound(s) && Enabled(s, Give(t, m))
    ensures Books(Step(s, Give(t, m))) && HoldersBound(Step(s, Give(t, m)))
  {
    GiveKeepsBooks(s, t, m);
    HolderHolds(s, m);
    var r := Step(s, Give(t, m));
    forall k, u | k in r.mutexes && r.mutexes[k].holder.Some? && u in r.mutexes[k].waiters
      ensures MutexBook(r.tcbs, k, r.mutexes[k]) && r.tcbs[u].priority <= r.tcbs[r.mutexes[k].holder.value].priority
    {
      assert MutexBook(s.tcbs, k, s.mutexes[k]) && MutexBook(s.tcbs, m, s.mutexes[m]);
      assert s.tcbs[u].priority <= s.tcbs[s.mutexes[k].holder.value].priority;
      if s.mutexes[k].holder.value == t && s.tcbs[t].held == 1 {
        OnlyMutexHeld(s, t, m, k);
      }
    }
  }

  /** One step, from a state in which no holder runs below a waiter, leads to another such state exactly if it does
      not break the bound. */
  lemma {:induction false} StepBoundIff(s: System, e: Event)
    requires Books(s) && HoldersBound(s) && Enabled(s, e)
    ensures Books(Step(s, e)) && (HoldersBound(Step(s, e)) <==> !Breaks(s, e))
  {
    StepKeepsBooks(s, e);
    match e
    case Try(t, _) => TryBoundIff(s, e);
    case Suspended(t, _) => SectionBoundIff(s, e);
    case Disinheriting(t) => GiveUpBoundIff(s, t);
    case Give(t, m) => GiveStaysBound(s, t, m);
    case PrioritySet(t, p) => PrioritySetKeepsBoundIff(s, t, p);
    case Timeout(t) => TimeoutStaysBound(s, t);
    case _ => QuietStaysBound(s, e);
  }

  lemma {:induction false} TimeoutStaysBound(s: System, t: nat)
    requires Books(s) && HoldersBound(s) && t in s.tcbs && s.tcbs[t].pc.Waiting?
    ensures Books(TakeOffList(s, t)) && HoldersBound(TakeOffList(s, t))
  {
    TimeoutKeepsBooks(s, t);
    assert TaskBook(s.mutexes, t, s.tcbs[t]);
    var m, r := s.tcbs[t].pc.mutex, TakeOffList(s, t);
    WithoutMembers(s.mutexes[m].waiters, t);
    assert forall k :: k in s.mutexes && k != m ==> r.mutexes[k] == s.mutexes[k];
    StillBound(s, r);
  }

  lemma {:induction false} MoveStaysBound(s: System, t: nat, pc: Pc)
    requires Books(s) && HoldersBound(s) && t in s.tcbs && Books(Move(s, t, pc))
    ensures HoldersBound(Move(s, t, pc))
  {
    StillBound(s, Move(s, t, pc));
  }

  lemma {:induction false} QuietStaysBound(s: System, e: Event)
    requires Books(s) && HoldersBound(s) && Enabled(s, e)
    requires e.CreateTask? || e.CreateMutex? || e.Call? || e.CheckEmpty? || e.Delay? || e.Wake?
    ensures Books(Step(s, e)) && HoldersBound(Step(s, e))
  {
    StepKeepsBooks(s, e);
    if e.CreateTask? || e.CreateMutex? {
      StillBound(s, Step(s, e));
    } else {
      MoveStaysBound(s, e.task, Step(s, e).tcbs[e.task].pc);
    }
  }

  lemma {:induction false} TryBoundIff(s: System, e: Event)
    requires Books(s) && HoldersBound(s) && Enabled(s, e) && e.Try?
    ensures Books(Step(s, e)) && (HoldersBound(Step(s, e)) <==> !Breaks(s, e))
  {
    StepKeepsBooks(s, e);
    var m := s.tcbs[e.task].pc.mutex;
    assert TaskBook(s.mutexes, e.task, s.tcbs[e.task]) && MutexBook(s.tcbs, m, s.mutexes[m]);
    if s.mutexes[m].count > 0 {
      TakeBoundIff(s, e.task);
    } else {
      StillBound(s, Step(s, e));
    }
  }

  lemma {:induction false} SectionBoundIff(s: System, e: Event)
    requires Books(s) && HoldersBound(s) && Enabled(s, e) && e.Suspended?
    ensures Books(Step(s, e)) && (HoldersBound(Step(s, e)) <==> !Breaks(s, e))
  {
    StepKeepsBooks(s, e);
    var m := s.tcbs[e.task].pc.mutex;
    assert TaskBook(s.mutexes, e.task, s.tcbs[e.task]) && MutexBook(s.tcbs, m, s.mutexes[m]);
    if !e.expired && s.mutexes[m].count == 0 {
      BlockKeepsBoundIff(s, e.task, m);
    } else {
      StillBound(s, Step(s, e));
    }
  }

  lemma {:induction false} GiveUpBoundIff(s: System, t: nat)
    requires Books(s) && HoldersBound(s) && t in s.tcbs && s.tcbs[t].pc.Disinheriting?
    ensures Books(GiveUp(s, t)) && (HoldersBound(GiveUp(s, t)) <==> !DisinheritsBelowWaiter(s, t))
  {
    StepKeepsBooks(s, Event.Disinheriting(t));
    assert TaskBook(s.mutexes, t, s.tcbs[t]);
    var m, r := s.tcbs[t].pc.mutex, GiveUp(s, t);
    if s.mutexes[m].holder.Some? {
      FallBoundIff(s, m);
      var q := Fallen(s, m);
      if HoldersBound(q) {
        StillBound(q, r);
      } else if HoldersBound(r) {
        StillBound(r, q);
      }
    } else {
      StillBound(s, r);
    }
  }

  /** No holder runs below a waiter at any point of the run. */
  ghost predicate AlwaysBound(s: System, es: seq<Event>)
    requires Books(s) && IsRun(s, es)
    decreases |es|
  {
    HoldersBound(s) && (es != [] ==> (StepKeepsBooks(s, es[0]); AlwaysBound(Step(s, es[0]), es[1..])))
  }

  ghost predicate NeverBreaks(s: System, es: seq<Event>)
    requires Books(s) && IsRun(s, es)
    decreases |es|
  {
    es != [] ==> !Breaks(s, es[0]) && (StepKeepsBooks(s, es[0]); NeverBreaks(Step(s, es[0]), es[1..]))
  }

  lemma {:induction false} RunBoundIff(s: System, es: seq<Event>)
    requires Books(s) && HoldersBound(s) && IsRun(s, es)
    ensures AlwaysBound(s, es) <==> NeverBreaks(s, es)
    decreases |es|
  {
    if es != [] {
      StepBoundIff(s, es[0]);
      if !Breaks(s, es[0]) {
        RunBoundIff(Step(s, es[0]), es[1..]);
      }
    }
  }

  /** Over every run, disciplined or not: no holder ever runs below a task that waits for a mutex it holds, exactly if no
      task blocks on a mutex and overtakes, takes a mutex below another waiter of it, makes the holder disinherit
      below a waiter, is set below a waiter, or is set, waiting, above a holder. */
  lemma {:induction false} BoundHoldsIff(es: seq<Event>)
    requires IsRun(START, es)
    ensures AlwaysBound(START, es) <==> NeverBreaks(START, es)
  {
    RunBoundIff(START, es);
  }

  lemma {:induction false} BoundedHolds(s: System)
    requires Books(s) && Bounded(s)
    ensures HoldersBound(s)
  {
    forall m | m in s.mutexes ensures MutexBound(s.tcbs, m, s.mutexes[m]) && MutexBook(s.tcbs, m, s.mutexes[m]) {
    }
  }

  /** The discipline excludes all of these steps. */
  lemma {:induction false} DisciplinedNeverBreaks(s: System, es: seq<Event>)
    requires Books(s) && Bounded(s) && IsRun(s, es) && DisciplinedRun(s, es)
    ensures NeverBreaks(s, es)
    decreases |es|
  {
    if es != [] {
      StepKeepsBound(s, es[0]);
      StepKeepsBooks(s, es[0]);
      BoundedHolds(s);
      BoundedHolds(Step(s, es[0]));
      StepBoundIff(s, es[0]);
      DisciplinedNeverBreaks(Step(s, es[0]), es[1..]);
    }
  }

  // ---- When a raised priority is given up ----

  /** The steps that lower the priority of t: giving its last mutex, a waiter giving up on the only mutex it holds, and
      having its base priority lowered while it runs at that. */
  ghost predicate Lowers(s: System, e: Event, t: nat)
    requires Books(s) && Enabled(s, e) && t in s.tcbs
  {
    match e
    case Give(u, _) => u == t && s.tcbs[t].held == 1 && s.tcbs[t].base < s.tcbs[t].priority
    case Disinheriting(u) =>
      assert TaskBook(s.mutexes, u, s.tcbs[u]);
      KnownWaiters(s, s.tcbs[u].pc.mutex);
      && s.mutexes[s.tcbs[u].pc.mutex].holder == Some(t) && s.tcbs[t].held == 1
      && FallsTo(s, s.tcbs[u].pc.mutex) < s.tcbs[t].priority
    case PrioritySet(u, p) => u == t && s.tcbs[t].base == s.tcbs[t].priority && p < s.tcbs[t].priority
    case _ => false
  }

  /** A task's priority falls in exactly these steps. */
  lemma {:induction false} FallsIff(s: System, e: Event, t: nat)
    requires Books(s) && Enabled(s, e) && t in s.tcbs
    ensures t in Step(s, e).tcbs
    ensures Step(s, e).tcbs[t].priority < s.tcbs[t].priority <==> Lowers(s, e, t)
  {
    match e
    case Disinheriting(u) =>
      assert TaskBook(s.mutexes, u, s.tcbs[u]);
      KnownWaiters(s, s.tcbs[u].pc.mutex);
    case Give(u, m) =>
      HolderHolds(s, m);
      assert MutexBook(s.tcbs, m, s.mutexes[m]) && TaskBook(s.mutexes, u, s.tcbs[u]);
      assert s.mutexes[m].waiters != [] ==> s.mutexes[m].waiters[0] in s.mutexes[m].waiters;
    case PrioritySet(_, _) =>
    case _ => OnlyRises(s, e, t);
  }

  lemma {:induction false} OnlyRises(s: System, e: Event, t: nat)
    requires Books(s) && Enabled(s, e) && t in s.tcbs && !e.Disinheriting? && !e.Give? && !e.PrioritySet?
    ensures t in Step(s, e).tcbs && s.tcbs[t].priority <= Step(s, e).tcbs[t].priority
  {
    if e.Try? || e.Suspended? || e.Timeout? || e.CheckEmpty? {
      assert TaskBook(s.mutexes, e.task, s.tcbs[e.task]);
      KnownWaiters(s, s.tcbs[e.task].pc.mutex);
    }
  }

  /** At every point but the last t holds several mutexes, and its priority is not set. */
  ghost predicate HoldsSeveral(s: System, es: seq<Event>, t: nat)
    requires Books(s) && IsRun(s, es)
    decreases |es|
  {
    es != [] ==>
      && t in s.tcbs && s.tcbs[t].held > 1 && !(es[0].PrioritySet? && es[0].task == t)
      && (StepKeepsBooks(s, es[0]); HoldsSeveral(Step(s, es[0]), es[1..], t))
  }

  /** A task that holds several mutexes keeps every priority it has inherited, whoever gives up waiting for it. */
  lemma {:induction false} KeepsWhatItInherits(s: System, es: seq<Event>, t: nat)
    requires Books(s) && IsRun(s, es) && t in s.tcbs && HoldsSeveral(s, es, t)
    ensures t in Run(s, es).tcbs && s.tcbs[t].priority <= Run(s, es).tcbs[t].priority
    decreases |es|
  {
    if es != [] {
      StepKeepsBooks(s, es[0]);
      FallsIff(s, es[0], t);
      KeepsWhatItInherits(Step(s, es[0]), es[1..], t);
    }
  }

  /** After a waiter has given up, the holder is left above the greater of its base priority and what the head of the wait
      list shows, exactly if it was above that and holds another mutex. */
  lemma {:induction false} LeftRaisedIff(s: System, t: nat)
    requires Books(s) && t in s.tcbs && s.tcbs[t].pc.Disinheriting?
    requires s.tcbs[t].pc.mutex in s.mutexes && s.mutexes[s.tcbs[t].pc.mutex].holder.Some?
    ensures var m := s.tcbs[t].pc.mutex;
      && Known(s, m) && (forall u :: u in s.mutexes[m].waiters ==> s.tcbs[u].eventItemValue <= configMAX_PRIORITIES)
      && s.mutexes[m].holder.value in GiveUp(s, t).tcbs
    ensures var m := s.tcbs[t].pc.mutex; var h := s.mutexes[m].holder.value;
      FallsTo(s, m) < GiveUp(s, t).tcbs[h].priority <==> FallsTo(s, m) < s.tcbs[h].priority && s.tcbs[h].held > 1
  {
    var m := s.tcbs[t].pc.mutex;
    KnownWaiters(s, m);
    HolderHolds(s, m);
  }
}
