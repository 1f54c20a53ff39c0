/** OS/tasks.c, one core: which list each task's state list item is in, and which task runs.

    The class Scheduler holds the code with its loops, each method proved to be one of the functions on Kernel; tasks,
    interrupts and the idle task interleave those functions. */
module SchedulerLists {
  import opened KernelConfig
  import opened TaskLists

  const tskIDLE_PRIORITY: nat := 0

  /** The delayed lists go by their own names: the pointers to them are swapped, the lists are not. */
  datatype ListName = Ready(priority: nat) | DelayedTaskList1 | DelayedTaskList2 | SuspendedTaskList | TasksWaitingTermination

  /** container is the list each state list item says it is in. pending holds the tasks whose event list item is on
      xPendingReadyList. suspended is uxSchedulerSuspended, count uxCurrentNumberOfTasks, deleted
      uxDeletedTasksWaitingCleanUp, top uxTopReadyPriority, current pxCurrentTCB. */
  datatype Kernel = Kernel(
    lists: map<ListName, seq<nat>>, container: map<nat, ListName>, priority: map<nat, nat>, pending: seq<nat>,
    count: nat, deleted: nat, top: nat, current: nat, suspended: nat, idle: nat)

  predicate ValidName(l: ListName) {
    l.Ready? ==> l.priority < configMAX_PRIORITIES
  }

  // ---- Lengths ----

  function Length(lists: map<ListName, seq<nat>>, l: ListName): nat {
    if l in lists then |lists[l]| else 0
  }

  function ReadyTotal(lists: map<ListName, seq<nat>>, n: nat): nat {
    if n == 0 then 0 else Length(lists, Ready(n - 1)) + ReadyTotal(lists, n - 1)
  }

  /** The total length of all the lists */
  function Total(lists: map<ListName, seq<nat>>): nat {
    Length(lists, DelayedTaskList1) + Length(lists, DelayedTaskList2) + Length(lists, SuspendedTaskList)
    + Length(lists, TasksWaitingTermination) + ReadyTotal(lists, configMAX_PRIORITIES)
  }

  lemma {:induction false} ReadyTotalUpdate(lists: map<ListName, seq<nat>>, l: ListName, v: seq<nat>, n: nat)
    ensures ReadyTotal(lists[l := v], n) ==
      ReadyTotal(lists, n) + if l.Ready? && l.priority < n then |v| - Length(lists, l) else 0
  {
    if n > 0 {
      ReadyTotalUpdate(lists, l, v, n - 1);
    }
  }

  lemma {:induction false} TotalUpdate(lists: map<ListName, seq<nat>>, l: ListName, v: seq<nat>)
    requires ValidName(l)
    ensures Total(lists[l := v]) == Total(lists) - Length(lists, l) + |v|
  {
    ReadyTotalUpdate(lists, l, v, configMAX_PRIORITIES);
  }

  // ---- The lists ----

  ghost predicate ListOk(container: map<nat, ListName>, l: ListName, list: seq<nat>) {
    NoDuplicates(list) && forall t :: t in list <==> t in container && container[t] == l
  }

  ghost predicate TaskOk(priority: map<nat, nat>, t: nat, l: ListName) {
    && t in priority && priority[t] < configMAX_PRIORITIES && ValidName(l)
    && (l.Ready? ==> l.priority == priority[t])
  }

  /** Every item is in the list it says it is in, once, and in no other; a ready list holds tasks of its priority. */
  ghost predicate Partition(s: Kernel) {
    && (forall l :: l in s.lists <==> ValidName(l))
    && (forall l :: l in s.lists ==> ListOk(s.container, l, s.lists[l]))
    && (forall t :: t in s.container ==> TaskOk(s.priority, t, s.container[t]))
  }

  /** uxListRemove on a state list item */
  function RemoveItem(s: Kernel, t: nat): Kernel
    requires t in s.container && s.container[t] in s.lists
  {
    var l := s.container[t];
    s.(lists := s.lists[l := Without(s.lists[l], t)], container := s.container - {t})
  }

  /** vListInsert or vListInsertEnd: the item goes to place k. */
  function InsertItem(s: Kernel, t: nat, l: ListName, k: nat): Kernel
    requires l in s.lists && k <= |s.lists[l]|
  {
    s.(lists := s.lists[l := s.lists[l][..k] + [t] + s.lists[l][k..]], container := s.container[t := l])
  }

  function InsertEnd(s: Kernel, t: nat, l: ListName): Kernel
    requires l in s.lists
  {
    InsertItem(s, t, l, |s.lists[l]|)
  }

  /** prvAddTaskToReadyList */
  function AddReady(s: Kernel, t: nat): Kernel
    requires t in s.priority && Ready(s.priority[t]) in s.lists
  {
    InsertEnd(s.(top := if s.priority[t] > s.top then s.priority[t] else s.top), t, Ready(s.priority[t]))
  }

  lemma {:induction false} RemoveKeepsPartition(s: Kernel, t: nat)
    requires Partition(s) && t in s.container
    ensures var r := RemoveItem(s, t); Partition(r) && Total(r.lists) == Total(s.lists) - 1
  {
    var l, r := s.container[t], RemoveItem(s, t);
    assert TaskOk(s.priority, t, l) && ListOk(s.container, l, s.lists[l]);
    WithoutMembers(s.lists[l], t);
    WithoutOnce(s.lists[l], t);
    TotalUpdate(s.lists, l, Without(s.lists[l], t));
    forall k | k in r.lists ensures ListOk(r.container, k, r.lists[k]) {
      assert ListOk(s.container, k, s.lists[k]);
    }
  }

  lemma {:induction false} InsertKeepsPartition(s: Kernel, t: nat, l: ListName, k: nat)
    requires Partition(s) && t !in s.container && l in s.lists && k <= |s.lists[l]| && TaskOk(s.priority, t, l)
    ensures var r := InsertItem(s, t, l, k); Partition(r) && Total(r.lists) == Total(s.lists) + 1
  {
    var r := InsertItem(s, t, l, k);
    assert ListOk(s.container, l, s.lists[l]);
    InsertedMembers(s.lists[l], t, k);
    TotalUpdate(s.lists, l, r.lists[l]);
    forall j | j in r.lists ensures ListOk(r.container, j, r.lists[j]) {
      assert ListOk(s.container, j, s.lists[j]);
    }
  }

  // ---- Operations ----

  /** An item changes lists. */
  function Move(s: Kernel, t: nat, l: ListName, k: nat): Kernel
    requires t in s.container && s.container[t] in s.lists
    requires l in s.lists && k <= |RemoveItem(s, t).lists[l]|
  {
    InsertItem(RemoveItem(s, t), t, l, k)
  }

  function MoveToEnd(s: Kernel, t: nat, l: ListName): Kernel
    requires t in s.container && s.container[t] in s.lists && l in s.lists
  {
    Move(s, t, l, |RemoveItem(s, t).lists[l]|)
  }

  function MoveToReady(s: Kernel, t: nat): Kernel
    requires t in s.container && s.container[t] in s.lists && t in s.priority && Ready(s.priority[t]) in s.lists
  {
    AddReady(RemoveItem(s, t), t)
  }

  function Create(s: Kernel, t: nat, p: nat): Kernel
    requires Ready(p) in s.lists
  {
    AddReady(s.(priority := s.priority[t := p], count := s.count + 1), t)
  }

  /** vTaskSuspend */
  function Suspend(s: Kernel, t: nat): Kernel
    requires t in s.container && s.container[t] in s.lists && SuspendedTaskList in s.lists
  {
    MoveToEnd(s.(pending := Without(s.pending, t)), t, SuspendedTaskList)
  }

  /** vTaskDelete: a task that deletes itself waits for the idle task. */
  function Delete(s: Kernel, t: nat): Kernel
    requires t in s.container && s.container[t] in s.lists && TasksWaitingTermination in s.lists && s.count > 0
  {
    var r := s.(pending := Without(s.pending, t));
    if t == s.current then MoveToEnd(r, t, TasksWaitingTermination).(deleted := r.deleted + 1)
    else RemoveItem(r, t).(count := r.count - 1)
  }

  /** One round of prvCheckTasksWaitingTermination */
  ghost function CleanUpOne(s: Kernel): Kernel
    requires Inv(s) && s.deleted > 0
  {
    var t := s.lists[TasksWaitingTermination][0];
    assert ListOk(s.container, TasksWaitingTermination, s.lists[TasksWaitingTermination]);
    RemoveItem(s, t).(count := s.count - 1, deleted := s.deleted - 1)
  }

  /** vTaskPrioritySet and the inheritance functions: a ready task changes lists with its priority. */
  function SetPriority(s: Kernel, t: nat, p: nat): Kernel
    requires t in s.container && s.container[t] in s.lists && Ready(p) in s.lists
  {
    var r := s.(priority := s.priority[t := p]);
    if s.container[t].Ready? then MoveToReady(r, t) else r
  }

  // ---- The invariant ----

  ghost predicate Bounds(s: Kernel) {
    && s.top < configMAX_PRIORITIES
    && (forall p: nat :: s.top < p < configMAX_PRIORITIES && Ready(p) in s.lists ==> s.lists[Ready(p)] == [])
  }

  ghost predicate PendingOk(s: Kernel) {
    && NoDuplicates(s.pending)
    && (forall t :: t in s.pending ==> t in s.container && t != s.idle && !s.container[t].TasksWaitingTermination?)
    && (s.suspended == 0 ==> s.pending == [])
  }

  /** The lists are in order and hold n items, d of them waiting to be freed. */
  ghost predicate Core(s: Kernel, n: int, d: int) {
    Partition(s) && Bounds(s) && Total(s.lists) == |s.container| == n && Length(s.lists, TasksWaitingTermination) == d
  }

  ghost predicate Inv(s: Kernel) {
    && Core(s, s.count, s.deleted) && PendingOk(s)
    && s.idle in s.container && s.container[s.idle].Ready?
    && s.current in s.container
  }

  /** A live task: neither the idle task nor one that waits to be freed */
  predicate Movable(s: Kernel, t: nat) {
    t in s.container && t != s.idle && !s.container[t].TasksWaitingTermination?
  }

  function Waits(l: ListName): int {
    if l.TasksWaitingTermination? then 1 else 0
  }

  lemma {:induction false} RemoveCore(s: Kernel, t: nat, n: nat, d: nat)
    requires Core(s, n, d) && t in s.container
    ensures s.container[t] in s.lists && Core(RemoveItem(s, t), n - 1, d - Waits(s.container[t]))
  {
    RemoveKeepsPartition(s, t);
    RemoveKeepsBounds(s, t);
    RemoveCounts(s, t);
  }

  lemma {:induction false} RemoveKeepsBounds(s: Kernel, t: nat)
    requires Bounds(s) && t in s.container && s.container[t] in s.lists
    ensures Bounds(RemoveItem(s, t))
  {
  }

  lemma {:induction false} RemoveCounts(s: Kernel, t: nat)
    requires Partition(s) && t in s.container
    ensures var r := RemoveItem(s, t);
      && |r.container| == |s.container| - 1
      && Length(r.lists, TasksWaitingTermination) == Length(s.lists, TasksWaitingTermination) - Waits(s.container[t])
  {
    var l := s.container[t];
    assert TaskOk(s.priority, t, l) && ListOk(s.container, l, s.lists[l]);
    WithoutOnce(s.lists[l], t);
  }

  lemma {:induction false} InsertCore(s: Kernel, t: nat, l: ListName, k: nat, n: nat, d: nat)
    requires Core(s, n, d) && t !in s.container && l in s.lists && k <= |s.lists[l]| && TaskOk(s.priority, t, l)
    requires l.Ready? ==> l.priority <= s.top
    ensures Core(InsertItem(s, t, l, k), n + 1, d + Waits(l))
  {
    InsertKeepsPartition(s, t, l, k);
    InsertKeepsBounds(s, t, l, k);
    InsertCounts(s, t, l, k);
  }

  lemma {:induction false} InsertKeepsBounds(s: Kernel, t: nat, l: ListName, k: nat)
    requires Bounds(s) && l in s.lists && k <= |s.lists[l]| && (l.Ready? ==> l.priority <= s.top)
    ensures Bounds(InsertItem(s, t, l, k))
  {
  }

  lemma {:induction false} InsertCounts(s: Kernel, t: nat, l: ListName, k: nat)
    requires t !in s.container && l in s.lists && k <= |s.lists[l]|
    ensures var r := InsertItem(s, t, l, k);
      && |r.container| == |s.container| + 1
      && Length(r.lists, TasksWaitingTermination) == Length(s.lists, TasksWaitingTermination) + Waits(l)
  {
  }

  lemma {:induction false} AddReadyCore(s: Kernel, t: nat, n: nat, d: nat)
    requires Core(s, n, d) && t !in s.container && t in s.priority && s.priority[t] < configMAX_PRIORITIES
    ensures Core(AddReady(s, t), n + 1, d)
  {
    var p := s.priority[t];
    var q := s.(top := if p > s.top then p else s.top);
    assert Partition(q) && Core(q, n, d);
    InsertCore(q, t, Ready(p), |q.lists[Ready(p)]|, n, d);
  }

  /** Moving an item keeps the pending list in order, as long as no pending task is deleted. */
  lemma {:induction false} PendingMoves(s: Kernel, r: Kernel, t: nat, l: ListName)
    requires PendingOk(s) && r.pending == s.pending && r.suspended == s.suspended && r.idle == s.idle
    requires r.container == s.container[t := l] && (t in s.pending ==> !l.TasksWaitingTermination?)
    ensures PendingOk(r)
  {
  }

  lemma {:induction false} PendingRemoved(s: Kernel, r: Kernel, t: nat)
    requires PendingOk(s) && r.pending == s.pending && r.suspended == s.suspended && r.idle == s.idle
    requires r.container == s.container - {t} && t !in s.pending
    ensures PendingOk(r)
  {
  }

  lemma {:induction false} Placed(s: Kernel, t: nat)
    requires Partition(s) && t in s.container
    ensures TaskOk(s.priority, t, s.container[t]) && s.container[t] in s.lists && Ready(s.priority[t]) in s.lists
  {
    assert TaskOk(s.priority, t, s.container[t]);
  }

  /** An item moved ends up in its new list, and no other item moves. */
  lemma {:induction false} MovedTo(s: Kernel, t: nat, l: ListName, k: nat)
    requires t in s.container && s.container[t] in s.lists && l in s.lists && k <= |RemoveItem(s, t).lists[l]|
    ensures Move(s, t, l, k).container == s.container[t := l]
  {
  }

  lemma {:induction false} MoveCore(s: Kernel, t: nat, l: ListName, k: nat, n: nat, d: nat)
    requires Core(s, n, d) && t in s.container && s.container[t] in s.lists && l in s.lists && !l.Ready?
    requires TaskOk(s.priority, t, l) && k <= |RemoveItem(s, t).lists[l]| && 0 < n && Waits(s.container[t]) <= d
    ensures Core(Move(s, t, l, k), n, d - Waits(s.container[t]) + Waits(l))
  {
    RemoveCore(s, t, n, d);
    InsertCore(RemoveItem(s, t), t, l, k, n - 1, d - Waits(s.container[t]));
  }

  lemma {:induction false} MoveKeepsInv(s: Kernel, t: nat, l: ListName, k: nat)
    requires Inv(s) && Movable(s, t) && s.container[t] in s.lists && l in s.lists && !l.Ready? && !l.TasksWaitingTermination?
    requires k <= |RemoveItem(s, t).lists[l]|
    ensures Inv(Move(s, t, l, k))
  {
    Placed(s, t);
    MoveCore(s, t, l, k, s.count, s.deleted);
    MovedTo(s, t, l, k);
    PendingMoves(s, Move(s, t, l, k), t, l);
  }

  lemma {:induction false} MoveToReadyCore(s: Kernel, t: nat, n: nat, d: nat)
    requires Core(s, n, d) && t in s.container && s.container[t] in s.lists && !s.container[t].TasksWaitingTermination?
    requires t in s.priority && Ready(s.priority[t]) in s.lists && s.priority[t] < configMAX_PRIORITIES && 0 < n
    ensures Core(MoveToReady(s, t), n, d)
  {
    RemoveCore(s, t, n, d);
    AddReadyCore(RemoveItem(s, t), t, n - 1, d);
  }

  lemma {:induction false} MovedToReady(s: Kernel, t: nat)
    requires t in s.container && s.container[t] in s.lists && t in s.priority && Ready(s.priority[t]) in s.lists
    ensures MoveToReady(s, t).container == s.container[t := Ready(s.priority[t])]
  {
  }

  lemma {:induction false} MoveToReadyKeepsInv(s: Kernel, t: nat)
    requires Inv(s) && Movable(s, t)
    ensures t in s.priority && Ready(s.priority[t]) in s.lists && s.container[t] in s.lists && Inv(MoveToReady(s, t))
  {
    Placed(s, t);
    MoveToReadyCore(s, t, s.count, s.deleted);
    MovedToReady(s, t);
    PendingMoves(s, MoveToReady(s, t), t, Ready(s.priority[t]));
  }

  /** The priority of a task that is in no ready list can change. */
  lemma {:induction false} RepriorityCore(s: Kernel, t: nat, p: nat, n: nat, d: nat)
    requires Core(s, n, d) && p < configMAX_PRIORITIES && (t in s.container ==> !s.container[t].Ready?)
    ensures Core(s.(priority := s.priority[t := p]), n, d)
  {
    var r := s.(priority := s.priority[t := p]);
    forall u | u in r.container ensures TaskOk(r.priority, u, r.container[u]) {
      assert TaskOk(s.priority, u, s.container[u]);
    }
  }

  lemma {:induction false} CreateKeepsInv(s: Kernel, t: nat, p: nat)
    requires Inv(s) && t !in s.container && Ready(p) in s.lists
    ensures Inv(Create(s, t, p))
  {
    RepriorityCore(s, t, p, s.count, s.deleted);
    AddReadyCore(s.(priority := s.priority[t := p]), t, s.count, s.deleted);
    CountIsOutside(AddReady(s.(priority := s.priority[t := p]), t), Create(s, t, p), s.count + 1, s.deleted);
    PendingMoves(s, Create(s, t, p), t, Ready(p));
  }

  /** What the lists are does not depend on the other fields. */
  lemma {:induction false} CountIsOutside(s: Kernel, r: Kernel, n: int, d: int)
    requires Core(s, n, d)
    requires r.lists == s.lists && r.container == s.container && r.priority == s.priority && r.top == s.top
    ensures Core(r, n, d)
  {
  }

  lemma {:induction false} ForgetKeepsInv(s: Kernel, t: nat)
    requires Inv(s)
    ensures Inv(s.(pending := Without(s.pending, t))) && t !in Without(s.pending, t)
  {
    WithoutMembers(s.pending, t);
    WithoutOnce(s.pending, t);
  }

  lemma {:induction false} DeleteKeepsInv(s: Kernel, t: nat)
    requires Inv(s) && Movable(s, t) && s.container[t] in s.lists && s.count > 0 && TasksWaitingTermination in s.lists
    ensures Inv(Delete(s, t))
  {
    var r := s.(pending := Without(s.pending, t));
    ForgetKeepsInv(s, t);
    if t == s.current {
      var k := |RemoveItem(r, t).lists[TasksWaitingTermination]|;
      Placed(r, t);
      MoveCore(r, t, TasksWaitingTermination, k, s.count, s.deleted);
      MovedTo(r, t, TasksWaitingTermination, k);
      CountIsOutside(Move(r, t, TasksWaitingTermination, k), Delete(s, t), s.count, s.deleted + 1);
      PendingMoves(r, Delete(s, t), t, TasksWaitingTermination);
    } else {
      RemoveCore(r, t, s.count, s.deleted);
      CountIsOutside(RemoveItem(r, t), Delete(s, t), s.count - 1, s.deleted);
      PendingRemoved(r, Delete(s, t), t);
    }
  }

  lemma {:induction false} CleanUpOneKeepsInv(s: Kernel)
    requires Inv(s) && s.deleted > 0 && s.current == s.idle
    ensures Inv(CleanUpOne(s))
  {
    var t := s.lists[TasksWaitingTermination][0];
    assert ListOk(s.container, TasksWaitingTermination, s.lists[TasksWaitingTermination]);
    RemoveCore(s, t, s.count, s.deleted);
    CountIsOutside(RemoveItem(s, t), CleanUpOne(s), s.count - 1, s.deleted - 1);
    PendingRemoved(s, CleanUpOne(s), t);
  }

  lemma {:induction false} SetReadyPriorityCore(s: Kernel, t: nat, p: nat, n: nat, d: nat)
    requires Core(s, n, d) && t in s.container && s.container[t] in s.lists && Ready(p) in s.lists && p < configMAX_PRIORITIES
    requires s.container[t].Ready? && 0 < n
    ensures Core(SetPriority(s, t, p), n, d)
  {
    RemoveCore(s, t, n, d);
    var q := RemoveItem(s, t);
    RepriorityCore(q, t, p, n - 1, d);
    AddReadyCore(q.(priority := q.priority[t := p]), t, n - 1, d);
  }

  lemma {:induction false} Reprioritised(s: Kernel, t: nat, p: nat)
    requires t in s.container && s.container[t] in s.lists && Ready(p) in s.lists
    ensures SetPriority(s, t, p).container == s.container[t := if s.container[t].Ready? then Ready(p) else s.container[t]]
  {
  }

  lemma {:induction false} SetPriorityKeepsInv(s: Kernel, t: nat, p: nat)
    requires Inv(s) && t in s.container && !s.container[t].TasksWaitingTermination?
    requires s.container[t] in s.lists && Ready(p) in s.lists
    ensures Inv(SetPriority(s, t, p))
  {
    if s.container[t].Ready? {
      SetReadyPriorityCore(s, t, p, s.count, s.deleted);
    } else {
      RepriorityCore(s, t, p, s.count, s.deleted);
    }
    Reprioritised(s, t, p);
    PendingMoves(s, SetPriority(s, t, p), t, if s.container[t].Ready? then Ready(p) else s.container[t]);
  }

  lemma {:induction false} SuspendKeepsInv(s: Kernel, t: nat)
    requires Inv(s) && Movable(s, t) && s.container[t] in s.lists && SuspendedTaskList in s.lists
    ensures Inv(Suspend(s, t))
  {
    var r := s.(pending := Without(s.pending, t));
    ForgetKeepsInv(s, t);
    MoveKeepsInv(r, t, SuspendedTaskList, |RemoveItem(r, t).lists[SuspendedTaskList]|);
  }

  // ---- The loops ----

  ghost function MoveOnePending(s: Kernel): (r: Kernel)
    requires Inv(s) && s.pending != [] && s.suspended > 0
    ensures Inv(r) && r.pending == s.pending[1..] && r.suspended == s.suspended
  {
    var t := s.pending[0];
    var q := s.(pending := s.pending[1..]);
    PendingHead(s);
    MoveToReadyKeepsInv(q, t);
    MoveToReady(q, t)
  }

  /** The head of the pending list goes to its ready list, and nothing else moves. */
  lemma {:induction false} MoveOnePendingExact(s: Kernel)
    requires Inv(s) && s.pending != [] && s.suspended > 0
    ensures var t, r := s.pending[0], MoveOnePending(s);
      t in s.priority && r.container == s.container[t := Ready(s.priority[t])] && SameTasks(s, r)
  {
    PendingHead(s);
    ListsExist(s, s.pending[0]);
    MovedToReady(s.(pending := s.pending[1..]), s.pending[0]);
  }

  /** Priorities, counts and the running task are the same. */
  ghost predicate SameTasks(s: Kernel, r: Kernel) {
    r.priority == s.priority && r.count == s.count && r.deleted == s.deleted && r.current == s.current && r.idle == s.idle
  }

  /** Every task in pending is in its ready list, and every other task is where it was. */
  ghost predicate PendingReadied(s: Kernel, r: Kernel) {
    && r.container.Keys == s.container.Keys && r.pending == [] && SameTasks(s, r)
    && (forall u :: u in s.container ==>
          if u in s.pending then u in s.priority && r.container[u] == Ready(s.priority[u])
          else r.container[u] == s.container[u])
  }

  lemma {:induction false} PendingHead(s: Kernel)
    requires Inv(s) && s.pending != [] && s.suspended > 0
    ensures Inv(s.(pending := s.pending[1..])) && Movable(s, s.pending[0])
  {
    assert s.pending == [s.pending[0]] + s.pending[1..];
    CountIsOutside(s, s.(pending := s.pending[1..]), s.count, s.deleted);
  }

  /** The loop of xTaskResumeAll */
  ghost function MovePending(s: Kernel): (r: Kernel)
    requires Inv(s) && s.suspended > 0
    ensures Inv(r) && r.pending == [] && r.suspended == s.suspended
    decreases |s.pending|
  {
    if s.pending == [] then s else MovePending(MoveOnePending(s))
  }

  lemma {:induction false} HeadReadied(s: Kernel, m: Kernel, r: Kernel, t: nat)
    requires s.pending != [] && t == s.pending[0] && t !in s.pending[1..] && t in s.container && t in s.priority
    requires m.pending == s.pending[1..] && m.container == s.container[t := Ready(s.priority[t])] && SameTasks(s, m)
    requires PendingReadied(m, r)
    ensures PendingReadied(s, r)
  {
    assert s.pending == [t] + m.pending;
  }

  /** The loop readies every pending task, and no other task changes lists. */
  lemma {:induction false} MovePendingExact(s: Kernel)
    requires Inv(s) && s.suspended > 0
    ensures PendingReadied(s, MovePending(s))
    decreases |s.pending|
  {
    if s.pending != [] {
      var m := MoveOnePending(s);
      MoveOnePendingExact(s);
      MovePendingExact(m);
      HeadReadied(s, m, MovePending(m), s.pending[0]);
    }
  }

  /** The loop that makes was into MovePending(was) has come as far as s. */
  ghost predicate Moving(s: Kernel, was: Kernel) {
    && Inv(s) && s.suspended == 1 && Inv(was) && was.suspended == 1
    && MovePending(s) == MovePending(was)
  }

  lemma {:induction false} PendingStep(s: Kernel, was: Kernel)
    requires Moving(s, was) && s.pending != []
    ensures Moving(MoveOnePending(s), was) && MoveOnePending(s).pending == s.pending[1..]
  {
  }

  ghost function ResumeAll(s: Kernel): Kernel
    requires Inv(s) && s.suspended > 0
  {
    if s.suspended == 1 then MovePending(s).(suspended := 0) else s.(suspended := s.suspended - 1)
  }

  /** The outermost resume readies every pending task and moves no other; an inner one only counts. */
  ghost predicate Resumed(s: Kernel, r: Kernel) {
    r.suspended == s.suspended - 1 && if r.suspended == 0 then PendingReadied(s, r) else r == s.(suspended := r.suspended)
  }

  lemma {:induction false} ResumeAllExact(s: Kernel)
    requires Inv(s) && s.suspended > 0
    ensures Resumed(s, ResumeAll(s))
  {
    if s.suspended == 1 {
      MovePendingExact(s);
    }
  }

  /** prvCheckTasksWaitingTermination */
  ghost function CleanUp(s: Kernel): (r: Kernel)
    requires Inv(s) && s.current == s.idle
    ensures Inv(r) && r.deleted == 0 && r.lists.Keys == s.lists.Keys && r.suspended == s.suspended
    decreases s.deleted
  {
    if s.deleted == 0 then s else (CleanUpOneKeepsInv(s); KeysKept(s); CleanUp(CleanUpOne(s)))
  }

  ghost predicate SameButFreed(s: Kernel, r: Kernel) {
    r.priority == s.priority && r.pending == s.pending && r.current == s.current && r.suspended == s.suspended
  }

  /** Task t, which waited to be freed, is gone. */
  ghost predicate Freed(s: Kernel, r: Kernel, t: nat) {
    && t in s.container && s.container[t] == TasksWaitingTermination && r.container == s.container - {t}
    && r.count == s.count - 1 && r.deleted == s.deleted - 1 && SameButFreed(s, r)
  }

  /** Every task that waited to be freed is gone, and every other is where it was. */
  ghost predicate AllFreed(s: Kernel, r: Kernel) {
    && (forall u :: u in r.container <==> u in s.container && !s.container[u].TasksWaitingTermination?)
    && (forall u :: u in r.container ==> r.container[u] == s.container[u])
    && r.count == s.count - s.deleted && r.deleted == 0 && SameButFreed(s, r)
  }

  lemma {:induction false} FreedThenAll(s: Kernel, m: Kernel, r: Kernel, t: nat)
    requires Freed(s, m, t) && AllFreed(m, r)
    ensures AllFreed(s, r)
  {
  }

  /** The idle task frees exactly the tasks that wait for it, and no other task is touched. */
  lemma {:induction false} CleanUpExact(s: Kernel)
    requires Inv(s) && s.current == s.idle
    ensures AllFreed(s, CleanUp(s))
    decreases s.deleted
  {
    if s.deleted == 0 {
      NobodyWaits(s);
    } else {
      CleanUpOneKeepsInv(s);
      CleanUpExact(CleanUpOne(s));
      var t := CleanUpOneExact(s);
      FreedThenAll(s, CleanUpOne(s), CleanUp(CleanUpOne(s)), t);
    }
  }

  lemma {:induction false} NobodyWaits(s: Kernel)
    requires Inv(s) && s.deleted == 0
    ensures forall u :: u in s.container ==> !s.container[u].TasksWaitingTermination?
  {
    assert ListOk(s.container, TasksWaitingTermination, s.lists[TasksWaitingTermination]);
  }

  lemma {:induction false} CleanUpOneExact(s: Kernel) returns (t: nat)
    requires Inv(s) && s.deleted > 0
    ensures Freed(s, CleanUpOne(s), t)
  {
    t := s.lists[TasksWaitingTermination][0];
    assert ListOk(s.container, TasksWaitingTermination, s.lists[TasksWaitingTermination]);
    assert t in s.lists[TasksWaitingTermination];
  }

  lemma {:induction false} KeysKept(s: Kernel)
    requires Inv(s) && s.deleted > 0
    ensures CleanUpOne(s).lists.Keys == s.lists.Keys
  {
    assert ListOk(s.container, TasksWaitingTermination, s.lists[TasksWaitingTermination]);
    assert s.container[s.lists[TasksWaitingTermination][0]] in s.lists;
  }

  function TopPriority(lists: map<ListName, seq<nat>>, p: nat): nat
    decreases p
  {
    if p == tskIDLE_PRIORITY || Length(lists, Ready(p)) > 0 then p else TopPriority(lists, p - 1)
  }

  lemma {:induction false} TopPriorityIsTop(lists: map<ListName, seq<nat>>, p: nat)
    ensures var q := TopPriority(lists, p);
      && q <= p && (q > tskIDLE_PRIORITY ==> Length(lists, Ready(q)) > 0)
      && forall k: nat :: q < k <= p ==> Length(lists, Ready(k)) == 0
    decreases p
  {
    if p != tskIDLE_PRIORITY && Length(lists, Ready(p)) == 0 {
      TopPriorityIsTop(lists, p - 1);
    }
  }

  lemma {:induction false} TopPriorityStep(lists: map<ListName, seq<nat>>, p: nat)
    requires Length(lists, Ready(p)) == 0 && Length(lists, Ready(TopPriority(lists, p))) > 0
    ensures p > tskIDLE_PRIORITY && TopPriority(lists, p) == TopPriority(lists, p - 1)
  {
  }

  function SwitchTo(s: Kernel, chosen: nat): Kernel {
    s.(top := TopPriority(s.lists, s.top), current := chosen)
  }

  /** taskSELECT_HIGHEST_PRIORITY_TASK always finds a task: the list it stops at is not empty, and no ready task has a
      higher priority than those in it. */
  lemma {:induction false} SelectionIsHighest(s: Kernel)
    requires Inv(s)
    ensures var p := TopPriority(s.lists, s.top);
      && Ready(p) in s.lists && s.lists[Ready(p)] != []
      && (forall t :: t in s.lists[Ready(p)] ==> t in s.container && t in s.priority && s.priority[t] == p)
      && (forall u :: u in s.container && s.container[u].Ready? ==> u in s.priority && s.priority[u] <= p)
  {
    var p := TopPriority(s.lists, s.top);
    TopPriorityIsTop(s.lists, s.top);
    assert ListOk(s.container, Ready(p), s.lists[Ready(p)]);
    var l := s.container[s.idle];
    assert ListOk(s.container, l, s.lists[l]) && TaskOk(s.priority, s.idle, l);
    assert s.idle in s.lists[l] && Length(s.lists, l) > 0 && l.priority <= s.top;
    forall t | t in s.lists[Ready(p)] ensures t in s.container && t in s.priority && s.priority[t] == p {
      assert TaskOk(s.priority, t, s.container[t]);
    }
    forall u | u in s.container && s.container[u].Ready? ensures u in s.priority && s.priority[u] <= p {
      assert TaskOk(s.priority, u, s.container[u]);
      var k := s.container[u];
      assert ListOk(s.container, k, s.lists[k]);
      assert u in s.lists[k] && Length(s.lists, Ready(k.priority)) > 0;
    }
  }

  lemma {:induction false} SwitchKeepsInv(s: Kernel, chosen: nat)
    requires Inv(s) && Ready(TopPriority(s.lists, s.top)) in s.lists && chosen in s.lists[Ready(TopPriority(s.lists, s.top))]
    ensures Inv(SwitchTo(s, chosen))
  {
    SelectionIsHighest(s);
    TopPriorityIsTop(s.lists, s.top);
    var r := SwitchTo(s, chosen);
    assert Partition(r) && Bounds(r);
  }

  // ---- Runs ----

  datatype Event =
    | CreateTask(task: nat, priority: nat)
    | Block(list: ListName, place: nat)
    | Wake(task: nat)
    | WakeFromISR(task: nat)
    | SuspendTask(task: nat)
    | ResumeTask(task: nat)
    | DeleteTask(task: nat)
    | CleanUpTask
    | ChangePriority(task: nat, priority: nat)
    | SuspendScheduler
    | ResumeScheduler
    | SwitchContext(chosen: nat)

  predicate Enabled(s: Kernel, e: Event) {
    match e
    case CreateTask(t, p) => t !in s.container && p < configMAX_PRIORITIES
    case Block(l, k) =>
      && Movable(s, s.current) && s.container[s.current].Ready?
      && ValidName(l) && !l.Ready? && !l.TasksWaitingTermination? && k <= Length(s.lists, l)
    case Wake(t) => Movable(s, t) && !s.container[t].Ready?
    case WakeFromISR(t) => Movable(s, t) && t !in s.pending && s.suspended > 0
    case SuspendTask(t) => Movable(s, t) && (t == s.current ==> s.suspended == 0)
    case ResumeTask(t) => Movable(s, t) && s.container[t].SuspendedTaskList? && t != s.current && t !in s.pending
    case DeleteTask(t) => Movable(s, t) && (t == s.current ==> s.suspended == 0)
    case CleanUpTask => s.current == s.idle && s.deleted > 0
    case ChangePriority(t, p) => t in s.container && !s.container[t].TasksWaitingTermination? && p < configMAX_PRIORITIES
    case SuspendScheduler => true
    case ResumeScheduler => s.suspended > 0
    case SwitchContext(chosen) =>
      s.suspended == 0 && Ready(TopPriority(s.lists, s.top)) in s.lists &&
      chosen in s.lists[Ready(TopPriority(s.lists, s.top))]
  }

  lemma {:induction false} ListsExist(s: Kernel, t: nat)
    requires Inv(s) && t in s.container
    ensures s.container[t] in s.lists && SuspendedTaskList in s.lists && TasksWaitingTermination in s.lists && s.count > 0
    ensures t in s.priority && Ready(s.priority[t]) in s.lists
  {
    Placed(s, t);
    assert |s.container| > 0;
  }

  lemma {:induction false} BlockListExists(s: Kernel, l: ListName)
    requires Inv(s) && ValidName(l) && !l.Ready? && s.current in s.container && s.container[s.current].Ready?
    ensures l in s.lists && s.container[s.current] in s.lists && RemoveItem(s, s.current).lists[l] == s.lists[l]
  {
    Placed(s, s.current);
  }

  ghost function BlockCurrent(s: Kernel, l: ListName, k: nat): Kernel
    requires Inv(s) && Enabled(s, Block(l, k))
  {
    BlockListExists(s, l);
    Move(s, s.current, l, k)
  }

  ghost function ReadyAgain(s: Kernel, t: nat): Kernel
    requires Inv(s) && Movable(s, t)
  {
    ListsExist(s, t);
    MoveToReady(s, t)
  }

  /** What a task, or another one, makes of a task that is alive */
  ghost function OnTask(s: Kernel, e: Event): Kernel
    requires Inv(s) && Enabled(s, e) && (e.SuspendTask? || e.DeleteTask? || e.ChangePriority?)
  {
    ListsExist(s, e.task);
    match e
    case SuspendTask(t) => Suspend(s, t)
    case DeleteTask(t) => Delete(s, t)
    case ChangePriority(t, p) => assert ValidName(Ready(p)); SetPriority(s, t, p)
  }

  ghost function Step(s: Kernel, e: Event): Kernel
    requires Inv(s) && Enabled(s, e)
  {
    match e
    case CreateTask(t, p) => assert ValidName(Ready(p)); Create(s, t, p)
    case Block(l, k) => BlockCurrent(s, l, k)
    case Wake(t) => ReadyAgain(s, t)
    case WakeFromISR(t) => s.(pending := s.pending + [t])
    case SuspendTask(_) => OnTask(s, e)
    case ResumeTask(t) => ReadyAgain(s, t)
    case DeleteTask(_) => OnTask(s, e)
    case CleanUpTask => CleanUpOne(s)
    case ChangePriority(_, _) => OnTask(s, e)
    case SuspendScheduler => s.(suspended := s.suspended + 1)
    case ResumeScheduler => ResumeAll(s)
    case SwitchContext(chosen) => SwitchTo(s, chosen)
  }

  lemma {:induction false} PendKeepsInv(s: Kernel, t: nat)
    requires Inv(s) && Enabled(s, WakeFromISR(t))
    ensures Inv(s.(pending := s.pending + [t]))
  {
    AppendKeepsUnique(s.pending, t);
    CountIsOutside(s, s.(pending := s.pending + [t]), s.count, s.deleted);
  }

  lemma {:induction false} SuspendedKeepsInv(s: Kernel, n: nat)
    requires Inv(s) && (n == 0 ==> s.pending == [])
    ensures Inv(s.(suspended := n))
  {
    CountIsOutside(s, s.(suspended := n), s.count, s.deleted);
  }

  lemma {:induction false} ResumeAllKeepsInv(s: Kernel)
    requires Inv(s) && s.suspended > 0
    ensures Inv(ResumeAll(s))
  {
    if s.suspended == 1 {
      SuspendedKeepsInv(MovePending(s), 0);
    } else {
      SuspendedKeepsInv(s, s.suspended - 1);
    }
  }

  lemma {:induction false} StepKeepsInv(s: Kernel, e: Event)
    requires Inv(s) && Enabled(s, e)
    ensures Inv(Step(s, e))
  {
    match e
    case CreateTask(t, p) => assert Ready(p) in s.lists; CreateKeepsInv(s, t, p);
    case Block(l, k) => BlockListExists(s, l); MoveKeepsInv(s, s.current, l, k);
    case Wake(t) => MoveToReadyKeepsInv(s, t);
    case WakeFromISR(t) => PendKeepsInv(s, t);
    case SuspendTask(t) => ListsExist(s, t); SuspendKeepsInv(s, t);
    case ResumeTask(t) => MoveToReadyKeepsInv(s, t);
    case DeleteTask(t) => ListsExist(s, t); DeleteKeepsInv(s, t);
    case CleanUpTask => CleanUpOneKeepsInv(s);
    case ChangePriority(t, p) => ListsExist(s, t); assert Ready(p) in s.lists; SetPriorityKeepsInv(s, t, p);
    case SuspendScheduler => SuspendedKeepsInv(s, s.suspended + 1);
    case ResumeScheduler => ResumeAllKeepsInv(s);
    case SwitchContext(chosen) => SwitchKeepsInv(s, chosen);
  }

  // ---- Where every step leaves every task ----

  /** Nothing but where tasks are has changed. */
  ghost predicate OnlyMoves(s: Kernel, r: Kernel) {
    SameTasks(s, r) && r.pending == s.pending && r.suspended == s.suspended
  }

  /** What a step does, task by task: the list each state item is in afterwards, and every field that changes. */
  ghost predicate Places(s: Kernel, e: Event, r: Kernel)
    requires Inv(s) && Enabled(s, e)
  {
    match e
    case CreateTask(t, p) =>
      && r.container == s.container[t := Ready(p)] && r.priority == s.priority[t := p] && r.count == s.count + 1
      && r.deleted == s.deleted && r.pending == s.pending && r.current == s.current && r.suspended == s.suspended
    case Block(l, k) => r.container == s.container[s.current := l] && OnlyMoves(s, r)
    case Wake(t) => t in s.priority && r.container == s.container[t := Ready(s.priority[t])] && OnlyMoves(s, r)
    case WakeFromISR(t) =>
      r.container == s.container && SameTasks(s, r) && r.pending == s.pending + [t] && r.suspended == s.suspended
    case SuspendTask(t) =>
      && r.container == s.container[t := SuspendedTaskList] && SameTasks(s, r) && r.suspended == s.suspended
      && (forall u :: u in r.pending <==> u in s.pending && u != t)
    case ResumeTask(t) => t in s.priority && r.container == s.container[t := Ready(s.priority[t])] && OnlyMoves(s, r)
    case DeleteTask(t) =>
      && r.container == (if t == s.current then s.container[t := TasksWaitingTermination] else s.container - {t})
      && r.deleted == s.deleted + (if t == s.current then 1 else 0)
      && r.count == s.count - (if t == s.current then 0 else 1)
      && r.priority == s.priority && r.current == s.current && r.suspended == s.suspended
      && (forall u :: u in r.pending <==> u in s.pending && u != t)
    case CleanUpTask => exists t :: Freed(s, r, t)
    case ChangePriority(t, p) =>
      && r.container == s.container[t := if s.container[t].Ready? then Ready(p) else s.container[t]]
      && r.priority == s.priority[t := p] && r.count == s.count && r.deleted == s.deleted
      && r.pending == s.pending && r.current == s.current && r.suspended == s.suspended
    case SuspendScheduler => r == s.(suspended := s.suspended + 1)
    case ResumeScheduler => Resumed(s, r)
    case SwitchContext(chosen) => r.container == s.container && OnlyMoves(s, r.(current := s.current)) && r.current == chosen
  }

  lemma {:induction false} StepPlaces(s: Kernel, e: Event)
    requires Inv(s) && Enabled(s, e)
    ensures Places(s, e, Step(s, e))
  {
    match e
    case CreateTask(t, p) =>
    case Block(l, k) => BlockListExists(s, l); MovedTo(s, s.current, l, k);
    case Wake(t) => ListsExist(s, t); MovedToReady(s, t);
    case WakeFromISR(t) =>
    case SuspendTask(t) => SuspendPlaces(s, t);
    case ResumeTask(t) => ListsExist(s, t); MovedToReady(s, t);
    case DeleteTask(t) => DeletePlaces(s, t);
    case CleanUpTask => var t := CleanUpOneExact(s); assert Freed(s, CleanUpOne(s), t);
    case ChangePriority(t, p) => ListsExist(s, t); assert Ready(p) in s.lists; Reprioritised(s, t, p);
    case SuspendScheduler =>
    case ResumeScheduler => ResumeAllExact(s);
    case SwitchContext(chosen) =>
  }

  lemma {:induction false} SuspendPlaces(s: Kernel, t: nat)
    requires Inv(s) && Enabled(s, SuspendTask(t))
    ensures Places(s, SuspendTask(t), Step(s, SuspendTask(t)))
  {
    ListsExist(s, t);
    WithoutMembers(s.pending, t);
    var q := s.(pending := Without(s.pending, t));
    MovedTo(q, t, SuspendedTaskList, |RemoveItem(q, t).lists[SuspendedTaskList]|);
  }

  lemma {:induction false} DeletePlaces(s: Kernel, t: nat)
    requires Inv(s) && Enabled(s, DeleteTask(t))
    ensures Places(s, DeleteTask(t), Step(s, DeleteTask(t)))
  {
    ListsExist(s, t);
    WithoutMembers(s.pending, t);
    var q := s.(pending := Without(s.pending, t));
    if t == s.current {
      MovedTo(q, t, TasksWaitingTermination, |RemoveItem(q, t).lists[TasksWaitingTermination]|);
    }
  }

  /** Task t has gone from its list to place k of list l: the list it left closes up, and no other list changes. */
  ghost predicate Moved(s: Kernel, r: Kernel, t: nat, l: ListName, k: nat, before: seq<nat>, after: seq<nat>)
    requires t in s.container && l in s.lists && k <= |s.lists[l]|
  {
    && r.lists.Keys == s.lists.Keys
    && |r.lists[l]| == |s.lists[l]| + 1 && r.lists[l][k] == t
    && r.lists[l][..k] == s.lists[l][..k] && r.lists[l][k + 1..] == s.lists[l][k..]
    && (forall j :: j in s.lists && j != l ==> r.lists[j] == if j == s.container[t] then before + after else s.lists[j])
  }

  lemma {:induction false} MovedExactly(s: Kernel, t: nat, l: ListName, k: nat, before: seq<nat>, after: seq<nat>)
    requires t in s.container && s.container[t] in s.lists && NoDuplicates(s.lists[s.container[t]])
    requires s.lists[s.container[t]] == before + [t] + after
    requires l in s.lists && l != s.container[t] && k <= |s.lists[l]|
    ensures Moved(s, Move(s, t, l, k), t, l, k, before, after)
  {
    WithoutMiddle(before, t, after);
    var list := s.lists[l];
    assert Move(s, t, l, k).lists[l] == list[..k] + [t] + list[k..];
  }

  /** A task made ready stands last in its ready list. */
  lemma {:induction false} ReadiedLast(s: Kernel, t: nat, before: seq<nat>, after: seq<nat>)
    requires Inv(s) && Movable(s, t) && !s.container[t].Ready?
    requires s.container[t] in s.lists && s.lists[s.container[t]] == before + [t] + after
    ensures t in s.priority && Ready(s.priority[t]) in s.lists
    ensures Moved(s, ReadyAgain(s, t), t, Ready(s.priority[t]), |s.lists[Ready(s.priority[t])]|, before, after)
  {
    ListsExist(s, t);
    assert ListOk(s.container, s.container[t], s.lists[s.container[t]]);
    var p := s.priority[t];
    MovedExactly(s, t, Ready(p), |s.lists[Ready(p)]|, before, after);
  }

  /** A task that blocks goes to its place in the list it waits in. */
  lemma {:induction false} BlocksAtPlace(s: Kernel, l: ListName, k: nat, before: seq<nat>, after: seq<nat>)
    requires Inv(s) && Enabled(s, Block(l, k))
    requires s.container[s.current] in s.lists && s.lists[s.container[s.current]] == before + [s.current] + after
    ensures l in s.lists && Moved(s, BlockCurrent(s, l, k), s.current, l, k, before, after)
  {
    BlockListExists(s, l);
    assert ListOk(s.container, s.container[s.current], s.lists[s.container[s.current]]);
    MovedExactly(s, s.current, l, k, before, after);
  }

  /** A task an interrupt has woken waits on xPendingReadyList while the scheduler is suspended, and then is ready. */
  ghost predicate PendsOrIsReady(s: Kernel, t: nat) {
    t in s.container && t in s.priority && if s.suspended > 0 then t in s.pending else s.container[t] == Ready(s.priority[t])
  }

  lemma {:induction false} StepPendsOrReadies(s: Kernel, e: Event, t: nat)
    requires Inv(s) && Enabled(s, e) && e != SuspendTask(t) && e != DeleteTask(t)
    requires s.suspended > 0 && PendsOrIsReady(s, t)
    ensures PendsOrIsReady(Step(s, e), t)
  {
    StepPlaces(s, e);
    PlacesPendOrReady(s, e, Step(s, e), t);
  }

  lemma {:induction false} PlacesPendOrReady(s: Kernel, e: Event, r: Kernel, t: nat)
    requires Inv(s) && Enabled(s, e) && e != SuspendTask(t) && e != DeleteTask(t) && Places(s, e, r)
    requires s.suspended > 0 && PendsOrIsReady(s, t)
    ensures PendsOrIsReady(r, t)
  {
    assert !s.container[t].TasksWaitingTermination?;
  }

  /** An interrupt's wake is not lost while the scheduler is suspended: over every run of steps that neither suspend nor
      delete the task, it waits on xPendingReadyList until the scheduler runs again, and is in its ready list then. */
  lemma {:induction false} PendingIsReadied(s: Kernel, es: seq<Event>, t: nat)
    requires Inv(s) && IsRun(s, es) && PendsOrIsReady(s, t)
    requires forall e :: e in es ==> e != SuspendTask(t) && e != DeleteTask(t)
    requires forall k :: 0 <= k < |es| ==> RunState(s, es, k).suspended > 0
    ensures PendsOrIsReady(Run(s, es), t)
    decreases |es|
  {
    if es != [] {
      var m, rest := Step(s, es[0]), es[1..];
      assert RunState(s, es, 0) == s && es[0] in es;
      StepPendsOrReadies(s, es[0], t);
      StepKeepsInv(s, es[0]);
      forall f | f in rest ensures f in es {
      }
      forall k | 0 <= k < |rest| ensures RunState(m, rest, k).suspended > 0 {
        RunStateStep(s, es, k + 1);
      }
      PendingIsReadied(m, rest, t);
    }
  }

  ghost predicate IsRun(s: Kernel, es: seq<Event>)
    requires Inv(s)
    decreases |es|
  {
    es != [] ==> Enabled(s, es[0]) && (StepKeepsInv(s, es[0]); IsRun(Step(s, es[0]), es[1..]))
  }

  ghost function Run(s: Kernel, es: seq<Event>): Kernel
    requires Inv(s) && IsRun(s, es)
    decreases |es|
  {
    if es == [] then s else (StepKeepsInv(s, es[0]); Run(Step(s, es[0]), es[1..]))
  }

  /** The state before step k */
  ghost function RunState(s: Kernel, es: seq<Event>, k: nat): Kernel
    requires Inv(s) && IsRun(s, es) && k <= |es|
    decreases k
  {
    if k == 0 then s else (StepKeepsInv(s, es[0]); RunState(Step(s, es[0]), es[1..], k - 1))
  }

  lemma {:induction false} RunStateStep(s: Kernel, es: seq<Event>, k: nat)
    requires Inv(s) && IsRun(s, es) && 0 < k <= |es|
    ensures Inv(Step(s, es[0])) && RunState(s, es, k) == RunState(Step(s, es[0]), es[1..], k - 1)
  {
    StepKeepsInv(s, es[0]);
  }

  lemma {:induction false} RunKeepsInv(s: Kernel, es: seq<Event>)
    requires Inv(s) && IsRun(s, es)
    ensures Inv(Run(s, es))
    decreases |es|
  {
    if es != [] {
      StepKeepsInv(s, es[0]);
      RunKeepsInv(Step(s, es[0]), es[1..]);
    }
  }

  /** Over every run from a state in order, such as the one with the idle task alone: a task's state item is in one
      list and no other, that is its ready list if the task is ready, the kernel's counts are the lists' lengths, and
      no ready list above uxTopReadyPriority holds a task. */
  lemma {:induction false} ListsPartitionTasks(s: Kernel, es: seq<Event>, t: nat)
    requires Inv(s) && IsRun(s, es)
    ensures var r := Run(s, es);
      && (t in r.container <==> exists l :: l in r.lists && t in r.lists[l])
      && (forall l, k :: l in r.lists && k in r.lists && t in r.lists[l] && t in r.lists[k] ==> l == k)
      && (forall p: nat :: Ready(p) in r.lists && t in r.lists[Ready(p)] ==>
            t in r.priority && r.priority[t] == p && p <= r.top)
      && r.count == Total(r.lists) == |r.container| && r.deleted == Length(r.lists, TasksWaitingTermination)
  {
    var r := Run(s, es);
    RunKeepsInv(s, es);
    forall l | l in r.lists ensures ListOk(r.container, l, r.lists[l]) {
    }
    if t in r.container {
      Placed(r, t);
      assert t in r.lists[r.container[t]];
    }
  }

  function StartLists(n: nat, idle: nat): map<ListName, seq<nat>> {
    if n == 0 then
      map[DelayedTaskList1 := [], DelayedTaskList2 := [], SuspendedTaskList := [], TasksWaitingTermination := []]
    else StartLists(n - 1, idle)[Ready(n - 1) := if n == 1 then [idle] else []]
  }

  function Start(idle: nat): Kernel {
    Kernel(StartLists(configMAX_PRIORITIES, idle), map[idle := Ready(tskIDLE_PRIORITY)], map[idle := tskIDLE_PRIORITY], [],
           1, 0, tskIDLE_PRIORITY, idle, 0, idle)
  }

  lemma {:induction false} StartListsAre(n: nat, idle: nat)
    ensures var m := StartLists(n, idle);
      && (forall l :: l in m <==> (l.Ready? ==> l.priority < n))
      && (forall l :: l in m ==> m[l] == if l == Ready(0) then [idle] else [])
      && ReadyTotal(m, n) == if n == 0 then 0 else 1
  {
    if n > 0 {
      StartListsAre(n - 1, idle);
      ReadyTotalUpdate(StartLists(n - 1, idle), Ready(n - 1), if n == 1 then [idle] else [], n - 1);
    }
  }

  lemma {:induction false} StartInv(idle: nat)
    ensures Inv(Start(idle))
  {
    StartListsAre(configMAX_PRIORITIES, idle);
    var s := Start(idle);
    assert NoDuplicates([idle]) && NoDuplicates([]);
    assert Partition(s);
  }

  // ---- The kernel's code ----

  class Scheduler {
    var lists: map<ListName, seq<nat>>
    var pxContainer: map<nat, ListName>
    var uxPriority: map<nat, nat>
    var xPendingReadyList: seq<nat>
    var uxCurrentNumberOfTasks: nat
    var uxDeletedTasksWaitingCleanUp: nat
    var uxTopReadyPriority: nat
    var pxCurrentTCB: nat
    var uxSchedulerSuspended: nat
    ghost const idle: nat

    ghost function Abs(): Kernel
      reads this
    {
      Kernel(lists, pxContainer, uxPriority, xPendingReadyList, uxCurrentNumberOfTasks, uxDeletedTasksWaitingCleanUp,
             uxTopReadyPriority, pxCurrentTCB, uxSchedulerSuspended, idle)
    }

    constructor (xIdleTask: nat)
      ensures Abs() == Start(xIdleTask)
    {
      lists, pxContainer := StartLists(configMAX_PRIORITIES, xIdleTask), map[xIdleTask := Ready(tskIDLE_PRIORITY)];
      uxPriority, xPendingReadyList := map[xIdleTask := tskIDLE_PRIORITY], [];
      uxCurrentNumberOfTasks, uxDeletedTasksWaitingCleanUp, uxTopReadyPriority := 1, 0, tskIDLE_PRIORITY;
      pxCurrentTCB, uxSchedulerSuspended, idle := xIdleTask, 0, xIdleTask;
    }

    /** uxListRemove on a state list item. It returns how many items are left. */
    method ListRemove(t: nat) returns (left: nat)
      requires t in pxContainer && pxContainer[t] in lists
      modifies this`lists, this`pxContainer
      ensures Abs() == RemoveItem(old(Abs()), t) && left == |Without(old(lists)[old(pxContainer)[t]], t)|
    {
      var l := pxContainer[t];
      lists := lists[l := Without(lists[l], t)];
      pxContainer := pxContainer - {t};
      left := |lists[l]|;
    }

    method ListInsertEnd(t: nat, l: ListName)
      requires l in lists
      modifies this`lists, this`pxContainer
      ensures Abs() == InsertEnd(old(Abs()), t, l)
    {
      assert lists[l][..|lists[l]|] + [t] + lists[l][|lists[l]|..] == lists[l] + [t];
      lists := lists[l := lists[l] + [t]];
      pxContainer := pxContainer[t := l];
    }

    method AddTaskToReadyList(t: nat)
      requires t in uxPriority && Ready(uxPriority[t]) in lists
      modifies this`lists, this`pxContainer, this`uxTopReadyPriority
      ensures Abs() == AddReady(old(Abs()), t)
    {
      if uxPriority[t] > uxTopReadyPriority {
        uxTopReadyPriority := uxPriority[t];
      }
      ListInsertEnd(t, Ready(uxPriority[t]));
    }

    /** The critical section of vTaskSuspend */
    method TaskSuspend(t: nat)
      requires t in pxContainer && pxContainer[t] in lists && SuspendedTaskList in lists
      modifies this
      ensures Abs() == Suspend(old(Abs()), t)
    {
      var left := ListRemove(t);
      xPendingReadyList := Without(xPendingReadyList, t);
      ListInsertEnd(t, SuspendedTaskList);
    }

    /** The critical section of vTaskDelete */
    method TaskDelete(t: nat)
      requires t in pxContainer && pxContainer[t] in lists && TasksWaitingTermination in lists && uxCurrentNumberOfTasks > 0
      modifies this
      ensures Abs() == Delete(old(Abs()), t)
    {
      var left := ListRemove(t);
      xPendingReadyList := Without(xPendingReadyList, t);
      if t == pxCurrentTCB {
        ListInsertEnd(t, TasksWaitingTermination);
        uxDeletedTasksWaitingCleanUp := uxDeletedTasksWaitingCleanUp + 1;
      } else {
        uxCurrentNumberOfTasks := uxCurrentNumberOfTasks - 1;
      }
    }

    /** What vTaskPrioritySet and the inheritance functions do to the lists */
    method ChangePriority(t: nat, uxNewPriority: nat)
      requires t in pxContainer && pxContainer[t] in lists && Ready(uxNewPriority) in lists && t in uxPriority
      requires pxContainer[t].Ready? ==> pxContainer[t].priority == uxPriority[t]
      modifies this
      ensures Abs() == SetPriority(old(Abs()), t, uxNewPriority)
    {
      var uxPriorityUsedOnEntry := uxPriority[t];
      uxPriority := uxPriority[t := uxNewPriority];
      if pxContainer[t] == Ready(uxPriorityUsedOnEntry) {
        var left := ListRemove(t);
        AddTaskToReadyList(t);
      }
    }

    method ReadyPendingHead(ghost s: Kernel)
      requires Inv(s) && s.suspended == 1 && s.pending != [] && Abs() == s.(suspended := 0)
      modifies this`xPendingReadyList, this`lists, this`pxContainer, this`uxTopReadyPriority
      ensures Abs() == MoveOnePending(s).(suspended := 0)
    {
      PendingHead(s);
      var pxTCB := xPendingReadyList[0];
      ListsExist(s, pxTCB);
      xPendingReadyList := xPendingReadyList[1..];
      var left := ListRemove(pxTCB);
      AddTaskToReadyList(pxTCB);
    }

    method ReadyPendingTasks(ghost was: Kernel)
      requires Inv(was) && was.suspended == 1 && Abs() == was.(suspended := 0)
      modifies this`xPendingReadyList, this`lists, this`pxContainer, this`uxTopReadyPriority
      ensures Abs() == MovePending(was).(suspended := 0)
    {
      ghost var s := was;
      while xPendingReadyList != []
        invariant Moving(s, was) && Abs() == s.(suspended := 0)
        decreases |xPendingReadyList|
      {
        ReadyPendingHead(s);
        PendingStep(s, was);
        s := MoveOnePending(s);
      }
    }

    /** The critical section of xTaskResumeAll, up to the ticks held back */
    method TaskResumeAll()
      requires Inv(Abs()) && uxSchedulerSuspended > 0
      modifies this`uxSchedulerSuspended, this`xPendingReadyList, this`lists, this`pxContainer, this`uxTopReadyPriority
      ensures Abs() == ResumeAll(old(Abs())) && Resumed(old(Abs()), Abs())
    {
      ghost var was := Abs();
      ResumeAllExact(was);
      uxSchedulerSuspended := uxSchedulerSuspended - 1;
      if uxSchedulerSuspended == 0 {
        ReadyPendingTasks(was);
      }
    }

    method CleanUpHead()
      requires Inv(Abs()) && uxDeletedTasksWaitingCleanUp > 0
      modifies this`lists, this`pxContainer, this`uxCurrentNumberOfTasks, this`uxDeletedTasksWaitingCleanUp
      ensures Abs() == CleanUpOne(old(Abs()))
    {
      ListsExist(Abs(), idle);
      var pxTCB := lists[TasksWaitingTermination][0];
      assert ListOk(pxContainer, TasksWaitingTermination, lists[TasksWaitingTermination]);
      var left := ListRemove(pxTCB);
      uxCurrentNumberOfTasks := uxCurrentNumberOfTasks - 1;
      uxDeletedTasksWaitingCleanUp := uxDeletedTasksWaitingCleanUp - 1;
    }

    /** prvCheckTasksWaitingTermination, run by the idle task */
    method CheckTasksWaitingTermination()
      requires Inv(Abs()) && pxCurrentTCB == idle
      modifies this`lists, this`pxContainer, this`uxCurrentNumberOfTasks, this`uxDeletedTasksWaitingCleanUp
      ensures Abs() == CleanUp(old(Abs())) && uxDeletedTasksWaitingCleanUp == 0
      ensures uxCurrentNumberOfTasks == old(uxCurrentNumberOfTasks) - old(uxDeletedTasksWaitingCleanUp)
      ensures forall t :: t in pxContainer <==> t in old(pxContainer) && !old(pxContainer)[t].TasksWaitingTermination?
      ensures forall t :: t in pxContainer ==> pxContainer[t] == old(pxContainer)[t]
    {
      ghost var was, s := Abs(), Abs();
      CleanUpExact(was);
      while uxDeletedTasksWaitingCleanUp > 0
        invariant Inv(s) && s.current == s.idle
        invariant Abs() == s
        invariant CleanUp(s) == CleanUp(was)
        decreases uxDeletedTasksWaitingCleanUp
      {
        CleanUpOneKeepsInv(s);
        CleanUpHead();
        s := CleanUpOne(s);
      }
    }

    /** The loop of taskSELECT_HIGHEST_PRIORITY_TASK: its assertion, that it never runs below priority zero, holds. */
    method FindHighestPriority() returns (uxTopPriority: nat)
      requires forall p: nat :: p <= uxTopReadyPriority ==> Ready(p) in lists
      requires Length(lists, Ready(TopPriority(lists, uxTopReadyPriority))) > 0
      ensures uxTopPriority == TopPriority(lists, uxTopReadyPriority)
    {
      uxTopPriority := uxTopReadyPriority;
      while lists[Ready(uxTopPriority)] == []
        invariant uxTopPriority <= uxTopReadyPriority
        invariant TopPriority(lists, uxTopPriority) == TopPriority(lists, uxTopReadyPriority)
        decreases uxTopPriority
      {
        TopPriorityStep(lists, uxTopPriority);
        assert uxTopPriority > 0;
        uxTopPriority := uxTopPriority - 1;
      }
      assert Length(lists, Ready(uxTopPriority)) > 0;
    }

    /** taskSELECT_HIGHEST_PRIORITY_TASK. Which task of the list it takes is for the list's own index to say. */
    method SelectHighestPriorityTask(chosen: nat)
      requires Inv(Abs()) && Ready(TopPriority(lists, uxTopReadyPriority)) in lists
      requires chosen in lists[Ready(TopPriority(lists, uxTopReadyPriority))]
      modifies this`uxTopReadyPriority, this`pxCurrentTCB
      ensures Abs() == SwitchTo(old(Abs()), chosen)
    {
      forall p: nat | p <= uxTopReadyPriority ensures Ready(p) in lists {
        assert ValidName(Ready(p));
      }
      var uxTopPriority := FindHighestPriority();
      pxCurrentTCB := chosen;
      uxTopReadyPriority := uxTopPriority;
    }
  }
}
