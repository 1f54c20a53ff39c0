/** OS/tasks.c: choosing a task for one of several cores.

    configNUMBER_OF_CORES above one, configRUN_MULTIPLE_PRIORITIES set, no core affinity. */
module SmpSelection {
  import opened KernelConfig
  import opened TaskLists

  const taskTASK_NOT_RUNNING := -1
  const taskTASK_SCHEDULED_TO_YIELD := -2
  const tskIDLE_PRIORITY := 0

  /** idle is the set of idle tasks, one for each core; the kernel keeps them ready for good. */
  datatype Cores = Cores(
    ready: seq<seq<nat>>, current: seq<nat>, runState: map<nat, int>, priority: map<nat, nat>, top: nat, idle: set<nat>)

  // ---- The invariant ----

  ghost predicate Shape(s: Cores) {
    && |s.ready| == configMAX_PRIORITIES && s.top < configMAX_PRIORITIES
    && s.priority.Keys == s.runState.Keys
    && (forall p, t :: 0 <= p < |s.ready| && t in s.ready[p] ==> t in s.priority && s.priority[t] == p)
    && (forall p :: s.top < p < |s.ready| ==> s.ready[p] == [])
    && (forall t :: t in s.idle ==> t in s.ready[tskIDLE_PRIORITY])
    && |s.idle| == |s.current|
  }

  /** The run states agree with the cores' current tasks, and no task is current on two cores. */
  ghost predicate Placement(s: Cores) {
    && (forall i :: 0 <= i < |s.current| ==>
          && s.current[i] in s.runState
          && (s.runState[s.current[i]] == i || s.runState[s.current[i]] == taskTASK_SCHEDULED_TO_YIELD))
    && (forall i, j :: 0 <= i < j < |s.current| ==> s.current[i] != s.current[j])
    && (forall t :: t in s.runState && t !in s.current ==> s.runState[t] == taskTASK_NOT_RUNNING)
  }

  ghost predicate Inv(s: Cores) {
    Shape(s) && Placement(s)
  }

  // ---- Selection ----

  /** The running task goes to the end of its ready list, if it is still in it. */
  function Requeue(s: Cores, core: nat): Cores
    requires Inv(s) && core < |s.current|
  {
    var t := s.current[core];
    var p := s.priority[t];
    if p < |s.ready| && t in s.ready[p] then s.(ready := s.ready[p := Without(s.ready[p], t) + [t]]) else s
  }

  predicate Eligible(s: Cores, core: nat, t: nat)
    requires core < |s.current|
  {
    t in s.runState && (s.runState[t] == taskTASK_NOT_RUNNING || t == s.current[core])
  }

  function FirstEligible(s: Cores, core: nat, list: seq<nat>): Option<nat>
    requires core < |s.current|
  {
    if list == [] then None
    else if Eligible(s, core, list[0]) then Some(list[0])
    else FirstEligible(s, core, list[1..])
  }

  function Search(s: Cores, core: nat, p: nat): Option<nat>
    requires core < |s.current| && p < |s.ready|
  {
    var found := FirstEligible(s, core, s.ready[p]);
    if found.Some? || p == tskIDLE_PRIORITY then found else Search(s, core, p - 1)
  }

  function TopReady(ready: seq<seq<nat>>, p: nat): nat
    requires p < |ready|
  {
    if ready[p] != [] || p == tskIDLE_PRIORITY then p else TopReady(ready, p - 1)
  }

  function SwapIn(s: Cores, core: nat, t: nat): Cores
    requires core < |s.current|
  {
    s.(runState := s.runState[s.current[core] := taskTASK_NOT_RUNNING][t := core], current := s.current[core := t])
  }

  function Select(s: Cores, core: nat): Cores
    requires Inv(s) && core < |s.current|
  {
    var q := Requeue(s, core);
    var r := q.(top := TopReady(q.ready, q.top));
    match Search(q, core, q.top)
    case Some(t) => SwapIn(r, core, t)
    case None => r
  }

  lemma {:induction false} FirstEligibleIsFirst(s: Cores, core: nat, list: seq<nat>)
    requires core < |s.current|
    ensures match FirstEligible(s, core, list)
            case Some(t) => t in list && Eligible(s, core, t) &&
              exists k :: 0 <= k < |list| && list[k] == t && forall j :: 0 <= j < k ==> !Eligible(s, core, list[j])
            case None => forall t :: t in list ==> !Eligible(s, core, t)
  {
    if list != [] && !Eligible(s, core, list[0]) {
      FirstEligibleIsFirst(s, core, list[1..]);
      var found := FirstEligible(s, core, list[1..]);
      assert list == [list[0]] + list[1..];
      if found.Some? {
        var k :| 0 <= k < |list| - 1 && list[1..][k] == found.value && forall j :: 0 <= j < k ==> !Eligible(s, core, list[1..][j]);
        assert list[k + 1] == found.value;
        forall j | 0 <= j < k + 1 ensures !Eligible(s, core, list[j]) {
          assert j > 0 ==> list[j] == list[1..][j - 1];
        }
      }
    }
  }

  /** t is the first eligible task of priority q, and none of higher priority is eligible. */
  ghost predicate FoundAt(s: Cores, core: nat, p: nat, t: nat, q: nat)
    requires core < |s.current| && p < |s.ready|
  {
    && q <= p && FirstEligible(s, core, s.ready[q]) == Some(t)
    && forall k, u :: q < k <= p && u in s.ready[k] ==> !Eligible(s, core, u)
  }

  lemma {:induction false} SearchFindsHighest(s: Cores, core: nat, p: nat)
    requires core < |s.current| && p < |s.ready|
    ensures Search(s, core, p).Some? ==> exists q: nat :: FoundAt(s, core, p, Search(s, core, p).value, q)
    ensures Search(s, core, p).None? ==> forall k, u :: 0 <= k <= p && u in s.ready[k] ==> !Eligible(s, core, u)
  {
    FirstEligibleIsFirst(s, core, s.ready[p]);
    if FirstEligible(s, core, s.ready[p]).Some? {
      assert FoundAt(s, core, p, Search(s, core, p).value, p);
    } else if p != tskIDLE_PRIORITY {
      SearchFindsHighest(s, core, p - 1);
      var found := Search(s, core, p - 1);
      assert Search(s, core, p) == found;
      if found.Some? {
        var q: nat :| FoundAt(s, core, p - 1, found.value, q);
        assert FoundAt(s, core, p, found.value, q);
      }
    }
  }

  /** A core too few for the idle tasks: one of them runs on none of the others. */
  lemma {:induction false} IdleTaskFree(idle: set<nat>, current: seq<nat>, core: nat) returns (t: nat)
    requires core < |current| && |idle| == |current|
    ensures t in idle && forall j :: 0 <= j < |current| && j != core ==> current[j] != t
  {
    var others := current[..core] + current[core + 1..];
    var busy := Members(others);
    assert |busy| < |idle|;
    if idle <= busy {
      SubsetSize(idle, busy);
    }
    t :| t in idle && t !in busy;
    forall j | 0 <= j < |current| && j != core ensures current[j] in others {
      assert current[j] == others[if j < core then j else j - 1];
    }
  }

  ghost function Members(s: seq<nat>): (r: set<nat>)
    ensures |r| <= |s| && forall t :: t in r <==> t in s
  {
    if s == [] then {} else (assert s == [s[0]] + s[1..]; {s[0]} + Members(s[1..]))
  }

  lemma {:induction false} IdleListNotEmpty(s: Cores)
    requires Inv(s) && s.current != []
    ensures s.ready[tskIDLE_PRIORITY] != []
  {
    var t := IdleTaskFree(s.idle, s.current, 0);
  }

  lemma {:induction false} RequeueKeepsInv(s: Cores, core: nat)
    requires Inv(s) && core < |s.current|
    ensures var q := Requeue(s, core);
      Inv(q) && forall p, t :: 0 <= p < |s.ready| ==> (t in q.ready[p] <==> t in s.ready[p])
  {
    var t := s.current[core];
    if s.priority[t] < |s.ready| {
      WithoutMembers(s.ready[s.priority[t]], t);
    }
  }

  lemma {:induction false} TopReadyBounds(ready: seq<seq<nat>>, p: nat)
    requires p < |ready|
    ensures var q := TopReady(ready, p);
      q <= p && (forall k :: q < k <= p ==> ready[k] == []) && (q > 0 ==> ready[q] != [])
  {
    if ready[p] == [] && p != tskIDLE_PRIORITY {
      TopReadyBounds(ready, p - 1);
    }
  }

  /** A task can always be found. */
  lemma {:induction false} SearchSucceeds(s: Cores, core: nat)
    requires Inv(s) && core < |s.current|
    ensures Search(s, core, s.top).Some?
  {
    SearchFindsHighest(s, core, s.top);
    var t := IdleTaskFree(s.idle, s.current, core);
    assert t in s.ready[tskIDLE_PRIORITY] && Eligible(s, core, t);
  }

  lemma {:induction false} SwapInKeepsPlacement(s: Cores, core: nat, t: nat)
    requires Placement(s) && core < |s.current| && Eligible(s, core, t)
    ensures Placement(SwapIn(s, core, t))
  {
    var r := SwapIn(s, core, t);
    assert forall i :: 0 <= i < |s.current| && i != core ==> r.current[i] == s.current[i] && s.current[i] in s.current;
    forall u | u in r.runState && u !in r.current ensures r.runState[u] == taskTASK_NOT_RUNNING {
      assert r.current[core] == t;
      assert forall i :: 0 <= i < |s.current| && i != core ==> s.current[i] == r.current[i] && r.current[i] in r.current;
    }
  }

  lemma {:induction false} Selected(s: Cores, core: nat) returns (t: nat, p: nat)
    requires Inv(s) && core < |s.current|
    ensures var q := Requeue(s, core);
      Inv(q) && Search(q, core, q.top) == Some(t) && FoundAt(q, core, q.top, t, p) && Eligible(q, core, t) && t in q.ready[p]
  {
    var q := Requeue(s, core);
    RequeueKeepsInv(s, core);
    SearchSucceeds(q, core);
    SearchFindsHighest(q, core, q.top);
    t := Search(q, core, q.top).value;
    p :| FoundAt(q, core, q.top, t, p);
    FirstEligibleIsFirst(q, core, q.ready[p]);
  }

  predicate RunsElsewhere(s: Cores, core: nat, t: nat) {
    exists j :: 0 <= j < |s.current| && j != core && s.current[j] == t
  }

  lemma {:induction false} TopKeepsInv(s: Cores)
    requires Inv(s)
    ensures Inv(s.(top := TopReady(s.ready, s.top)))
  {
    TopReadyBounds(s.ready, s.top);
  }

  lemma {:induction false} SelectKeepsInv(s: Cores, core: nat)
    requires Inv(s) && core < |s.current|
    ensures var r := Select(s, core); Inv(r) && |r.current| == |s.current| && r.idle == s.idle
  {
    var q := Requeue(s, core);
    var t, p := Selected(s, core);
    TopKeepsInv(q);
    var r := q.(top := TopReady(q.ready, q.top));
    SwapInKeepsPlacement(r, core, t);
    SwapInKeepsShape(r, core, t);
  }

  /** Selection leaves uxTopReadyPriority at exactly the highest priority that has a ready task. */
  lemma {:induction false} TopIsHighestReady(s: Cores, core: nat)
    requires Inv(s) && core < |s.current|
    ensures var r := Select(s, core);
      r.top < |r.ready| && r.ready[r.top] != [] && forall p :: r.top < p < |r.ready| ==> r.ready[p] == []
  {
    var q := Requeue(s, core);
    RequeueKeepsInv(s, core);
    IdleListNotEmpty(q);
    TopReadyBounds(q.ready, q.top);
  }

  lemma {:induction false} SwapInKeepsShape(s: Cores, core: nat, t: nat)
    requires Inv(s) && core < |s.current| && Eligible(s, core, t)
    ensures Shape(SwapIn(s, core, t))
  {
    assert s.current[core] in s.runState;
    assert SwapIn(s, core, t).runState.Keys == s.runState.Keys;
  }

  /** prvSelectHighestPriorityTask always finds a task. The task is ready, the core runs it, and no ready task
      that is not running on another core has a higher priority. No other core's task changes. */
  lemma {:induction false} SelectPicksHighest(s: Cores, core: nat)
    requires Inv(s) && core < |s.current|
    ensures var r := Select(s, core);
      && |r.current| == |s.current| && (forall j :: 0 <= j < |s.current| && j != core ==> r.current[j] == s.current[j])
      && var t := r.current[core];
         && t in r.runState && r.runState[t] == core && !RunsElsewhere(s, core, t)
         && t in s.priority && s.priority[t] < |s.ready| && t in s.ready[s.priority[t]]
         && forall p, u :: 0 <= p < |s.ready| && u in s.ready[p] && !RunsElsewhere(s, core, u) ==> p <= s.priority[t]
  {
    var q := Requeue(s, core);
    RequeueKeepsInv(s, core);
    var t, p := Selected(s, core);
    forall k, u | 0 <= k < |s.ready| && u in s.ready[k] && !RunsElsewhere(s, core, u) ensures k <= p {
      assert u in q.ready[k] && Eligible(q, core, u);
    }
    NotElsewhere(q, core, t);
  }

  lemma {:induction false} NotElsewhere(s: Cores, core: nat, t: nat)
    requires Inv(s) && core < |s.current| && Eligible(s, core, t)
    ensures !RunsElsewhere(s, core, t)
  {
    forall j | 0 <= j < |s.current| && j != core ensures s.current[j] != t {
      assert s.current[if j < core then j else core] != s.current[if j < core then core else j];
    }
  }

  /** Time slicing: a core keeps its task only when every other ready task of that priority runs on another core. */
  lemma {:induction false} ReselectedOnlyIfAlone(s: Cores, core: nat, u: nat)
    requires Inv(s) && core < |s.current|
    requires Select(s, core).current == s.current
    requires var t := s.current[core]; u != t && s.priority[t] < |s.ready| && u in s.ready[s.priority[t]]
    ensures RunsElsewhere(s, core, u)
  {
    var q := Requeue(s, core);
    var t, p := Selected(s, core);
    RequeueKeepsInv(s, core);
    assert t == s.current[core] && p == s.priority[t] && t in s.ready[p];
    WithoutMembers(s.ready[p], t);
    AllRefusedBefore(q, core, Without(s.ready[p], t), t);
    assert u in Without(s.ready[p], t) && !Eligible(s, core, u);
  }

  lemma {:induction false} AllRefusedBefore(s: Cores, core: nat, list: seq<nat>, t: nat)
    requires core < |s.current| && t !in list && FirstEligible(s, core, list + [t]) == Some(t)
    ensures forall u :: u in list ==> !Eligible(s, core, u)
  {
    if list != [] {
      assert (list + [t])[1..] == list[1..] + [t] && (list + [t])[0] == list[0] && list == [list[0]] + list[1..];
      AllRefusedBefore(s, core, list[1..], t);
    }
  }

  // ---- The kernel's code ----

  /** The search has come down to priority p: only the bound has changed since q, and so far it is on its way to
      the highest priority that has a ready task, or there already. */
  ghost predicate Searching(q: Cores, s: Cores, p: nat, decrement: bool) {
    && p <= q.top < |q.ready| && s == q.(top := s.top)
    && TopReady(q.ready, q.top) == (if decrement then TopReady(q.ready, p) else s.top)
    && (decrement ==> s.top == p)
  }

  class Scheduler {
    var pxReadyTasksLists: seq<seq<nat>>
    var pxCurrentTCBs: seq<nat>
    var xTaskRunState: map<nat, int>
    var xYieldPendings: set<nat>
    var uxTopReadyPriority: nat
    const uxPriority: map<nat, nat>
    ghost const idleTasks: set<nat>

    ghost function Abs(): Cores
      reads this
    {
      Cores(pxReadyTasksLists, pxCurrentTCBs, xTaskRunState, uxPriority, uxTopReadyPriority, idleTasks)
    }

    constructor (ready: seq<seq<nat>>, current: seq<nat>, runState: map<nat, int>, priority: map<nat, nat>, top: nat,
                 ghost idle: set<nat>)
      ensures Abs() == Cores(ready, current, runState, priority, top, idle) && xYieldPendings == {}
    {
      pxReadyTasksLists, pxCurrentTCBs, xTaskRunState, uxTopReadyPriority := ready, current, runState, top;
      uxPriority, idleTasks, xYieldPendings := priority, idle, {};
    }

    /** prvYieldCore, called on core portGET_CORE_ID: a core that has been asked already is not asked again. */
    method YieldCore(xCoreID: nat, portGET_CORE_ID: nat) returns (interrupted: bool)
      requires Inv(Abs()) && xCoreID < |pxCurrentTCBs|
      modifies this`xTaskRunState, this`xYieldPendings
      ensures xCoreID == portGET_CORE_ID ==> Abs() == old(Abs()) && xYieldPendings == old(xYieldPendings) + {xCoreID}
      ensures xCoreID != portGET_CORE_ID ==> Abs() == YieldOther(old(Abs()), xCoreID) && xYieldPendings == old(xYieldPendings)
      ensures interrupted <==>
        xCoreID != portGET_CORE_ID && old(xTaskRunState)[pxCurrentTCBs[xCoreID]] != taskTASK_SCHEDULED_TO_YIELD
    {
      interrupted := false;
      if xCoreID == portGET_CORE_ID {
        xYieldPendings := xYieldPendings + {xCoreID};
      } else {
        if xTaskRunState[pxCurrentTCBs[xCoreID]] != taskTASK_SCHEDULED_TO_YIELD {
          interrupted := true;
          xTaskRunState := xTaskRunState[pxCurrentTCBs[xCoreID] := taskTASK_SCHEDULED_TO_YIELD];
        } else {
          assert YieldOther(Abs(), xCoreID).runState == xTaskRunState;
        }
      }
    }

    /** The running task is put behind the others of its ready list. */
    method RequeueCurrent(xCoreID: nat)
      requires Inv(Abs()) && xCoreID < |pxCurrentTCBs|
      modifies this`pxReadyTasksLists
      ensures Abs() == Requeue(old(Abs()), xCoreID)
    {
      var pxTCB := pxCurrentTCBs[xCoreID];
      var p := uxPriority[pxTCB];
      if p < |pxReadyTasksLists| && pxTCB in pxReadyTasksLists[p] {
        pxReadyTasksLists := pxReadyTasksLists[p := Without(pxReadyTasksLists[p], pxTCB)];
        pxReadyTasksLists := pxReadyTasksLists[p := pxReadyTasksLists[p] + [pxTCB]];
      }
    }

    /** The walk through one ready list */
    method SearchReadyList(xCoreID: nat, pxReadyList: seq<nat>) returns (xTaskScheduled: bool)
      requires xCoreID < |pxCurrentTCBs| && Placement(Abs())
      requires forall t :: t in pxReadyList ==> t in xTaskRunState
      modifies this`xTaskRunState, this`pxCurrentTCBs
      ensures xTaskScheduled <==> FirstEligible(old(Abs()), xCoreID, pxReadyList).Some?
      ensures Abs() == (if xTaskScheduled then SwapIn(old(Abs()), xCoreID, FirstEligible(old(Abs()), xCoreID, pxReadyList).value)
                        else old(Abs()))
    {
      xTaskScheduled := false;
      ghost var found := FirstEligible(Abs(), xCoreID, pxReadyList);
      var i := 0;
      while i < |pxReadyList| && !xTaskScheduled
        invariant i <= |pxReadyList|
        invariant !xTaskScheduled ==> Abs() == old(Abs()) && found == FirstEligible(old(Abs()), xCoreID, pxReadyList[i..])
        invariant xTaskScheduled ==> found.Some? && Abs() == SwapIn(old(Abs()), xCoreID, found.value)
      {
        var pxTCB := pxReadyList[i];
        if xTaskRunState[pxTCB] == taskTASK_NOT_RUNNING {
          xTaskRunState := xTaskRunState[pxCurrentTCBs[xCoreID] := taskTASK_NOT_RUNNING];
          xTaskRunState := xTaskRunState[pxTCB := xCoreID];
          pxCurrentTCBs := pxCurrentTCBs[xCoreID := pxTCB];
          xTaskScheduled := true;
        } else if pxTCB == pxCurrentTCBs[xCoreID] {
          assert xTaskRunState[pxTCB] == xCoreID || xTaskRunState[pxTCB] == taskTASK_SCHEDULED_TO_YIELD;
          xTaskRunState := xTaskRunState[pxTCB := xCoreID];
          xTaskScheduled := true;
          assert Abs().current == SwapIn(old(Abs()), xCoreID, pxTCB).current;
          assert Abs().runState == SwapIn(old(Abs()), xCoreID, pxTCB).runState;
        }
        i := i + 1;
      }
    }

    /** One round of the search: one ready list, and uxTopReadyPriority lowered while the lists are empty */
    method SearchPriority(xCoreID: nat, uxCurrentPriority: nat, xDecrementTopPriority: bool, ghost q: Cores)
      returns (xTaskScheduled: bool, xDecrement: bool)
      requires Inv(q) && xCoreID < |q.current| && Searching(q, Abs(), uxCurrentPriority, xDecrementTopPriority)
      modifies this`xTaskRunState, this`pxCurrentTCBs, this`uxTopReadyPriority
      ensures var found := FirstEligible(q, xCoreID, q.ready[uxCurrentPriority]);
        && (xTaskScheduled <==> found.Some?)
        && (xTaskScheduled ==> Abs() == SwapIn(q.(top := TopReady(q.ready, q.top)), xCoreID, found.value))
      ensures !xTaskScheduled && uxCurrentPriority > 0 ==> Searching(q, Abs(), uxCurrentPriority - 1, xDecrement)
    {
      IdleListNotEmpty(q);
      xTaskScheduled, xDecrement := false, xDecrementTopPriority;
      if pxReadyTasksLists[uxCurrentPriority] != [] {
        xDecrement := false;
        SameEligible(q, uxTopReadyPriority, xCoreID, q.ready[uxCurrentPriority]);
        xTaskScheduled := SearchReadyList(xCoreID, pxReadyTasksLists[uxCurrentPriority]);
      } else {
        if xDecrement {
          uxTopReadyPriority := uxTopReadyPriority - 1;
        }
      }
    }

    /** The loop over the priorities */
    method SearchDown(xCoreID: nat, ghost q: Cores)
      requires Inv(q) && xCoreID < |q.current| && Abs() == q && Search(q, xCoreID, q.top).Some?
      modifies this`xTaskRunState, this`pxCurrentTCBs, this`uxTopReadyPriority
      ensures Abs() == SwapIn(q.(top := TopReady(q.ready, q.top)), xCoreID, Search(q, xCoreID, q.top).value)
    {
      var uxCurrentPriority: nat := uxTopReadyPriority;
      var xTaskScheduled, xDecrementTopPriority := false, true;
      while !xTaskScheduled
        invariant uxCurrentPriority <= q.top
        invariant !xTaskScheduled ==>
          && Searching(q, Abs(), uxCurrentPriority, xDecrementTopPriority)
          && Search(q, xCoreID, q.top) == Search(q, xCoreID, uxCurrentPriority)
        invariant xTaskScheduled ==>
          Abs() == SwapIn(q.(top := TopReady(q.ready, q.top)), xCoreID, Search(q, xCoreID, q.top).value)
        decreases if xTaskScheduled then 0 else uxCurrentPriority + 1
      {
        xTaskScheduled, xDecrementTopPriority := SearchPriority(xCoreID, uxCurrentPriority, xDecrementTopPriority, q);
        if uxCurrentPriority > tskIDLE_PRIORITY {
          uxCurrentPriority := uxCurrentPriority - 1;
        } else {
          break;
        }
      }
    }

    /** prvSelectHighestPriorityTask. It never ends without a task, nor takes uxTopReadyPriority below zero. */
    method SelectHighestPriorityTask(xCoreID: nat)
      requires Inv(Abs()) && xCoreID < |pxCurrentTCBs|
      modifies this`pxReadyTasksLists, this`xTaskRunState, this`pxCurrentTCBs, this`uxTopReadyPriority
      ensures Abs() == Select(old(Abs()), xCoreID)
    {
      RequeueKeepsInv(Abs(), xCoreID);
      RequeueCurrent(xCoreID);
      SearchSucceeds(Abs(), xCoreID);
      SearchDown(xCoreID, Abs());
    }
  }

  lemma {:induction false} SameEligible(s: Cores, top: nat, core: nat, list: seq<nat>)
    requires core < |s.current|
    ensures FirstEligible(s.(top := top), core, list) == FirstEligible(s, core, list)
  {
    if list != [] {
      SameEligible(s, top, core, list[1..]);
    }
  }

  // ---- Runs ----

  datatype Event =
    | AddTask(task: nat, priority: nat)
    | MakeReady(task: nat)
    | Unready(task: nat)
    | SetPriority(task: nat, priority: nat)
    | DeleteTask(task: nat)
    | YieldCore(core: nat)
    | SelectTask(core: nat)

  ghost predicate Enabled(s: Cores, e: Event) {
    match e
    case AddTask(t, p) => t !in s.runState && p < configMAX_PRIORITIES
    case MakeReady(t) => t in s.priority && s.priority[t] < |s.ready| && t !in s.ready[s.priority[t]]
    case Unready(t) => t in s.priority && s.priority[t] < |s.ready| && t in s.ready[s.priority[t]] && t !in s.idle
    case SetPriority(t, p) => t in s.priority && t !in s.idle && p < configMAX_PRIORITIES
    case DeleteTask(t) => t in s.runState && t !in s.idle && s.runState[t] == taskTASK_NOT_RUNNING
    case YieldCore(core) => core < |s.current|
    case SelectTask(core) => core < |s.current|
  }

  /** prvAddTaskToReadyList */
  function AddReady(s: Cores, t: nat, p: nat): Cores
    requires p < |s.ready|
  {
    s.(top := if s.top < p then p else s.top, ready := s.ready[p := s.ready[p] + [t]])
  }

  function Unlisted(s: Cores, t: nat): Cores
    requires t in s.priority
  {
    var p := s.priority[t];
    if p < |s.ready| && t in s.ready[p] then s.(ready := s.ready[p := Without(s.ready[p], t)]) else s
  }

  /** A change of the running priority, by vTaskPrioritySet or by inheritance: a ready task changes its list. */
  function Reprioritise(s: Cores, t: nat, p: nat): Cores
    requires t in s.priority && p < |s.ready|
  {
    var r := Unlisted(s, t).(priority := s.priority[t := p]);
    if s.priority[t] < |s.ready| && t in s.ready[s.priority[t]] then AddReady(r, t, p) else r
  }

  /** vTaskDelete of a task that runs nowhere, or the clean-up by an idle task of one that no longer does */
  function Delete(s: Cores, t: nat): Cores
    requires t in s.priority
  {
    Unlisted(s, t).(priority := s.priority - {t}, runState := s.runState - {t})
  }

  /** The request prvYieldCore makes of another core */
  function YieldOther(s: Cores, core: nat): Cores
    requires core < |s.current|
  {
    s.(runState := s.runState[s.current[core] := taskTASK_SCHEDULED_TO_YIELD])
  }

  function Step(s: Cores, e: Event): Cores
    requires Inv(s) && Enabled(s, e)
  {
    match e
    case AddTask(t, p) =>
      AddReady(s.(runState := s.runState[t := taskTASK_NOT_RUNNING], priority := s.priority[t := p]), t, p)
    case MakeReady(t) => AddReady(s, t, s.priority[t])
    case Unready(t) => s.(ready := s.ready[s.priority[t] := Without(s.ready[s.priority[t]], t)])
    case SetPriority(t, p) => Reprioritise(s, t, p)
    case DeleteTask(t) => Delete(s, t)
    case YieldCore(core) => YieldOther(s, core)
    case SelectTask(core) => Select(s, core)
  }

  lemma {:induction false} UnlistedNowhere(s: Cores, t: nat)
    requires Inv(s) && t in s.priority
    ensures var r := Unlisted(s, t);
      && |r.ready| == |s.ready| && r == s.(ready := r.ready)
      && forall p :: 0 <= p < |s.ready| ==> forall u :: u in r.ready[p] <==> u in s.ready[p] && u != t
  {
    var p := s.priority[t];
    if p < |s.ready| {
      WithoutMembers(s.ready[p], t);
    }
  }

  lemma {:induction false} ReprioritiseKeepsInv(s: Cores, t: nat, p: nat)
    requires Inv(s) && t in s.priority && t !in s.idle && p < |s.ready|
    ensures Inv(Reprioritise(s, t, p))
  {
    UnlistedNowhere(s, t);
  }

  /** The task to go runs on no core. */
  lemma {:induction false} DeleteKeepsInv(s: Cores, t: nat)
    requires Inv(s) && t in s.runState && t !in s.idle && s.runState[t] == taskTASK_NOT_RUNNING
    ensures Inv(Delete(s, t))
  {
    UnlistedNowhere(s, t);
    assert forall i :: 0 <= i < |s.current| ==> s.current[i] != t;
  }

  lemma {:induction false} AddKeepsInv(s: Cores, t: nat, p: nat)
    requires Inv(s) && Enabled(s, AddTask(t, p))
    ensures Inv(Step(s, AddTask(t, p)))
  {
    assert forall i :: 0 <= i < |s.current| ==> s.current[i] != t;
  }

  lemma {:induction false} StepKeepsInv(s: Cores, e: Event)
    requires Inv(s) && Enabled(s, e)
    ensures Inv(Step(s, e))
  {
    match e
    case AddTask(t, p) => AddKeepsInv(s, t, p);
    case MakeReady(t) =>
    case Unready(t) => UnlistedNowhere(s, t);
    case SetPriority(t, p) => ReprioritiseKeepsInv(s, t, p);
    case DeleteTask(t) => DeleteKeepsInv(s, t);
    case YieldCore(core) =>
      assert s.current[core] in s.current;
    case SelectTask(core) => SelectKeepsInv(s, core);
  }

  /** A task is ready in the list of its priority from when it is added or made ready until it is taken off or deleted, and
      changes lists with its priority; nothing else, a selection least of all, puts a task into a list or takes it out. */
  lemma {:induction false} ReadyExactly(s: Cores, e: Event, u: nat, p: nat)
    requires Inv(s) && Enabled(s, e) && p < |s.ready|
    ensures var r := Step(s, e);
      && |r.ready| == |s.ready|
      && (u in r.ready[p] <==>
            match e
            case AddTask(t, q) => u in s.ready[p] || (u == t && p == q)
            case MakeReady(t) => u in s.ready[p] || (u == t && p == s.priority[t])
            case Unready(t) => u in s.ready[p] && u != t
            case SetPriority(t, q) =>
              if u == t then p == q && s.priority[u] < |s.ready| && u in s.ready[s.priority[u]] else u in s.ready[p]
            case DeleteTask(t) => u in s.ready[p] && u != t
            case _ => u in s.ready[p])
  {
    match e
    case Unready(t) => UnlistedNowhere(s, t);
    case SetPriority(t, _) => UnlistedNowhere(s, t);
    case DeleteTask(t) => UnlistedNowhere(s, t);
    case SelectTask(core) => RequeueKeepsInv(s, core);
    case _ =>
  }

  /** A core asked to yield has its task marked, and no other is. A selection ends the run of the core's task, unless it is
      chosen again, and starts that of the task chosen; it clears no other core's mark. Nothing else starts or stops a task. */
  lemma {:induction false} RunStateExactly(s: Cores, e: Event, u: nat)
    requires Inv(s) && Enabled(s, e) && u in s.runState && e != DeleteTask(u)
    ensures var r := Step(s, e);
      && u in r.runState && |r.current| == |s.current|
      && match e
         case YieldCore(core) =>
           r.runState[u] == (if u == s.current[core] then taskTASK_SCHEDULED_TO_YIELD else s.runState[u]) && r.current == s.current
         case SelectTask(core) =>
           && r.runState[u] == (if u == r.current[core] then core
                                else if u == s.current[core] then taskTASK_NOT_RUNNING else s.runState[u])
           && (forall j :: 0 <= j < |s.current| && j != core ==> r.current[j] == s.current[j])
         case _ => r.runState[u] == s.runState[u] && r.current == s.current
  {
    match e
    case SelectTask(core) =>
      var t, p := Selected(s, core);
      SelectPicksHighest(s, core);
    case DeleteTask(t) => UnlistedNowhere(s, t);
    case SetPriority(t, _) => UnlistedNowhere(s, t);
    case _ =>
  }

  ghost predicate IsRun(s: Cores, es: seq<Event>)
    requires Inv(s)
    decreases |es|
  {
    es != [] ==> Enabled(s, es[0]) && (StepKeepsInv(s, es[0]); IsRun(Step(s, es[0]), es[1..]))
  }

  ghost function Run(s: Cores, es: seq<Event>): Cores
    requires Inv(s) && IsRun(s, es)
    decreases |es|
  {
    if es == [] then s else (StepKeepsInv(s, es[0]); Run(Step(s, es[0]), es[1..]))
  }

  lemma {:induction false} RunKeepsInv(s: Cores, es: seq<Event>)
    requires Inv(s) && IsRun(s, es)
    ensures Inv(Run(s, es))
    decreases |es|
  {
    if es != [] {
      StepKeepsInv(s, es[0]);
      RunKeepsInv(Step(s, es[0]), es[1..]);
    }
  }

  function Ids(n: nat): seq<nat> {
    if n == 0 then [] else Ids(n - 1) + [n - 1]
  }

  lemma {:induction false} IdsAre(n: nat)
    ensures |Ids(n)| == n && forall i :: 0 <= i < n ==> Ids(n)[i] == i
  {
    if n > 0 {
      IdsAre(n - 1);
    }
  }

  lemma {:induction false} IdsUnique(n: nat)
    ensures NoDuplicates(Ids(n)) && forall t :: t in Ids(n) ==> t < n
  {
    if n > 0 {
      IdsUnique(n - 1);
      AppendKeepsUnique(Ids(n - 1), n - 1);
    }
  }

  lemma {:induction false} IdsCount(n: nat)
    ensures |Members(Ids(n))| == n
  {
    IdsAre(n);
    IdsUnique(n);
    MembersCount(Ids(n));
  }

  lemma {:induction false} MembersCount(s: seq<nat>)
    requires NoDuplicates(s)
    ensures |Members(s)| == |s|
  {
    if s != [] {
      MembersCount(s[1..]);
    }
  }

  /** The state prvCreateIdleTasks leaves: core i runs idle task i, and the idle tasks alone are ready. */
  ghost function Start(cores: nat): Cores {
    Cores([Ids(cores)] + seq(configMAX_PRIORITIES - 1, _ => []), Ids(cores), map t | t in Ids(cores) :: t,
          map t | t in Ids(cores) :: tskIDLE_PRIORITY, tskIDLE_PRIORITY, Members(Ids(cores)))
  }

  lemma {:induction false} StartInv(cores: nat)
    ensures Inv(Start(cores))
  {
    StartShape(cores);
    IdsAre(cores);
  }

  lemma {:induction false} StartShape(cores: nat)
    ensures Shape(Start(cores))
  {
    IdsAre(cores);
    IdsCount(cores);
    var s := Start(cores);
    StartLists(cores);
    assert s.priority.Keys == Members(Ids(cores)) && s.runState.Keys == Members(Ids(cores));
  }

  lemma {:induction false} StartLists(cores: nat)
    ensures var s := Start(cores);
      && |s.ready| == configMAX_PRIORITIES && s.ready[tskIDLE_PRIORITY] == Ids(cores)
      && forall p :: 0 < p < |s.ready| ==> s.ready[p] == []
  {
  }

  /** Over every run no task is current on two cores, and the run states say which tasks are. */
  lemma {:induction false} NeverOnTwoCores(cores: nat, es: seq<Event>)
    requires (StartInv(cores); IsRun(Start(cores), es))
    ensures Inv(Start(cores))
    ensures var r := Run(Start(cores), es);
      && (forall i, j :: 0 <= i < j < |r.current| ==> r.current[i] != r.current[j])
      && (forall t :: t in r.runState ==> (r.runState[t] == taskTASK_NOT_RUNNING <==> t !in r.current))
      && (forall t :: t in r.runState && 0 <= r.runState[t] ==> r.runState[t] < |r.current| && r.current[r.runState[t]] == t)
  {
    StartInv(cores);
    RunKeepsInv(Start(cores), es);
  }
}
