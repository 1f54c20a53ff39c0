/** Runs of PriorityInheritance from the empty system, in an order in which a single core can take the steps: four that put
    a holder below a waiter, each by another kind of step, and one that leaves a holder above all its waiters. */
module InheritanceRuns {
  import opened KernelConfig
  import opened PriorityInheritance
  import opened TaskLists

  lemma {:induction false} RunNext(s: System, es: seq<Event>, e: Event)
    requires Books(s) && IsRun(s, es) && Books(Run(s, es)) && Enabled(Run(s, es), e)
    ensures IsRun(s, es + [e]) && Run(s, es + [e]) == Step(Run(s, es), e) && Books(Step(Run(s, es), e))
    decreases |es|
  {
    StepKeepsBooks(Run(s, es), e);
    if es == [] {
      assert ([] + [e])[1..] == [];
    } else {
      StepKeepsBooks(s, es[0]);
      assert (es + [e])[0] == es[0] && (es + [e])[1..] == es[1..] + [e];
      RunNext(Step(s, es[0]), es[1..], e);
    }
  }

  /** es takes the empty system to s. */
  ghost predicate Reaches(es: seq<Event>, s: System) {
    IsRun(START, es) && Run(START, es) == s
  }

  lemma {:induction false} ReachNext(es: seq<Event>, s: System, e: Event)
    requires Reaches(es, s) && Books(s) && Enabled(s, e)
    ensures Reaches(es + [e], Step(s, e)) && Books(Step(s, e))
  {
    RunNext(START, es, e);
  }

  /** A task takes a mutex that is free. */
  lemma {:induction false} Takes(es: seq<Event>, s: System, t: nat, m: nat) returns (fs: seq<Event>)
    requires Reaches(es, s) && t in s.tcbs && s.tcbs[t].pc.Outside? && m in s.mutexes && s.mutexes[m].count > 0
    ensures Reaches(fs, Take(s, t, m))
  {
    RunKeepsBooks(START, es);
    ReachNext(es, s, Call(t, m));
    var s1 := Step(s, Call(t, m));
    ReachNext(es + [Call(t, m)], s1, Try(t, true));
    fs := es + [Call(t, m)] + [Try(t, true)];
    assert Take(s, t, m) == Step(s1, Try(t, true));
  }

  lemma {:induction false} InsertSame(a: map<nat, Tcb>, b: map<nat, Tcb>, s: seq<nat>, t: nat)
    requires forall u :: u in s || u == t ==> u in a && u in b && a[u].eventItemValue == b[u].eventItemValue
    ensures Insert(a, s, t) == Insert(b, s, t)
  {
    if s != [] {
      InsertSame(a, b, s[1..], t);
    }
  }

  lemma {:induction false} BlockFromAnywhere(s: System, t: nat, m: nat, pc: Pc)
    requires t in s.tcbs && Known(s, m) && s.mutexes[m].holder.Some? && s.mutexes[m].holder.value != t
    ensures Known(Move(s, t, pc), m) && Block(Move(s, t, pc), t, m) == Block(s, t, m)
  {
    var r, h := Move(s, t, pc), s.mutexes[m].holder.value;
    var a, b := s.tcbs[h := Inherit(s.tcbs[h], s.tcbs[t].priority)], r.tcbs[h := Inherit(s.tcbs[h], s.tcbs[t].priority)];
    InsertSame(a, b, s.mutexes[m].waiters, t);
    var occurred := s.tcbs[h].base < s.tcbs[t].priority;
    assert a[t := a[t].(pc := Waiting(m, occurred))] == b[t := b[t].(pc := Waiting(m, occurred))];
  }

  lemma {:induction false} FindsTaken(es: seq<Event>, s: System, t: nat, m: nat) returns (fs: seq<Event>)
    requires Reaches(es, s) && t in s.tcbs && s.tcbs[t].pc.Outside? && m in s.mutexes && s.mutexes[m].count == 0
    ensures Reaches(fs, Move(s, t, Refused(m, false)))
  {
    RunKeepsBooks(START, es);
    ReachNext(es, s, Call(t, m));
    var s1 := Step(s, Call(t, m));
    ReachNext(es + [Call(t, m)], s1, Try(t, true));
    fs := es + [Call(t, m)] + [Try(t, true)];
    assert Move(s, t, Refused(m, false)) == Step(s1, Try(t, true));
  }

  /** A task goes to wait for a mutex that another holds. */
  lemma {:induction false} Waits(es: seq<Event>, s: System, t: nat, m: nat) returns (fs: seq<Event>)
    requires Reaches(es, s) && t in s.tcbs && s.tcbs[t].pc.Outside? && m in s.mutexes
    requires s.mutexes[m].holder.Some? && s.mutexes[m].holder.value != t
    ensures Known(s, m) && Reaches(fs, Block(s, t, m))
  {
    RunKeepsBooks(START, es);
    KnownWaiters(s, m);
    assert MutexBook(s.tcbs, m, s.mutexes[m]);
    var gs := FindsTaken(es, s, t, m);
    var r := Move(s, t, Refused(m, false));
    ReachNext(gs, r, Suspended(t, false));
    BlockFromAnywhere(s, t, m, Refused(m, false));
    fs := gs + [Suspended(t, false)];
  }

  lemma {:induction false} NewMutex(es: seq<Event>, s: System, m: nat) returns (fs: seq<Event>, r: System)
    requires Reaches(es, s) && m !in s.mutexes
    ensures Reaches(fs, r) && r == s.(mutexes := s.mutexes[m := Mutex(1, None, [], 0)])
  {
    RunKeepsBooks(START, es);
    ReachNext(es, s, CreateMutex(m));
    fs, r := es + [CreateMutex(m)], Step(s, CreateMutex(m));
  }

  lemma {:induction false} NewTask(es: seq<Event>, s: System, t: nat, p: nat) returns (fs: seq<Event>, r: System)
    requires Reaches(es, s) && t !in s.tcbs && p < configMAX_PRIORITIES
    ensures Reaches(fs, r) && r == s.(tcbs := s.tcbs[t := Tcb(p, p, 0, configMAX_PRIORITIES - p, Outside)])
  {
    RunKeepsBooks(START, es);
    ReachNext(es, s, CreateTask(t, p));
    fs, r := es + [CreateTask(t, p)], Step(s, CreateTask(t, p));
  }

  lemma {:induction false} Delays(es: seq<Event>, s: System, t: nat) returns (fs: seq<Event>, r: System)
    requires Reaches(es, s) && t in s.tcbs && s.tcbs[t].pc.Outside?
    ensures Reaches(fs, r) && r == Move(s, t, Delayed)
  {
    RunKeepsBooks(START, es);
    ReachNext(es, s, Delay(t));
    fs, r := es + [Delay(t)], Step(s, Delay(t));
  }

  function WithHolder(s: System, t: nat, p: nat, m: nat): System {
    System(s.tcbs[t := Tcb(p, p, 1, configMAX_PRIORITIES - p, Outside)], s.mutexes[m := Mutex(0, Some(t), [], 0)])
  }

  lemma {:induction false} TakeNew(s: System, t: nat, p: nat, m: nat)
    ensures Take(System(s.tcbs[t := Tcb(p, p, 0, configMAX_PRIORITIES - p, Outside)], s.mutexes[m := Mutex(1, None, [], 0)]), t, m)
         == WithHolder(s, t, p, m)
  {
    var a, b := Tcb(p, p, 0, configMAX_PRIORITIES - p, Outside), Tcb(p, p, 1, configMAX_PRIORITIES - p, Outside);
    assert s.tcbs[t := a][t := b] == s.tcbs[t := b];
    var x, y := Mutex(1, None, [], 0), Mutex(0, Some(t), [], 0);
    assert s.mutexes[m := x][m := y] == s.mutexes[m := y];
  }

  /** A new task takes a new mutex. */
  lemma {:induction false} NewHolder(es: seq<Event>, s: System, t: nat, p: nat, m: nat) returns (fs: seq<Event>)
    requires Reaches(es, s) && m !in s.mutexes && t !in s.tcbs && p < configMAX_PRIORITIES
    ensures Reaches(fs, WithHolder(s, t, p, m))
  {
    var s1, s2;
    fs, s1 := NewMutex(es, s, m);
    fs, s2 := NewTask(fs, s1, t, p);
    fs := Takes(fs, s2, t, m);
    TakeNew(s, t, p, m);
  }

  lemma {:induction false} BlockEffect(s: System, t: nat, m: nat)
    requires t in s.tcbs && Known(s, m) && s.mutexes[m].holder.Some? && s.mutexes[m].holder.value != t
    ensures var r, h := Block(s, t, m), s.mutexes[m].holder.value;
      && r.tcbs[t].priority == s.tcbs[t].priority && t in r.mutexes[m].waiters && r.mutexes[m].holder == Some(h)
      && r.tcbs.Keys == s.tcbs.Keys && r.mutexes.Keys == s.mutexes.Keys && r.tcbs[h] == Inherit(s.tcbs[h], s.tcbs[t].priority)
      && (forall u :: u in s.tcbs && u != t && u != h ==> r.tcbs[u] == s.tcbs[u])
      && (forall k :: k in s.mutexes && k != m ==> r.mutexes[k] == s.mutexes[k])
      && (s.mutexes[m].waiters == [] ==> r.mutexes[m].waiters == [t])
  {
    var h := s.mutexes[m].holder.value;
    InsertMembers(s.tcbs[h := Inherit(s.tcbs[h], s.tcbs[t].priority)], s.mutexes[m].waiters, t);
  }

  const PAIR := WithHolder(WithHolder(START, 1, 1, 0), 2, 2, 1)

  lemma {:induction false} PairHolds() returns (es: seq<Event>)
    ensures Reaches(es, PAIR)
  {
    es := NewHolder([], START, 1, 1, 0);
    es := NewHolder(es, WithHolder(START, 1, 1, 0), 2, 2, 1);
  }

  lemma {:induction false} NestedPair() returns (es: seq<Event>, s: System)
    ensures Reaches(es, s) && s.tcbs.Keys == {1, 2} && s.mutexes.Keys == {0, 1}
    ensures s.tcbs[1].priority == 2 && s.tcbs[2].priority == 2
    ensures s.mutexes[0].holder == Some(1) && s.mutexes[0].waiters == [2] && s.mutexes[1].holder == Some(2)
  {
    es := PairHolds();
    es := Waits(es, PAIR, 2, 0);
    s := Block(PAIR, 2, 0);
    BlockEffect(PAIR, 2, 0);
  }

  /** Nested blocking: task 2 holds a mutex and waits for one of task 1's; then task 3 waits for task 2's. Task 2
      inherits priority 3, and task 1, for which it waits, does not. */
  lemma {:induction false} NestedBlockingBreaksBound() returns (es: seq<Event>)
    ensures IsRun(START, es) && Books(Run(START, es)) && !HoldersBound(Run(START, es))
  {
    var s, s1;
    es, s := NestedPair();
    es, s1 := NewTask(es, s, 3, 3);
    es := Waits(es, s1, 3, 1);
    BlockEffect(s1, 3, 1);
    RunKeepsBooks(START, es);
    Unbound(Block(s1, 3, 1), 0, 2);
  }

  /** Task 5 holds a mutex and delays; task 3 goes to wait for the mutex; task 5 goes on and sets its own priority to 1. */
  lemma {:induction false} PrioritySetBreaksBound() returns (es: seq<Event>)
    ensures IsRun(START, es) && Books(Run(START, es)) && !HoldersBound(Run(START, es))
  {
    var s0, s1;
    es, s0 := HolderDelays();
    es, s1 := NewTask(es, s0, 3, 3);
    es := Waits(es, s1, 3, 0);
    BlockEffect(s1, 3, 0);
    es := WakesAndSets(es, Block(s1, 3, 0));
  }

  lemma {:induction false} HolderDelays() returns (es: seq<Event>, s: System)
    ensures Reaches(es, s) && s == Move(WithHolder(START, 5, 5, 0), 5, Delayed)
  {
    es := NewHolder([], START, 5, 5, 0);
    es, s := Delays(es, WithHolder(START, 5, 5, 0), 5);
  }

  lemma {:induction false} WakesAndSets(es: seq<Event>, s: System) returns (fs: seq<Event>)
    requires Reaches(es, s) && s.tcbs.Keys == {3, 5} && 0 in s.mutexes && s.mutexes[0].holder == Some(5) && 3 in s.mutexes[0].waiters
    requires s.tcbs[5] == Tcb(5, 5, 1, configMAX_PRIORITIES - 5, Delayed) && s.tcbs[3].priority == 3
    ensures IsRun(START, fs) && Books(Run(START, fs)) && !HoldersBound(Run(START, fs))
  {
    RunKeepsBooks(START, es);
    ReachNext(es, s, Wake(5));
    var r := Step(s, Wake(5));
    ReachNext(es + [Wake(5)], r, PrioritySet(5, 1));
    fs := es + [Wake(5)] + [PrioritySet(5, 1)];
    Unbound(Step(r, PrioritySet(5, 1)), 0, 3);
  }

  // ---- Two runs with an unsorted wait list ----

  function Task(base: nat, priority: nat, held: nat, pc: Pc): Tcb {
    Tcb(base, priority, held, configMAX_PRIORITIES - priority, pc)
  }

  /** Blocking where the caller goes to the head of the wait list */
  function BlockFirst(s: System, t: nat, m: nat): System
    requires t in s.tcbs && m in s.mutexes && s.mutexes[m].holder.Some? && s.mutexes[m].holder.value in s.tcbs
  {
    var y, x := s.mutexes[m], s.tcbs[t];
    var h := s.tcbs[y.holder.value];
    System(s.tcbs[y.holder.value := Inherit(h, x.priority)][t := x.(pc := Waiting(m, h.base < x.priority))],
           s.mutexes[m := y.(waiters := [t] + y.waiters)])
  }

  lemma {:induction false} WaitsFirst(es: seq<Event>, s: System, t: nat, m: nat) returns (fs: seq<Event>)
    requires Reaches(es, s) && t in s.tcbs && s.tcbs[t].pc.Outside? && m in s.mutexes
    requires s.mutexes[m].holder.Some? && s.mutexes[m].holder.value != t && s.mutexes[m].holder.value in s.tcbs
    requires var w := s.mutexes[m].waiters;
      w == [] || (w[0] in s.tcbs && w[0] != s.mutexes[m].holder.value && s.tcbs[t].eventItemValue < s.tcbs[w[0]].eventItemValue)
    ensures Reaches(fs, BlockFirst(s, t, m))
  {
    fs := Waits(es, s, t, m);
  }

  lemma {:induction false} NewWaitsFirst(es: seq<Event>, s: System, t: nat, p: nat, m: nat) returns (fs: seq<Event>, r: System)
    requires Reaches(es, s) && t !in s.tcbs && p < configMAX_PRIORITIES && m in s.mutexes
    requires s.mutexes[m].holder.Some? && s.mutexes[m].holder.value in s.tcbs
    requires var w := s.mutexes[m].waiters;
      w == [] || (w[0] in s.tcbs && w[0] != s.mutexes[m].holder.value && configMAX_PRIORITIES - p < s.tcbs[w[0]].eventItemValue)
    ensures Reaches(fs, r)
    ensures var h := s.mutexes[m].holder.value;
      r.tcbs == s.tcbs[h := Inherit(s.tcbs[h], p)][t := Task(p, p, 0, Waiting(m, s.tcbs[h].base < p))]
    ensures r.mutexes == s.mutexes[m := s.mutexes[m].(waiters := [t] + s.mutexes[m].waiters)]
  {
    var s1;
    fs, s1 := NewTask(es, s, t, p);
    fs := WaitsFirst(fs, s1, t, m);
    r := BlockFirst(s1, t, m);
  }

  /** Task 1 holds mutexes 0 and 1, task 3 holds mutex 2, and these tasks wait for them. */
  predicate Setting(s: System, one: nat, three: nat, pc: Pc, w0: seq<nat>, w1: seq<nat>, w2: seq<nat>) {
    && 1 in s.tcbs && s.tcbs[1] == Task(1, one, 2, Outside)
    && 3 in s.tcbs && s.tcbs[3] == Task(2, three, 1, pc)
    && s.mutexes.Keys == {0, 1, 2} && s.mutexes[0] == Mutex(0, Some(1), w0, 0)
    && s.mutexes[1] == Mutex(0, Some(1), w1, 0) && s.mutexes[2] == Mutex(0, Some(3), w2, 0)
  }

  predicate Sleeps(s: System, t: nat, p: nat, m: nat) {
    t in s.tcbs && s.tcbs[t] == Task(p, p, 0, Waiting(m, true))
  }

  lemma {:induction false} Holding() returns (es: seq<Event>, s: System)
    ensures Reaches(es, s) && s.tcbs.Keys == {1, 3} && Setting(s, 1, 2, Outside, [], [], [])
  {
    var s0, s1 := WithHolder(START, 1, 1, 0), START;
    es := NewHolder([], START, 1, 1, 0);
    es, s1 := NewMutex(es, s0, 1);
    es := Takes(es, s1, 1, 1);
    var s2 := Take(s1, 1, 1);
    es := NewHolder(es, s2, 3, 2, 2);
    s := WithHolder(s2, 3, 2, 2);
  }

  /** Tasks 3, 2 and 6 go to wait for mutex 0, each ahead of the others. */
  lemma {:induction false} ThreeQueues() returns (es: seq<Event>, s: System)
    ensures Reaches(es, s) && s.tcbs.Keys == {1, 3} && Setting(s, 2, 2, Waiting(0, true), [3], [], [])
  {
    var s0;
    es, s0 := Holding();
    es := WaitsFirst(es, s0, 3, 0);
    s := BlockFirst(s0, 3, 0);
  }

  lemma {:induction false} TwoQueues() returns (es: seq<Event>, s: System)
    ensures Reaches(es, s) && s.tcbs.Keys == {1, 2, 3} && Setting(s, 3, 2, Waiting(0, true), [2, 3], [], [])
    ensures Sleeps(s, 2, 3, 0)
  {
    var s0;
    es, s0 := ThreeQueues();
    es, s := NewWaitsFirst(es, s0, 2, 3, 0);
  }

  lemma {:induction false} SixQueues() returns (es: seq<Event>, s: System)
    ensures Reaches(es, s) && s.tcbs.Keys == {1, 2, 3, 6} && Setting(s, 4, 2, Waiting(0, true), [6, 2, 3], [], [])
    ensures Sleeps(s, 2, 3, 0) && Sleeps(s, 6, 4, 0)
  {
    var s0;
    es, s0 := TwoQueues();
    es, s := NewWaitsFirst(es, s0, 6, 4, 0);
  }

  /** Task 5 goes to wait for mutex 1, and task 4 for mutex 2. The holder of mutex 2, task 3, inherits while it waits
      for mutex 0 behind tasks that now have lower priorities. */
  lemma {:induction false} FiveQueues() returns (es: seq<Event>, s: System)
    ensures Reaches(es, s) && s.tcbs.Keys == {1, 2, 3, 5, 6} && Setting(s, 11, 2, Waiting(0, true), [6, 2, 3], [5], [])
    ensures Sleeps(s, 2, 3, 0) && Sleeps(s, 6, 4, 0) && Sleeps(s, 5, 11, 1)
  {
    var s0;
    es, s0 := SixQueues();
    es, s := NewWaitsFirst(es, s0, 5, 11, 1);
  }

  lemma {:induction false} Unsorted() returns (es: seq<Event>, s: System)
    ensures Reaches(es, s) && s.tcbs.Keys == {1, 2, 3, 4, 5, 6}
    ensures Setting(s, 11, 11, Waiting(0, true), [6, 2, 3], [5], [4])
    ensures Sleeps(s, 2, 3, 0) && Sleeps(s, 6, 4, 0) && Sleeps(s, 5, 11, 1) && Sleeps(s, 4, 11, 2)
  {
    var s0;
    es, s0 := FiveQueues();
    es, s := NewWaitsFirst(es, s0, 4, 11, 2);
  }

  /** Task 1 gives mutex 1 to task 5, which delays, and keeps the priority it inherited from it: it still holds mutex 0. */
  lemma {:induction false} GivesOne() returns (es: seq<Event>, s: System)
    ensures Reaches(es, s) && s.tcbs.Keys == {1, 2, 3, 4, 5, 6} && s.mutexes.Keys == {0, 1, 2}
    ensures s.tcbs[1] == Task(1, 11, 1, Outside) && s.tcbs[3] == Task(2, 11, 1, Waiting(0, true))
    ensures Sleeps(s, 2, 3, 0) && Sleeps(s, 6, 4, 0) && Sleeps(s, 4, 11, 2)
    ensures s.mutexes[0] == Mutex(0, Some(1), [6, 2, 3], 0) && s.mutexes[2] == Mutex(0, Some(3), [4], 0)
    ensures s.mutexes[1].holder == Some(5) && s.mutexes[1].waiters == []
    ensures s.tcbs[5] == Task(11, 11, 1, Delayed)
  {
    var s0;
    es, s0 := Unsorted();
    es, s := GivesToFive(es, s0);
  }

  /** A mutex is given back, and the head of its wait list woken. */
  lemma {:induction false} GivesTo(es: seq<Event>, s: System, t: nat, m: nat, w: nat, rest: seq<nat>) returns (fs: seq<Event>, r: System)
    requires Reaches(es, s) && t in s.tcbs && s.tcbs[t].pc.Outside? && s.tcbs[t].held > 0 && w in s.tcbs && w != t
    requires m in s.mutexes && s.mutexes[m] == Mutex(0, Some(t), [w] + rest, s.mutexes[m].woken)
    ensures Reaches(fs, r)
    ensures r.tcbs == s.tcbs[t := Disinherit(s.tcbs[t])][w := s.tcbs[w].(pc := Awake(s.tcbs[w].pc))]
    ensures r.mutexes == s.mutexes[m := Mutex(1, None, rest, w)]
  {
    RunKeepsBooks(START, es);
    ReachNext(es, s, Give(t, m));
    assert ([w] + rest)[1..] == rest;
    fs, r := es + [Give(t, m)], Step(s, Give(t, m));
  }

  lemma {:induction false} GivesToFive(es: seq<Event>, s: System) returns (fs: seq<Event>, r: System)
    requires Reaches(es, s) && Sleeps(s, 5, 11, 1) && Setting(s, 11, 11, Waiting(0, true), [6, 2, 3], [5], [4])
    ensures Reaches(fs, r)
    ensures r.tcbs == s.tcbs[1 := Task(1, 11, 1, Outside)][5 := Task(11, 11, 1, Delayed)]
    ensures r.mutexes == s.mutexes[1 := Mutex(0, Some(5), [], 5)]
  {
    assert [5] + [] == [5];
    var s1;
    fs, s1 := GivesTo(es, s, 1, 1, 5, []);
    fs, r := FiveTakes(fs, s1);
  }

  lemma {:induction false} FiveTakes(es: seq<Event>, s: System) returns (fs: seq<Event>, r: System)
    requires Reaches(es, s) && 5 in s.tcbs && s.tcbs[5] == Task(11, 11, 0, Trying(1, true))
    requires 1 in s.mutexes && s.mutexes[1] == Mutex(1, None, [], 5)
    ensures Reaches(fs, r)
    ensures r.tcbs == s.tcbs[5 := Task(11, 11, 1, Delayed)] && r.mutexes == s.mutexes[1 := Mutex(0, Some(5), [], 5)]
  {
    RunKeepsBooks(START, es);
    ReachNext(es, s, Try(5, true));
    var s1 := Step(s, Try(5, true));
    ReachNext(es + [Try(5, true)], s1, Delay(5));
    fs, r := es + [Try(5, true)] + [Delay(5)], Step(s1, Delay(5));
  }

  lemma {:induction false} GivesZero(es: seq<Event>, s: System) returns (fs: seq<Event>, r: System)
    requires Reaches(es, s) && 1 in s.tcbs && s.tcbs[1] == Task(1, 11, 1, Outside) && Sleeps(s, 6, 4, 0)
    requires 0 in s.mutexes && s.mutexes[0] == Mutex(0, Some(1), [6, 2, 3], 0)
    ensures Reaches(fs, r)
    ensures r.tcbs == s.tcbs[1 := Task(1, 1, 0, Outside)][6 := Task(4, 4, 0, Trying(0, true))]
    ensures r.mutexes == s.mutexes[0 := Mutex(1, None, [2, 3], 6)]
  {
    assert [6] + [2, 3] == [6, 2, 3];
    fs, r := GivesTo(es, s, 1, 0, 6, [2, 3]);
  }

  /** Apart from the two lowest mutexes, nobody waits but for task 3; and mutex 0 is free or task 1 runs at 11. */
  predicate Covered(tcbs: map<nat, Tcb>, mutexes: map<nat, Mutex>) {
    && mutexes.Keys == {0, 1, 2} && 3 in tcbs && tcbs[3].priority == 11
    && (forall t :: t in tcbs ==> tcbs[t].priority <= 11)
    && (mutexes[0].holder.Some? ==> mutexes[0].holder == Some(1) && 1 in tcbs && tcbs[1].priority == 11)
    && mutexes[1].waiters == [] && mutexes[2].holder == Some(3)
  }

  lemma {:induction false} CoveredBound(tcbs: map<nat, Tcb>, mutexes: map<nat, Mutex>, m: nat, u: nat)
    requires Covered(tcbs, mutexes) && m in mutexes && mutexes[m].holder.Some? && u in mutexes[m].waiters && u in tcbs
    ensures mutexes[m].holder.value in tcbs && tcbs[u].priority <= tcbs[mutexes[m].holder.value].priority
  {
  }

  lemma {:induction false} BoundThere(s: System)
    requires Books(s) && Covered(s.tcbs, s.mutexes)
    ensures HoldersBound(s)
  {
    forall m, u | m in s.mutexes && s.mutexes[m].holder.Some? && u in s.mutexes[m].waiters
      ensures MutexBook(s.tcbs, m, s.mutexes[m]) && s.tcbs[u].priority <= s.tcbs[s.mutexes[m].holder.value].priority
    {
      assert MutexBook(s.tcbs, m, s.mutexes[m]);
      CoveredBound(s.tcbs, s.mutexes, m, u);
    }
  }

  lemma {:induction false} SixIsWoken() returns (es: seq<Event>, r: System)
    ensures Reaches(es, r) && 6 in r.tcbs && r.tcbs[6] == Task(4, 4, 0, Trying(0, true)) && Highest(r, 6)
    ensures Covered(r.tcbs, r.mutexes) && r.mutexes[0] == Mutex(1, None, [2, 3], 6)
  {
    var s;
    es, s := GivesOne();
    es, r := GivesZero(es, s);
  }

  /** Task 1 gives mutex 0. Task 6 is woken, is the highest task ready, and takes the mutex, for which task 3 waits at
      priority 11. */
  lemma {:induction false} TakeBreaksBound() returns (es: seq<Event>)
    ensures IsRun(START, es) && Books(Run(START, es)) && HoldersBound(Run(START, es))
    ensures var r := Run(START, es);
      && Enabled(r, Try(6, true)) && Highest(r, 6) && TakesBelowWaiter(r, 6)
      && Books(Step(r, Try(6, true))) && !HoldersBound(Step(r, Try(6, true)))
  {
    var r;
    es, r := SixIsWoken();
    RunKeepsBooks(START, es);
    BoundThere(r);
    assert 3 in r.mutexes[0].waiters;
    StepBoundIff(r, Try(6, true));
  }

  /** A task whose time is over tries once more, finds the mutex taken, and is about to have its holder disinherit. */
  lemma {:induction false} GoesOn(es: seq<Event>, s: System, t: nat, m: nat) returns (fs: seq<Event>)
    requires Reaches(es, s) && t in s.tcbs && s.tcbs[t].pc == Trying(m, true) && m in s.mutexes && s.mutexes[m].count == 0
    ensures Reaches(fs, Move(s, t, Pc.Disinheriting(m)))
  {
    RunKeepsBooks(START, es);
    ReachNext(es, s, Try(t, true));
    fs := es + [Try(t, true)];
    var s1 := Move(s, t, Refused(m, true));
    ReachNext(fs, s1, Suspended(t, true));
    fs := fs + [Suspended(t, true)];
    var s2 := Step(s1, Suspended(t, true));
    ReachNext(fs, s2, CheckEmpty(t));
    fs := fs + [CheckEmpty(t)];
    assert Step(s2, CheckEmpty(t)) == Move(s, t, Pc.Disinheriting(m));
  }

  lemma {:induction false} TimesOut(es: seq<Event>, s: System, t: nat, rest: seq<nat>, m: nat) returns (fs: seq<Event>, r: System)
    requires Reaches(es, s) && t in s.tcbs && s.tcbs[t].pc == Waiting(m, true) && t !in rest
    requires m in s.mutexes && s.mutexes[m].waiters == [t] + rest && s.mutexes[m].count == 0
    ensures Reaches(fs, r)
    ensures r.tcbs == s.tcbs[t := s.tcbs[t].(pc := Pc.Disinheriting(m))]
    ensures r.mutexes == s.mutexes[m := s.mutexes[m].(waiters := rest)]
  {
    RunKeepsBooks(START, es);
    assert ([t] + rest)[1..] == rest;
    WithoutMembers(rest, t);
    ReachNext(es, s, Timeout(t));
    var s1 := Step(s, Timeout(t));
    fs := GoesOn(es + [Timeout(t)], s1, t, m);
    r := Move(s1, t, Pc.Disinheriting(m));
  }

  lemma {:induction false} SixTimesOut() returns (es: seq<Event>, r: System)
    ensures Reaches(es, r) && 6 in r.tcbs && r.tcbs[6] == Task(4, 4, 0, Pc.Disinheriting(0)) && Covered(r.tcbs, r.mutexes)
    ensures 1 in r.tcbs && r.tcbs[1] == Task(1, 11, 1, Delayed) && 2 in r.tcbs && r.tcbs[2] == Task(3, 3, 0, Waiting(0, true))
    ensures r.mutexes[0] == Mutex(0, Some(1), [2, 3], 0)
  {
    var s;
    var q;
    es, s := GivesOne();
    es, q := Delays(es, s, 1);
    assert [6] + [2, 3] == [6, 2, 3];
    es, r := TimesOut(es, q, 6, [2, 3], 0);
  }

  /** Task 1 keeps mutex 0 and delays, and task 6 gives up waiting for it: the head of the list is then task 2, of
      priority 3, and so is the priority left to task 1, while task 3 waits at priority 11. */
  lemma {:induction false} DisinheritingBreaksBound() returns (es: seq<Event>)
    ensures IsRun(START, es) && Books(Run(START, es)) && HoldersBound(Run(START, es))
    ensures var r := Run(START, es);
      && Enabled(r, Event.Disinheriting(6)) && DisinheritsBelowWaiter(r, 6)
      && Books(Step(r, Event.Disinheriting(6))) && !HoldersBound(Step(r, Event.Disinheriting(6)))
  {
    var r;
    es, r := SixTimesOut();
    RunKeepsBooks(START, es);
    BoundThere(r);
    KnownWaiters(r, 0);
    assert AnotherAbove(r, 0, 3);
    StepBoundIff(r, Event.Disinheriting(6));
  }

  // ---- A holder left above all its waiters ----

  lemma {:induction false} TwoHeld() returns (es: seq<Event>, s: System)
    ensures Reaches(es, s) && s.tcbs.Keys == {1} && s.tcbs[1] == Task(1, 1, 2, Outside)
    ensures s.mutexes.Keys == {0, 1} && s.mutexes[0] == Mutex(0, Some(1), [], 0) && s.mutexes[1] == Mutex(0, Some(1), [], 0)
  {
    var s1 := START;
    es := NewHolder([], START, 1, 1, 0);
    es, s1 := NewMutex(es, WithHolder(START, 1, 1, 0), 1);
    es := Takes(es, s1, 1, 1);
    s := Take(s1, 1, 1);
  }

  /** Task 1 holds two mutexes; task 2, of priority 3, waits for one of them and gives up. Task 1 goes on at priority 3,
      though nobody waits for it and its base priority is 1. */
  lemma {:induction false} StaysRaisedAlone() returns (es: seq<Event>)
    ensures IsRun(START, es)
    ensures var r := Run(START, es);
      && 1 in r.tcbs && r.tcbs[1].priority == 3 && r.tcbs[1].base == 1
      && forall m :: m in r.mutexes ==> r.mutexes[m].waiters == []
  {
    var s0, s1, s2;
    es, s0 := TwoHeld();
    es, s1 := NewWaitsFirst(es, s0, 2, 3, 0);
    assert [2] + [] == [2];
    es, s2 := TimesOut(es, s1, 2, [], 0);
    es := GivesUp(es, s2);
  }

  lemma {:induction false} GivesUp(es: seq<Event>, s: System) returns (fs: seq<Event>)
    requires Reaches(es, s) && s.tcbs.Keys == {1, 2} && s.tcbs[1] == Task(1, 3, 2, Outside) && s.tcbs[2].pc == Pc.Disinheriting(0)
    requires s.mutexes.Keys == {0, 1} && s.mutexes[0] == Mutex(0, Some(1), [], 0) && s.mutexes[1].waiters == []
    ensures Reaches(fs, Move(s, 2, Outside))
  {
    RunKeepsBooks(START, es);
    ReachNext(es, s, Event.Disinheriting(2));
    fs := es + [Event.Disinheriting(2)];
    assert Step(s, Event.Disinheriting(2)) == Move(s, 2, Outside);
  }
}
