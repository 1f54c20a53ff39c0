/** What every step of PriorityInheritance does to every task and every mutex, and where running priorities come from. */
module InheritanceSteps {
  import opened KernelConfig
  import opened PriorityInheritance
  import opened TaskLists

  /** Mutex m of a task in the middle of a call exists, with its holder and its waiters. */
  lemma {:induction false} CallKnows(s: System, t: nat)
    requires Books(s) && t in s.tcbs && !s.tcbs[t].pc.Outside? && !s.tcbs[t].pc.Delayed?
    ensures var m := s.tcbs[t].pc.mutex;
      && Known(s, m) && (s.mutexes[m].count > 0 <==> s.mutexes[m].holder.None?)
      && (forall u :: u in s.mutexes[m].waiters ==> s.tcbs[u].eventItemValue <= configMAX_PRIORITIES)
  {
    assert TaskBook(s.mutexes, t, s.tcbs[t]);
    KnownWaiters(s, s.tcbs[t].pc.mutex);
    assert MutexBook(s.tcbs, s.tcbs[t].pc.mutex, s.mutexes[s.tcbs[t].pc.mutex]);
  }

  /** The priority with which a task waits on mutex m, as its event list item shows it, that is highest. */
  ghost function HighestWaiter(s: System, m: nat): (r: nat)
    requires Books(s) && m in s.mutexes
    ensures s.mutexes[m].waiters == [] ==> r == 0
  {
    KnownWaiters(s, m);
    HighestWaiting(s.tcbs, s.mutexes[m].waiters)
  }

  /** While the bound holds, that is the greatest priority of all that wait. */
  lemma {:induction false} HighestIsGreatest(s: System, m: nat)
    requires Books(s) && Bounded(s) && m in s.mutexes && s.mutexes[m].waiters != []
    ensures var w := s.mutexes[m].waiters;
      && (forall u :: u in w ==> u in s.tcbs && s.tcbs[u].priority <= HighestWaiter(s, m))
      && (exists u :: u in w && u in s.tcbs && s.tcbs[u].priority == HighestWaiter(s, m))
  {
    var w := s.mutexes[m].waiters;
    KnownWaiters(s, m);
    forall u | u in w ensures u in s.tcbs && s.tcbs[u].priority <= HighestWaiter(s, m) {
      HeadIsHighest(s, m, u);
    }
    assert w[0] in w && TaskBound(s.tcbs[w[0]]);
  }

  lemma {:induction false} GivePriority(s: System, u: nat, m: nat, t: nat)
    requires Books(s) && Enabled(s, Give(u, m)) && t in s.tcbs
    ensures var x, r := s.tcbs[t], Step(s, Give(u, m));
      t in r.tcbs && r.tcbs[t].base == x.base && r.tcbs[t].priority == if u == t && x.held == 1 then x.base else x.priority
  {
    HolderHolds(s, m);
    KnownWaiters(s, m);
    assert TaskBook(s.mutexes, u, s.tcbs[u]);
    assert s.mutexes[m].waiters != [] ==> s.mutexes[m].waiters[0] in s.mutexes[m].waiters;
  }

  lemma {:induction false} QuietPriority(s: System, e: Event, t: nat)
    requires Books(s) && Enabled(s, e) && t in s.tcbs
    requires !e.Suspended? && !e.Disinheriting? && !e.Give? && !e.PrioritySet?
    ensures var x, r := s.tcbs[t], Step(s, e); t in r.tcbs && r.tcbs[t].base == x.base && r.tcbs[t].priority == x.priority
  {
    if e.Try? || e.Timeout? || e.CheckEmpty? {
      CallKnows(s, e.task);
    }
  }

  /** A holder's priority rises to the caller's if that is higher. Giving back its last mutex, a task runs at its base priority
      again. When a waiter gives up, the holder of one mutex runs at the greater of its base priority and the highest waiting.
      Setting a task's priority sets its base, and its running priority unless it has inherited a higher one. No step changes
      another task's priority, or its base but by setting it. */
  lemma {:induction false} PriorityExactly(s: System, e: Event, t: nat)
    requires Books(s) && Enabled(s, e) && t in s.tcbs
    ensures t in Step(s, e).tcbs
    ensures e.Suspended? || e.Disinheriting? ==> s.tcbs[e.task].pc.mutex in s.mutexes
    ensures var x, y := s.tcbs[t], Step(s, e).tcbs[t];
      match e
      case Suspended(u, expired) =>
        y.base == x.base
        && y.priority == if !expired && s.mutexes[s.tcbs[u].pc.mutex].holder == Some(t) then Max(x.priority, s.tcbs[u].priority) else x.priority
      case Give(u, _) => y.base == x.base && y.priority == if u == t && x.held == 1 then x.base else x.priority
      case Disinheriting(u) =>
        y.base == x.base
        && y.priority == if s.mutexes[s.tcbs[u].pc.mutex].holder == Some(t) && x.held == 1
                         then Max(x.base, HighestWaiter(s, s.tcbs[u].pc.mutex)) else x.priority
      case PrioritySet(u, p) =>
        && y.base == (if u == t then p else x.base)
        && y.priority == if u != t then x.priority else if x.base == x.priority then p else Max(x.priority, p)
      case _ => y.base == x.base && y.priority == x.priority
  {
    match e
    case Suspended(u, _) => CallKnows(s, u);
    case Disinheriting(u) => CallKnows(s, u);
    case PrioritySet(u, _) => assert TaskBook(s.mutexes, u, s.tcbs[u]);
    case Give(u, m) => GivePriority(s, u, m, t);
    case _ => QuietPriority(s, e, t);
  }

  /** Where every step leaves every task in its call */
  lemma {:induction false} PcExactly(s: System, e: Event, t: nat)
    requires Books(s) && Enabled(s, e) && t in s.tcbs
    ensures t in Step(s, e).tcbs
    ensures var x, y := s.tcbs[t], Step(s, e).tcbs[t];
      if e.Give? then
        y.pc == if e.mutex in s.mutexes && s.mutexes[e.mutex].waiters != [] && s.mutexes[e.mutex].waiters[0] == t
                then Trying(e.mutex, x.pc.Waiting? && x.pc.inherited) else x.pc
      else if e.CreateMutex? || e.task != t then y.pc == x.pc
      else match e
           case Call(_, m) => y.pc == Trying(m, false)
           case Try(_, mayBlock) =>
             x.pc.mutex in s.mutexes &&
             y.pc == (if s.mutexes[x.pc.mutex].holder.None? || !mayBlock then Outside else Refused(x.pc.mutex, x.pc.inherited))
           case Suspended(_, expired) =>
             x.pc.mutex in s.mutexes &&
             (match s.mutexes[x.pc.mutex].holder
              case None => y.pc == if expired then TimedOut(x.pc.mutex, x.pc.inherited) else Trying(x.pc.mutex, x.pc.inherited)
              case Some(h) =>
                && h in s.tcbs
                && y.pc == if expired then TimedOut(x.pc.mutex, x.pc.inherited)
                           else Waiting(x.pc.mutex, s.tcbs[h].base < x.priority))
           case Timeout(_) => y.pc == Trying(x.pc.mutex, x.pc.inherited)
           case CheckEmpty(_) =>
             x.pc.mutex in s.mutexes &&
             y.pc == (if s.mutexes[x.pc.mutex].holder.None? then Trying(x.pc.mutex, x.pc.inherited)
                      else if x.pc.inherited then Pc.Disinheriting(x.pc.mutex) else Outside)
           case Delay(_) => y.pc == Delayed
           case PrioritySet(_, _) => y.pc == x.pc
           case _ => y.pc == Outside
  {
    match e
    case Suspended(u, _) => CallKnows(s, u);
    case Disinheriting(u) => CallKnows(s, u);
    case Try(u, _) => CallKnows(s, u);
    case Timeout(u) => CallKnows(s, u);
    case CheckEmpty(u) => CallKnows(s, u);
    case Give(u, m) => GivePc(s, u, m, t);
    case _ =>
  }

  lemma {:induction false} GivePc(s: System, u: nat, m: nat, t: nat)
    requires Books(s) && Enabled(s, Give(u, m)) && t in s.tcbs
    ensures var x, w := s.tcbs[t], s.mutexes[m].waiters;
      && t in Step(s, Give(u, m)).tcbs
      && Step(s, Give(u, m)).tcbs[t].pc ==
         if w != [] && w[0] == t then Trying(m, x.pc.Waiting? && x.pc.inherited) else x.pc
  {
    HolderHolds(s, m);
    assert MutexBook(s.tcbs, m, s.mutexes[m]);
    assert s.mutexes[m].waiters != [] ==> s.mutexes[m].waiters[0] in s.mutexes[m].waiters;
  }

  /** Task t goes onto the wait list of mutex m with this step. */
  predicate GoesToWait(s: System, e: Event, t: nat, m: nat) {
    && e == Suspended(t, false) && t in s.tcbs && s.tcbs[t].pc.Refused? && s.tcbs[t].pc.mutex == m
    && m in s.mutexes && s.mutexes[m].holder.Some?
  }

  /** Who holds a mutex and who waits for it: a try takes it if it is free, a give frees it and wakes the head of the wait
      list, a task goes to wait exactly if the mutex is taken and its time is not over, and a timeout ends one wait. */
  lemma {:induction false} MutexExactly(s: System, e: Event, m: nat)
    requires Books(s) && Enabled(s, e) && m in s.mutexes
    ensures m in Step(s, e).mutexes
    ensures var x, y := s.mutexes[m], Step(s, e).mutexes[m];
      && y.holder == (if e.Try? && s.tcbs[e.task].pc.mutex == m && x.holder.None? then Some(e.task)
                      else if e.Give? && e.mutex == m then None else x.holder)
      && (forall u :: u in y.waiters <==>
            || GoesToWait(s, e, u, m)
            || (u in x.waiters && e != Timeout(u) && !(e.Give? && e.mutex == m && x.waiters[0] == u)))
  {
    match e
    case Suspended(t, expired) => SuspendedMutex(s, t, expired, m);
    case Try(t, _) => CallKnows(s, t);
    case CheckEmpty(t) => CallKnows(s, t);
    case Disinheriting(t) => CallKnows(s, t);
    case Timeout(t) => TimeoutMutex(s, t, m);
    case Give(u, k) => GiveMutex(s, u, k, m);
    case _ =>
  }

  lemma {:induction false} SuspendedMutex(s: System, t: nat, expired: bool, m: nat)
    requires Books(s) && Enabled(s, Suspended(t, expired)) && m in s.mutexes
    ensures var x, r := s.mutexes[m], Step(s, Suspended(t, expired));
      && m in r.mutexes && r.mutexes[m].holder == x.holder
      && (forall u :: u in r.mutexes[m].waiters <==> GoesToWait(s, Suspended(t, expired), u, m) || u in x.waiters)
  {
    CallKnows(s, t);
    var k := s.tcbs[t].pc.mutex;
    if !expired && s.mutexes[k].holder.Some? {
      var h := s.mutexes[k].holder.value;
      InsertMembers(s.tcbs[h := Inherit(s.tcbs[h], s.tcbs[t].priority)], s.mutexes[k].waiters, t);
    }
  }

  lemma {:induction false} TimeoutMutex(s: System, t: nat, m: nat)
    requires Books(s) && Enabled(s, Timeout(t)) && m in s.mutexes
    ensures var x, r := s.mutexes[m], Step(s, Timeout(t));
      && m in r.mutexes && r.mutexes[m].holder == x.holder
      && (forall u :: u in r.mutexes[m].waiters <==> u in x.waiters && u != t)
  {
    CallKnows(s, t);
    var k := s.tcbs[t].pc.mutex;
    WithoutMembers(s.mutexes[k].waiters, t);
    assert MutexBook(s.tcbs, m, s.mutexes[m]);
  }

  lemma {:induction false} GiveMutex(s: System, t: nat, k: nat, m: nat)
    requires Books(s) && Enabled(s, Give(t, k)) && m in s.mutexes
    ensures var x, r := s.mutexes[m], Step(s, Give(t, k));
      && m in r.mutexes && r.mutexes[m].holder == (if k == m then None else x.holder)
      && (forall u :: u in r.mutexes[m].waiters <==> u in x.waiters && !(k == m && x.waiters[0] == u))
  {
    HolderHolds(s, k);
    assert MutexBook(s.tcbs, k, s.mutexes[k]);
    var w := s.mutexes[k].waiters;
    assert w != [] ==> w == [w[0]] + w[1..];
  }

  // ---- Where priorities come from ----

  /** The priority a step gives a task, if it gives one */
  function GivenBy(e: Event): set<nat> {
    match e
    case CreateTask(_, p) => {p}
    case PrioritySet(_, p) => {p}
    case _ => {}
  }

  ghost predicate AllGiven(s: System, given: set<nat>) {
    forall t :: t in s.tcbs ==> TaskGiven(s.tcbs[t], given)
  }

  /** The priorities a task has, and shows on the lists it waits in, have been given. */
  ghost predicate TaskGiven(x: Tcb, given: set<nat>) {
    x.base in given && x.priority in given && exists p :: p in given && x.eventItemValue == configMAX_PRIORITIES - p
  }

  lemma {:induction false} AtGiven(x: Tcb, p: nat, given: set<nat>)
    requires x.base in given && p in given
    ensures TaskGiven(At(x, p), given)
  {
  }

  lemma {:induction false} MoveGiven(s: System, t: nat, x: Tcb, given: set<nat>)
    requires AllGiven(s, given) && TaskGiven(x, given)
    ensures AllGiven(s.(tcbs := s.tcbs[t := x]), given)
  {
  }

  lemma {:induction false} BlockGiven(s: System, t: nat, m: nat, given: set<nat>)
    requires AllGiven(s, given) && t in s.tcbs && Known(s, m) && s.mutexes[m].holder.Some?
    ensures AllGiven(Block(s, t, m), given)
  {
    var h := s.mutexes[m].holder.value;
    assert TaskGiven(s.tcbs[h], given) && TaskGiven(s.tcbs[t], given);
    AtGiven(s.tcbs[h], s.tcbs[t].priority, given);
    MoveGiven(s, h, Inherit(s.tcbs[h], s.tcbs[t].priority), given);
  }

  lemma {:induction false} GiveUpGiven(s: System, t: nat, given: set<nat>)
    requires Books(s) && AllGiven(s, given) && Enabled(s, Event.Disinheriting(t))
    ensures AllGiven(GiveUp(s, t), given)
  {
    CallKnows(s, t);
    var m := s.tcbs[t].pc.mutex;
    if s.mutexes[m].holder.Some? {
      var h := s.mutexes[m].holder.value;
      assert TaskGiven(s.tcbs[h], given);
      var x := DisinheritAfterTimeout(s.tcbs[h], HighestWaiter(s, m));
      HighestGiven(s, m, given);
      AtGiven(s.tcbs[h], Max(s.tcbs[h].base, HighestWaiter(s, m)), given);
      MoveGiven(s, h, x, given);
    }
  }

  lemma {:induction false} HighestGiven(s: System, m: nat, given: set<nat>)
    requires Books(s) && AllGiven(s, given) && m in s.mutexes
    ensures HighestWaiter(s, m) == 0 || HighestWaiter(s, m) in given
  {
    KnownWaiters(s, m);
    var w := s.mutexes[m].waiters;
    if w != [] {
      assert w[0] in w && TaskGiven(s.tcbs[w[0]], given);
    }
  }

  lemma {:induction false} GiveGiven(s: System, t: nat, m: nat, given: set<nat>)
    requires Books(s) && AllGiven(s, given) && Enabled(s, Give(t, m))
    ensures AllGiven(Step(s, Give(t, m)), given)
  {
    HolderHolds(s, m);
    KnownWaiters(s, m);
    assert TaskGiven(s.tcbs[t], given);
    AtGiven(s.tcbs[t].(held := s.tcbs[t].held - 1), s.tcbs[t].base, given);
    MoveGiven(s, t, Disinherit(s.tcbs[t]), given);
    assert s.mutexes[m].waiters != [] ==> s.mutexes[m].waiters[0] in s.mutexes[m].waiters;
  }

  lemma {:induction false} SetGiven(s: System, e: Event, given: set<nat>)
    requires Books(s) && Enabled(s, e) && AllGiven(s, given) && (e.CreateTask? || e.PrioritySet?)
    ensures AllGiven(Step(s, e), given + GivenBy(e))
  {
    assert e.priority in given + GivenBy(e);
  }

  lemma {:induction false} QuietGiven(s: System, e: Event, given: set<nat>)
    requires Books(s) && Enabled(s, e) && AllGiven(s, given)
    requires !e.Suspended? && !e.Disinheriting? && !e.Give? && !e.CreateTask? && !e.PrioritySet?
    ensures AllGiven(Step(s, e), given)
  {
    if e.Try? || e.Timeout? || e.CheckEmpty? {
      CallKnows(s, e.task);
    }
  }

  lemma {:induction false} SectionGiven(s: System, t: nat, expired: bool, given: set<nat>)
    requires Books(s) && Enabled(s, Suspended(t, expired)) && AllGiven(s, given)
    ensures AllGiven(Step(s, Suspended(t, expired)), given)
  {
    CallKnows(s, t);
    if s.mutexes[s.tcbs[t].pc.mutex].holder.Some? {
      BlockGiven(s, t, s.tcbs[t].pc.mutex, given);
    }
  }

  lemma {:induction false} StepGiven(s: System, e: Event, given: set<nat>)
    requires Books(s) && Enabled(s, e) && AllGiven(s, given)
    ensures AllGiven(Step(s, e), given + GivenBy(e))
  {
    match e
    case Suspended(t, expired) => SectionGiven(s, t, expired, given);
    case Disinheriting(t) => GiveUpGiven(s, t, given);
    case Give(t, m) => GiveGiven(s, t, m, given);
    case CreateTask(_, _) => SetGiven(s, e, given);
    case PrioritySet(_, _) => SetGiven(s, e, given);
    case _ => QuietGiven(s, e, given);
    assert !e.CreateTask? && !e.PrioritySet? ==> given + GivenBy(e) == given;
  }

  lemma {:induction false} RunGiven(s: System, es: seq<Event>, given: set<nat>)
    requires Books(s) && IsRun(s, es) && AllGiven(s, given)
    ensures AllGiven(Run(s, es), given + (set e, p | e in es && p in GivenBy(e) :: p))
    decreases |es|
  {
    var all := set e, p | e in es && p in GivenBy(e) :: p;
    if es != [] {
      StepKeepsBooks(s, es[0]);
      StepGiven(s, es[0], given);
      RunGiven(Step(s, es[0]), es[1..], given + GivenBy(es[0]));
      assert es == [es[0]] + es[1..];
      var rest := set e, p | e in es[1..] && p in GivenBy(e) :: p;
      assert given + GivenBy(es[0]) + rest == given + all;
    } else {
      assert given + all == given;
    }
  }

  /** Over every run, whatever is inherited and disinherited in whatever order: a task runs at a priority that some task was
      created with or was set to. */
  lemma {:induction false} PrioritiesAreGiven(es: seq<Event>, t: nat)
    requires IsRun(START, es) && t in Run(START, es).tcbs
    ensures exists e :: e in es && Run(START, es).tcbs[t].priority in GivenBy(e)
  {
    RunGiven(START, es, {});
    assert TaskGiven(Run(START, es).tcbs[t], {} + (set e, p | e in es && p in GivenBy(e) :: p));
  }
}
