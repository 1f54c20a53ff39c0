/** OS/stream_buffer.c: how the writer and the reader of a stream buffer wait for each other.

    A side that goes to wait leaves its handle in the buffer, and the other side notifies it when it is done. Each critical
    section, section with the scheduler suspended, publication of an index and access to a shared field outside
    them is a step of its own. Of the contents only the number of bytes matters here. */
module StreamBlocking {
  import opened KernelConfig
  import MessageBuffers

  datatype Kind = Plain | Batching | Messages

  datatype Role = Reader | Writer

  function Other(who: Role): Role {
    if who.Reader? then Writer else Reader
  }

  /** ucNotifyState at the buffer's notification index */
  datatype NotifyState = NotWaiting | Waiting | Received

  /** Testing: before the critical section that decides whether to wait. Committed: decided, not waiting yet. InWait: in
      xTaskNotifyWait. Awake: about to leave it. Unlinking: about to take its handle out of the buffer. Copying: before
      the publication of its index. Checking: the writer, before it looks whether the trigger level is reached.
      Completing: before it notifies the other side. */
  datatype Pc = Outside | Testing | Committed | InWait | Awake | Unlinking | Copying | Checking | Completing

  /** linked says whether the side's handle is in the buffer: xTaskWaitingToReceive or xTaskWaitingToSend. */
  datatype Side = Side(pc: Pc, notify: NotifyState, linked: bool)

  /** capacity is the length less one; required is the xRequiredSpace of the writer's call. */
  datatype System = System(kind: Kind, capacity: nat, trigger: nat, used: nat, required: nat, reader: Side, writer: Side)

  function SideOf(s: System, who: Role): Side {
    if who.Reader? then s.reader else s.writer
  }

  function With(s: System, who: Role, x: Side): System {
    if who.Reader? then s.(reader := x) else s.(writer := x)
  }

  /** The xBytesToStoreMessageLength of xStreamBufferReceive: only more bytes than that can be read. */
  function Least(s: System): nat {
    match s.kind
    case Plain => 0
    case Batching => s.trigger
    case Messages => MessageBuffers.sbBYTES_TO_STORE_MESSAGE_LENGTH
  }

  /** Why a side goes to wait */
  predicate MustWait(s: System, who: Role) {
    if who.Reader? then s.used <= Least(s) else s.capacity < s.used + s.required
  }

  /** A message buffer holds no frame in part. */
  predicate Content(s: System, used: nat) {
    used <= s.capacity && (s.kind.Messages? ==> used == 0 || Least(s) < used)
  }

  datatype Event =
    | Receive(mayWait: bool)
    | Send(required: nat, mayWait: bool)
    | Test(who: Role)
    | Wait(who: Role)
    | TimeOut(who: Role)
    | WakeUp(who: Role)
    | Leave(who: Role)
    | Unlink(who: Role, expired: bool)
    | Take(n: nat)
    | Put(n: nat)
    | CheckTrigger
    | Complete(who: Role)
    | Stray(who: Role)

  predicate Enabled(s: System, e: Event) {
    match e
    case Receive(_) => s.reader.pc.Outside?
    case Send(required, mayWait) => s.writer.pc.Outside? && (mayWait ==> required <= s.capacity)
    case Test(who) => SideOf(s, who).pc.Testing?
    case Wait(who) => SideOf(s, who).pc.Committed?
    case TimeOut(who) => SideOf(s, who).pc.InWait?
    case WakeUp(who) => SideOf(s, who).pc.InWait? && SideOf(s, who).notify.Received?
    case Leave(who) => SideOf(s, who).pc.Awake?
    case Unlink(who, _) => SideOf(s, who).pc.Unlinking?
    case Take(n) => s.reader.pc.Copying? && n <= s.used && (s.used <= Least(s) ==> n == 0) && Content(s, s.used - n)
    case Put(n) => s.writer.pc.Copying? && Content(s, s.used + n)
    case CheckTrigger => s.writer.pc.Checking?
    case Complete(who) => SideOf(s, who).pc.Completing?
    case Stray(who) => true
  }

  /** A notification: a waiting side will find it, and one that is about to wait will not wait. */
  function Notified(x: Side): Side {
    x.(notify := Received)
  }

  /** After its wait the writer tests again unless its time is over; the reader does not. */
  function AfterWait(who: Role, expired: bool): Pc {
    if who.Writer? && !expired then Testing else Copying
  }

  function Step(s: System, e: Event): System
    requires Enabled(s, e)
  {
    match e
    case Receive(mayWait) => s.(reader := s.reader.(pc := if mayWait then Testing else Copying))
    case Send(required, mayWait) =>
      s.(required := required, writer := s.writer.(pc := if mayWait then Testing else Copying))
    case Test(who) =>
      var x := SideOf(s, who);
      With(s, who,
           if MustWait(s, who) then Side(Committed, if x.notify.Received? then NotWaiting else x.notify, true)
           else x.(pc := Copying))
    case Wait(who) =>
      var x := SideOf(s, who);
      With(s, who, if x.notify.Received? then x.(pc := Awake) else x.(pc := InWait, notify := Waiting))
    case TimeOut(who) => With(s, who, SideOf(s, who).(pc := Awake))
    case WakeUp(who) => With(s, who, SideOf(s, who).(pc := Awake))
    case Leave(who) => With(s, who, SideOf(s, who).(pc := Unlinking, notify := NotWaiting))
    case Unlink(who, expired) => With(s, who, SideOf(s, who).(pc := AfterWait(who, expired), linked := false))
    case Take(n) => s.(used := s.used - n, reader := s.reader.(pc := if n == 0 then Outside else Completing))
    case Put(n) => s.(used := s.used + n, writer := s.writer.(pc := if n == 0 then Outside else Checking))
    case CheckTrigger => s.(writer := s.writer.(pc := if s.used >= s.trigger then Completing else Outside))
    case Complete(who) =>
      var y := SideOf(s, Other(who));
      With(With(s, Other(who), if y.linked then Notified(y).(linked := false) else y), who, SideOf(s, who).(pc := Outside))
    case Stray(who) => With(s, who, Notified(SideOf(s, who)))
  }

  // ---- The invariant ----

  /** The side sleeps, or is about to, and nothing has woken it. */
  predicate Unwoken(x: Side) {
    (x.pc.Committed? || x.pc.InWait?) && !x.notify.Received?
  }

  /** In a call that may wait, before it goes on without */
  predicate MayWait(pc: Pc) {
    pc.Testing? || pc.Committed? || pc.InWait? || pc.Awake? || pc.Unlinking?
  }

  predicate SideOk(x: Side) {
    && (Unwoken(x) ==> x.linked)
    && (x.linked ==> MayWait(x.pc) && !x.pc.Testing?)
    && (x.pc.InWait? ==> !x.notify.NotWaiting?)
  }

  /** The reader has too little to be woken for, or the writer is still to look at it. */
  predicate ReaderRightlyWaits(s: System) {
    s.used <= Least(s) || s.used < s.trigger || s.writer.pc.Checking? || s.writer.pc.Completing?
  }

  predicate WriterRightlyWaits(s: System) {
    s.capacity < s.used + s.required || s.reader.pc.Completing?
  }

  predicate Inv(s: System) {
    && SideOk(s.reader) && SideOk(s.writer) && Content(s, s.used)
    && (Unwoken(s.reader) ==> ReaderRightlyWaits(s))
    && (Unwoken(s.writer) ==> WriterRightlyWaits(s))
    && (MayWait(s.writer.pc) ==> s.required <= s.capacity)
  }

  /** A new buffer: xStreamBufferGenericCreate makes a trigger level of 0 one, and a message buffer's is that. */
  predicate Init(s: System) {
    && s.used == 0 && s.reader == Side(Outside, NotWaiting, false) && s.writer == Side(Outside, NotWaiting, false)
    && 0 < s.trigger <= s.capacity + 1
    && (s.kind.Messages? ==> s.trigger == 1 && MessageBuffers.sbBYTES_TO_STORE_MESSAGE_LENGTH <= s.capacity)
  }

  /** A side's call goes on, or it goes to wait or comes back. */
  lemma {:induction false} CallKeepsInv(s: System, e: Event)
    requires Inv(s) && Enabled(s, e) && (e.Receive? || e.Send? || e.Test? || e.Stray?)
    ensures Inv(Step(s, e))
  {
  }

  lemma {:induction false} WaitKeepsInv(s: System, e: Event)
    requires Inv(s) && Enabled(s, e) && (e.Wait? || e.TimeOut? || e.WakeUp? || e.Leave? || e.Unlink?)
    ensures Inv(Step(s, e))
  {
  }

  /** A side changes the number of bytes, or tells the other that it has. */
  lemma {:induction false} CopyKeepsInv(s: System, e: Event)
    requires Inv(s) && Enabled(s, e) && (e.Take? || e.Put? || e.CheckTrigger? || e.Complete?)
    ensures Inv(Step(s, e))
  {
  }

  lemma {:induction false} StepKeepsInv(s: System, e: Event)
    requires Inv(s) && Enabled(s, e)
    ensures Inv(Step(s, e))
    ensures var r := Step(s, e); r.kind == s.kind && r.capacity == s.capacity && r.trigger == s.trigger
  {
    if e.Receive? || e.Send? || e.Test? || e.Stray? {
      CallKeepsInv(s, e);
    } else if e.Take? || e.Put? || e.CheckTrigger? || e.Complete? {
      CopyKeepsInv(s, e);
    } else {
      WaitKeepsInv(s, e);
    }
  }

  /** A side decides to wait exactly if the reader has no more bytes than it cannot read, or the writer less space than it
      requires. After its wait the writer tests again unless its time is over, and the reader reads what there is. The writer
      notifies the reader exactly from the trigger level on, and who notifies takes the handle it finds. */
  lemma {:induction false} WaitsAndNotifiesIff(s: System, e: Event)
    requires Enabled(s, e)
    ensures var r := Step(s, e);
      match e
      case Test(who) =>
        && (SideOf(r, who).pc.Committed? <==>
              if who.Reader? then s.used <= Least(s) else s.capacity - s.used < s.required)
        && (!SideOf(r, who).pc.Committed? ==> SideOf(r, who).pc.Copying?)
      case Wait(who) =>
        if SideOf(s, who).notify.Received? then SideOf(r, who).pc.Awake? else Asleep(SideOf(r, who))
      case Unlink(who, expired) =>
        !SideOf(r, who).linked && (SideOf(r, who).pc.Testing? <==> who.Writer? && !expired)
        && (!SideOf(r, who).pc.Testing? ==> SideOf(r, who).pc.Copying?)
      case CheckTrigger => r.writer.pc == if s.trigger <= s.used then Completing else Outside
      case Complete(who) =>
        var x, y := SideOf(s, Other(who)), SideOf(r, Other(who));
        !y.linked && y.pc == x.pc && y.notify == if x.linked then NotifyState.Received else x.notify
      case _ => true
  {
  }

  // ---- Runs ----

  predicate IsRun(s: System, es: seq<Event>)
    decreases |es|
  {
    es != [] ==> Enabled(s, es[0]) && IsRun(Step(s, es[0]), es[1..])
  }

  function Run(s: System, es: seq<Event>): System
    requires IsRun(s, es)
    decreases |es|
  {
    if es == [] then s else Run(Step(s, es[0]), es[1..])
  }

  lemma {:induction false} RunKeepsInv(s: System, es: seq<Event>)
    requires Inv(s) && IsRun(s, es)
    ensures var r := Run(s, es); Inv(r) && r.kind == s.kind && r.capacity == s.capacity && r.trigger == s.trigger
    decreases |es|
  {
    if es != [] {
      StepKeepsInv(s, es[0]);
      RunKeepsInv(Step(s, es[0]), es[1..]);
    }
  }

  predicate Asleep(x: Side) {
    x.pc.InWait? && x.notify.Waiting?
  }

  /** Over every run no wake-up is lost. Once the writer is done with what it has put, a sleeping reader finds too few
      bytes to read or fewer than the trigger level; once the reader is done with what it has taken, a sleeping
      writer lacks the space it requires. No second task ever finds its place in the buffer taken. */
  lemma {:induction false} NoWakeUpIsEverLost(s: System, es: seq<Event>)
    requires Init(s) && IsRun(s, es)
    ensures var r := Run(s, es);
      && (Asleep(r.reader) && !r.writer.pc.Checking? && !r.writer.pc.Completing? ==> r.used <= Least(r) || r.used < r.trigger)
      && (Asleep(r.writer) && !r.reader.pc.Completing? ==> r.capacity < r.used + r.required)
      && (Enabled(r, Test(Reader)) ==> !r.reader.linked) && (Enabled(r, Test(Writer)) ==> !r.writer.linked)
  {
    RunKeepsInv(s, es);
  }

  // ---- Can both sides sleep? ----

  predicate BothAsleep(s: System) {
    Asleep(s.reader) && Asleep(s.writer)
  }

  /** A reader may be left waiting beside some bytes. */
  predicate LeavesBytes(s: System) {
    s.kind.Batching? || (s.kind.Plain? && 1 < s.trigger)
  }

  predicate SendsBothToSleep(s: System, es: seq<Event>) {
    IsRun(s, es) && BothAsleep(Run(s, es))
  }

  lemma {:induction false} RunNext(s: System, es: seq<Event>, e: Event)
    requires IsRun(s, es) && Enabled(Run(s, es), e)
    ensures IsRun(s, es + [e]) && Run(s, es + [e]) == Step(Run(s, es), e)
    decreases |es|
  {
    if es == [] {
      assert ([] + [e])[1..] == [];
    } else {
      assert (es + [e])[0] == es[0] && (es + [e])[1..] == es[1..] + [e];
      RunNext(Step(s, es[0]), es[1..], e);
    }
  }

  lemma {:induction false} Sleeps(s: System, es: seq<Event>, who: Role, required: nat) returns (fs: seq<Event>)
    requires IsRun(s, es) && SideOf(Run(s, es), who) == Side(Outside, NotWaiting, false)
    requires var r := Run(s, es);
      if who.Reader? then MustWait(r, Reader) else required <= r.capacity < r.used + required
    ensures IsRun(s, fs) && (TimeOut(Reader) !in es ==> TimeOut(Reader) !in fs)
    ensures var r := Run(s, es);
      Run(s, fs) == With(if who.Reader? then r else r.(required := required), who, Side(InWait, Waiting, true))
  {
    var e := if who.Reader? then Receive(true) else Send(required, true);
    RunNext(s, es, e);
    RunNext(s, es + [e], Test(who));
    RunNext(s, es + [e] + [Test(who)], Wait(who));
    fs := es + [e] + [Test(who)] + [Wait(who)];
  }

  /** The writer puts one byte without waiting. */
  lemma {:induction false} PutsOne(s: System, es: seq<Event>) returns (fs: seq<Event>)
    requires IsRun(s, es) && Run(s, es).writer == Side(Outside, NotWaiting, false)
    requires !Run(s, es).kind.Messages? && Run(s, es).used == 0 < Run(s, es).capacity
    requires !Run(s, es).reader.linked || 1 < Run(s, es).trigger
    ensures IsRun(s, fs) && Run(s, fs) == Run(s, es).(used := 1, required := 1)
  {
    var r := Run(s, es);
    RunNext(s, es, Send(1, false));
    RunNext(s, es + [Send(1, false)], Put(1));
    fs := es + [Send(1, false)] + [Put(1)];
    RunNext(s, fs, CheckTrigger);
    fs := fs + [CheckTrigger];
    if r.trigger <= 1 {
      RunNext(s, fs, Complete(Writer));
      fs := fs + [Complete(Writer)];
    }
  }

  lemma {:induction false} BothCanSleep(s: System) returns (es: seq<Event>)
    requires Init(s) && LeavesBytes(s) && 0 < s.capacity
    ensures IsRun(s, es) && BothAsleep(Run(s, es))
  {
    if 1 < s.trigger {
      es := Sleeps(s, [], Reader, 0);
      es := PutsOne(s, es);
    } else {
      es := PutsOne(s, []);
      es := Sleeps(s, es, Reader, 0);
    }
    es := Sleeps(s, es, Writer, s.capacity);
  }

  /** While both sleep, the reader has fewer bytes than it waits for, and the writer less space. */
  lemma {:induction false} BothAsleepOnlyIf(s: System, es: seq<Event>)
    requires Init(s) && IsRun(s, es) && BothAsleep(Run(s, es))
    ensures var r := Run(s, es);
      && r.capacity - r.required < r.used <= r.capacity
      && (r.used <= Least(r) || r.used < r.trigger)
      && LeavesBytes(s) && 0 < s.capacity
  {
    RunKeepsInv(s, es);
  }

  /** The writer of a new buffer can come to wait for space while the reader waits for bytes exactly if the reader
      may be left waiting beside some bytes: on a stream buffer with a trigger level above one and on a
      batching buffer, but never on a message buffer or on a stream buffer with a trigger level of one. */
  lemma {:induction false} BothCanSleepIff(s: System)
    requires Init(s)
    ensures (exists es :: SendsBothToSleep(s, es)) <==> LeavesBytes(s) && 0 < s.capacity
  {
    if LeavesBytes(s) && 0 < s.capacity {
      var es := BothCanSleep(s);
      assert SendsBothToSleep(s, es);
    } else {
      forall es ensures !SendsBothToSleep(s, es) {
        if SendsBothToSleep(s, es) {
          BothAsleepOnlyIf(s, es);
        }
      }
    }
  }

  // ---- What a woken reader finds ----

  /** Of the reader's last call: whether it has waited; whether something else than the writer ended that wait or may have;
      the bytes there were when the writer notified it; and how many the writer has put since. */
  datatype Watch = Watch(waited: bool, disturbed: bool, notified: Option<nat>, put: nat)

  const UNSEEN := Watch(false, false, None, 0)

  function Observe(s: System, w: Watch, e: Event): Watch
    requires Enabled(s, e)
  {
    match e
    case Receive(_) => UNSEEN
    case Test(who) => if who.Reader? && MustWait(s, Reader) then Watch(true, false, None, 0) else w
    case TimeOut(who) => if who.Reader? then w.(disturbed := true) else w
    case Stray(who) => if who.Reader? then w.(disturbed := true) else w
    case Complete(who) => if who.Writer? && s.reader.linked then w.(notified := Some(s.used), put := 0) else w
    case Put(n) => w.(put := w.put + n)
    case _ => w
  }

  function Watched(s: System, w: Watch, es: seq<Event>): Watch
    requires IsRun(s, es)
    decreases |es|
  {
    if es == [] then w else Watched(Step(s, es[0]), Observe(s, w, es[0]), es[1..])
  }

  /** A wait that nothing but the writer has ended or can end now */
  predicate Undisturbed(w: Watch) {
    w.waited && !w.disturbed
  }

  predicate Woken(x: Side) {
    x.pc.Awake? || x.pc.Unlinking? || x.pc.Copying? || ((x.pc.Committed? || x.pc.InWait?) && x.notify.Received?)
  }

  /** The buffer can come to hold what the writer notifies of. */
  predicate CanNotify(s: System) {
    s.trigger <= s.capacity && (s.kind.Messages? ==> Least(s) < s.capacity)
  }

  predicate WatchOk(s: System, w: Watch) {
    && (s.reader.pc.Testing? ==> !w.waited)
    && (Undisturbed(w) && Unwoken(s.reader) ==> w.notified.None?)
    && (Undisturbed(w) && Woken(s.reader) ==> !s.reader.linked && w.notified.Some? && s.used == w.notified.value + w.put)
    && (s.writer.pc.Checking? && s.kind.Messages? ==> Least(s) < s.capacity)
    && (s.writer.pc.Completing? || w.notified.Some? ==> CanNotify(s))
  }

  lemma {:induction false} CallKeepsWatch(s: System, w: Watch, e: Event)
    requires Inv(s) && WatchOk(s, w) && Enabled(s, e) && (e.Receive? || e.Send? || e.Test? || e.Stray?)
    ensures WatchOk(Step(s, e), Observe(s, w, e))
  {
  }

  lemma {:induction false} WaitKeepsWatch(s: System, w: Watch, e: Event)
    requires Inv(s) && WatchOk(s, w) && Enabled(s, e) && (e.Wait? || e.TimeOut? || e.WakeUp? || e.Leave? || e.Unlink?)
    ensures WatchOk(Step(s, e), Observe(s, w, e))
  {
  }

  lemma {:induction false} CopyKeepsWatch(s: System, w: Watch, e: Event)
    requires Inv(s) && WatchOk(s, w) && Enabled(s, e) && (e.Take? || e.Put? || e.CheckTrigger? || e.Complete?)
    ensures WatchOk(Step(s, e), Observe(s, w, e))
  {
  }

  lemma {:induction false} StepKeepsWatch(s: System, w: Watch, e: Event)
    requires Inv(s) && WatchOk(s, w) && Enabled(s, e)
    ensures WatchOk(Step(s, e), Observe(s, w, e))
  {
    if e.Receive? || e.Send? || e.Test? || e.Stray? {
      CallKeepsWatch(s, w, e);
    } else if e.Take? || e.Put? || e.CheckTrigger? || e.Complete? {
      CopyKeepsWatch(s, w, e);
    } else {
      WaitKeepsWatch(s, w, e);
    }
  }

  lemma {:induction false} RunKeepsWatch(s: System, w: Watch, es: seq<Event>)
    requires Inv(s) && WatchOk(s, w) && IsRun(s, es)
    ensures WatchOk(Run(s, es), Watched(s, w, es))
    decreases |es|
  {
    if es != [] {
      StepKeepsInv(s, es[0]);
      StepKeepsWatch(s, w, es[0]);
      RunKeepsWatch(Step(s, es[0]), Observe(s, w, es[0]), es[1..]);
    }
  }

  /** Over every run, of a reader that has waited and that neither the end of its time nor a stray notification has
      woken: the writer has, and the reader finds the bytes there were then and those put since. It can read any
      exactly if these are more than the number it reads above. */
  lemma {:induction false} WokenFindsIff(s: System, es: seq<Event>)
    requires Init(s) && IsRun(s, es)
    ensures var r, w := Run(s, es), Watched(s, UNSEEN, es);
      Undisturbed(w) && r.reader.pc.Copying? ==>
        && w.notified.Some? && r.used == w.notified.value + w.put
        && (CanTake(r) <==> Least(r) < w.notified.value + w.put)
  {
    var r := Run(s, es);
    RunKeepsInv(s, es);
    RunKeepsWatch(s, UNSEEN, es);
    if r.reader.pc.Copying? && Least(r) < r.used {
      assert Takes(r, r.used);
    }
  }

  predicate Takes(s: System, n: nat) {
    0 < n && Enabled(s, Take(n))
  }

  ghost predicate CanTake(s: System) {
    exists n: nat :: Takes(s, n)
  }

  /** The writer wakes the reader, which has time left, and the reader finds nothing it can read. */
  predicate WakesInVain(s: System, es: seq<Event>) {
    && IsRun(s, es) && Undisturbed(Watched(s, UNSEEN, es))
    && Run(s, es).reader.pc.Copying? && Run(s, es).used <= Least(Run(s, es))
  }

  /** es leads from s to r, with the reader watched. */
  predicate Leads(s: System, es: seq<Event>, r: System, w: Watch) {
    IsRun(s, es) && Run(s, es) == r && Watched(s, UNSEEN, es) == w
  }

  lemma {:induction false} WatchedNext(s: System, w: Watch, es: seq<Event>, e: Event)
    requires IsRun(s, es) && Enabled(Run(s, es), e)
    ensures IsRun(s, es + [e]) && Watched(s, w, es + [e]) == Observe(Run(s, es), Watched(s, w, es), e)
    decreases |es|
  {
    RunNext(s, es, e);
    if es == [] {
      assert ([] + [e])[1..] == [];
    } else {
      assert (es + [e])[0] == es[0] && (es + [e])[1..] == es[1..] + [e];
      WatchedNext(Step(s, es[0]), Observe(s, w, es[0]), es[1..], e);
    }
  }

  lemma {:induction false} Next(s: System, es: seq<Event>, r: System, w: Watch, e: Event)
    requires Leads(s, es, r, w) && Enabled(r, e)
    ensures Leads(s, es + [e], Step(r, e), Observe(r, w, e))
  {
    RunNext(s, es, e);
    WatchedNext(s, UNSEEN, es, e);
  }

  /** A sleeping reader is notified, and returns from its wait. */
  lemma {:induction false} Wakes(s: System, es: seq<Event>, r: System, w: Watch) returns (fs: seq<Event>)
    requires Leads(s, es, r, w) && r.reader == Side(InWait, Waiting, true) && r.writer.pc.Completing? && !r.writer.linked
    ensures fs == es + [Complete(Writer), WakeUp(Reader), Leave(Reader), Unlink(Reader, false)]
    ensures Leads(s, fs, r.(reader := Side(Copying, NotWaiting, false), writer := r.writer.(pc := Outside)),
                  w.(notified := Some(r.used), put := 0))
  {
    var v := w.(notified := Some(r.used), put := 0);
    Next(s, es, r, w, Complete(Writer));
    var s1 := r.(reader := Side(InWait, Received, false), writer := r.writer.(pc := Outside));
    Next(s, es + [Complete(Writer)], s1, v, WakeUp(Reader));
    var s2 := s1.(reader := Side(Awake, Received, false));
    Next(s, es + [Complete(Writer)] + [WakeUp(Reader)], s2, v, Leave(Reader));
    var s3 := s1.(reader := Side(Unlinking, NotWaiting, false));
    Next(s, es + [Complete(Writer)] + [WakeUp(Reader)] + [Leave(Reader)], s3, v, Unlink(Reader, false));
    fs := es + [Complete(Writer), WakeUp(Reader), Leave(Reader), Unlink(Reader, false)];
    assert fs == es + [Complete(Writer)] + [WakeUp(Reader)] + [Leave(Reader)] + [Unlink(Reader, false)];
  }

  lemma {:induction false} ReaderSleeps(s: System, es: seq<Event>, r: System, w: Watch) returns (fs: seq<Event>)
    requires Leads(s, es, r, w) && r.reader == Side(Outside, NotWaiting, false) && r.used <= Least(r)
    ensures fs == es + [Receive(true), Test(Reader), Wait(Reader)]
    ensures Leads(s, fs, r.(reader := Side(InWait, Waiting, true)), Watch(true, false, None, 0))
  {
    Next(s, es, r, w, Receive(true));
    var s1 := r.(reader := Side(Testing, NotWaiting, false));
    Next(s, es + [Receive(true)], s1, UNSEEN, Test(Reader));
    var s2 := r.(reader := Side(Committed, NotWaiting, true));
    Next(s, es + [Receive(true)] + [Test(Reader)], s2, Watch(true, false, None, 0), Wait(Reader));
    fs := es + [Receive(true), Test(Reader), Wait(Reader)];
    assert fs == es + [Receive(true)] + [Test(Reader)] + [Wait(Reader)];
  }

  lemma {:induction false} WriterPuts(s: System, es: seq<Event>, r: System, w: Watch, n: nat) returns (fs: seq<Event>)
    requires Leads(s, es, r, w) && r.writer == Side(Outside, NotWaiting, false) && r.used == 0
    requires 0 < n && r.trigger <= n && Content(r, n)
    ensures fs == es + [Send(n, false), Put(n), CheckTrigger]
    ensures Leads(s, fs, r.(used := n, required := n, writer := Side(Completing, NotWaiting, false)), w.(put := w.put + n))
  {
    Next(s, es, r, w, Send(n, false));
    var s1 := r.(required := n, writer := Side(Copying, NotWaiting, false));
    Next(s, es + [Send(n, false)], s1, w, Put(n));
    var s2 := s1.(used := n, writer := Side(Checking, NotWaiting, false));
    Next(s, es + [Send(n, false)] + [Put(n)], s2, w.(put := w.put + n), CheckTrigger);
    fs := es + [Send(n, false), Put(n), CheckTrigger];
    assert fs == es + [Send(n, false)] + [Put(n)] + [CheckTrigger];
  }

  /** A reader that does not wait takes all there is. */
  lemma {:induction false} TakesAll(s: System, es: seq<Event>, r: System, w: Watch) returns (fs: seq<Event>)
    requires Leads(s, es, r, w) && r.reader == Side(Outside, NotWaiting, false) && Least(r) < r.used && !r.writer.linked
    requires Content(r, 0)
    ensures fs == es + [Receive(false), Take(r.used), Complete(Reader)]
    ensures Leads(s, fs, r.(used := 0), UNSEEN)
  {
    Next(s, es, r, w, Receive(false));
    var s1 := r.(reader := Side(Copying, NotWaiting, false));
    Next(s, es + [Receive(false)], s1, UNSEEN, Take(r.used));
    var s2 := r.(used := 0, reader := Side(Completing, NotWaiting, false));
    Next(s, es + [Receive(false)] + [Take(r.used)], s2, UNSEEN, Complete(Reader));
    fs := es + [Receive(false), Take(r.used), Complete(Reader)];
    assert fs == es + [Receive(false)] + [Take(r.used)] + [Complete(Reader)];
  }

  /** On a buffer that is not batching: between the writer's test of the trigger level and its notification, the reader
      takes all the bytes, and calls again and goes to sleep. */
  lemma {:induction false} TakenBeforeNotification(s: System) returns (es: seq<Event>)
    requires Init(s) && CanNotify(s) && !s.kind.Batching?
    ensures WakesInVain(s, es)
    ensures es == [Send(s.capacity, false), Put(s.capacity), CheckTrigger, Receive(false), Take(s.capacity), Complete(Reader),
                   Receive(true), Test(Reader), Wait(Reader), Complete(Writer), WakeUp(Reader), Leave(Reader), Unlink(Reader, false)]
  {
    var n := s.capacity;
    es := WriterPuts(s, [], s, UNSEEN, n);
    var s1 := s.(used := n, required := n, writer := Side(Completing, NotWaiting, false));
    es := TakesAll(s, es, s1, UNSEEN.(put := n));
    es := ReaderSleeps(s, es, s1.(used := 0), UNSEEN);
    es := Wakes(s, es, s1.(used := 0, reader := Side(InWait, Waiting, true)), Watch(true, false, None, 0));
  }

  /** On a batching buffer: as many bytes as the trigger level are put beside a sleeping reader, which reads only above it. */
  lemma {:induction false} NotifiedAtTrigger(s: System) returns (es: seq<Event>)
    requires Init(s) && CanNotify(s) && s.kind.Batching?
    ensures WakesInVain(s, es) && Run(s, es).used == s.trigger
    ensures es == [Receive(true), Test(Reader), Wait(Reader), Send(s.trigger, false), Put(s.trigger), CheckTrigger,
                   Complete(Writer), WakeUp(Reader), Leave(Reader), Unlink(Reader, false)]
  {
    var t := s.trigger;
    es := ReaderSleeps(s, [], s, UNSEEN);
    var s1 := s.(reader := Side(InWait, Waiting, true));
    es := WriterPuts(s, es, s1, Watch(true, false, None, 0), t);
    es := Wakes(s, es, s1.(used := t, required := t, writer := Side(Completing, NotWaiting, false)), Watch(true, false, None, t));
  }

  /** A reader woken in vain can only return without bytes. */
  lemma {:induction false} VainReturnsNothing(s: System, es: seq<Event>)
    requires Init(s) && WakesInVain(s, es)
    ensures forall n: nat :: Enabled(Run(s, es), Take(n)) <==> n == 0
    ensures IsRun(s, es + [Take(0)])
    ensures Run(s, es + [Take(0)]) == Run(s, es).(reader := Run(s, es).reader.(pc := Outside))
  {
    RunKeepsInv(s, es);
    RunNext(s, es, Take(0));
  }

  /** On every batching buffer: a reader sleeps beside nothing, as many bytes as the trigger level are put, and it is
      woken before its time is over, finds no more than the trigger level, and returns without any. */
  lemma {:induction false} BatchingWakesInVain(s: System) returns (es: seq<Event>)
    requires Init(s) && s.kind.Batching? && s.trigger <= s.capacity
    ensures IsRun(s, es) && TimeOut(Reader) !in es && es != [] && es[|es| - 1] == Take(0)
    ensures Run(s, es).reader.pc.Outside? && Run(s, es).used == s.trigger
  {
    var fs := NotifiedAtTrigger(s);
    VainReturnsNothing(s, fs);
    es := fs + [Take(0)];
  }

  /** The reader of a new buffer can be woken in vain exactly if it can be woken by the writer at all. */
  lemma {:induction false} WakesInVainIff(s: System)
    requires Init(s)
    ensures (exists es :: WakesInVain(s, es)) <==> CanNotify(s)
  {
    if CanNotify(s) {
      var es;
      if s.kind.Batching? {
        es := NotifiedAtTrigger(s);
      } else {
        es := TakenBeforeNotification(s);
      }
      assert WakesInVain(s, es);
    }
    forall es | WakesInVain(s, es) ensures CanNotify(s) {
      RunKeepsInv(s, es);
      RunKeepsWatch(s, UNSEEN, es);
    }
  }
}
