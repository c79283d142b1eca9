/** Lock and Condition (threads/synch.cc:176-305) over every interleaving of threads
    that acquire, release, wait, signal and broadcast in any order the ASSERTs allow.

    A step of a thread here never spans a point where the processor could change
    hands; some real steps are split further, which only adds interleavings. */
module Monitors {
  import opened Options
  import opened Kernels
  import opened Sleepers

  const LOCK: SemId := 0  // Lock::semaphore

  /** Where a thread is.
      Out:       holds nothing.
      AcqP:      Lock::Acquire, inside semaphore->P().
      Got:       P has returned, lockHolder not yet set.
      In:        lockHolder set; between monitor operations.
      BCast:     in the loop of Condition::Broadcast.
      WaitP(w):  Condition::Wait, lock released, inside waiter->P().
      ReAcqP(w): signalled, inside the Acquire at the end of Wait.
      GotW(w):   that P has returned; lockHolder not set, waiter not yet deleted. */
  datatype Pc = Out | AcqP | Got | In | BCast | WaitP(w: SemId) | ReAcqP(w: SemId) | GotW(w: SemId)

  /** The C state is k, lockHolder and waitQueue.  The rest is history: owner is the
      thread between a completed P and the next V on the lock's semaphore, client
      says which thread allocated a waiter semaphore, waited and signalled list the
      waiter semaphores in the order they were queued and taken off the queue. */
  datatype Monitor = Monitor(
    k: Kernel,
    lockHolder: Option<Tid>,
    waitQueue: seq<SemId>,
    pc: map<Tid, Pc>,
    owner: Option<Tid>,
    client: map<SemId, Tid>,
    waited: seq<SemId>,
    signalled: seq<SemId>,
    nextSem: SemId)

  predicate Holding(p: Pc) { p.Got? || p.In? || p.BCast? || p.GotW? }

  function WaitsOn(p: Pc): Option<SemId> {
    match p
    case AcqP => Some(LOCK)
    case WaitP(w) => Some(w)
    case ReAcqP(_) => Some(LOCK)
    case _ => None
  }

  function WaiterOf(p: Pc): Option<SemId> {
    match p
    case WaitP(w) => Some(w)
    case ReAcqP(w) => Some(w)
    case GotW(w) => Some(w)
    case _ => None
  }

  datatype Event =
    | Schedule(a: Action)  // Yield, Dispatch, Fork, Finish
    | Acquire | SetHolder | Release | Wait | WaitSleep | Reacquire | Resume | Signal | Broadcast

  predicate At(m: Monitor, p: Pc) {
    m.k.current.Some? && m.k.current.value in m.pc && m.pc[m.k.current.value] == p
  }

  function PcNow(m: Monitor): Pc
    requires m.k.current.Some? && m.k.current.value in m.pc
  {
    m.pc[m.k.current.value]
  }

  predicate HasPc(m: Monitor) {
    m.k.current.Some? && m.k.current.value in m.pc
  }

  // What the current thread's program does next.
  predicate Wants(m: Monitor, e: Event) {
    match e
    case Schedule(a) =>
      Enabled(m.k, a) && (a.Yield? || a.Dispatch? || a.Fork? || (a.Finish? && At(m, Out)))
    case Acquire => At(m, Out) || At(m, AcqP)
    case SetHolder => At(m, Got)
    case Release => At(m, In)
    case Wait => At(m, In)
    case WaitSleep => HasPc(m) && PcNow(m).WaitP?
    case Reacquire => HasPc(m) && PcNow(m).ReAcqP?
    case Resume => HasPc(m) && PcNow(m).GotW?
    case Signal => At(m, In)
    case Broadcast => At(m, In) || At(m, BCast)
  }

  predicate HeldByCurrent(m: Monitor) {
    m.lockHolder == m.k.current
  }

  // ... and may: the ASSERTs on that path hold and every semaphore it touches is alive.
  predicate CanDo(m: Monitor, e: Event) {
    && Wants(m, e)
    && match e
       case Schedule(_) => true
       case Acquire => CanP(m.k, LOCK)
       case SetHolder => Free(m.k)
       case Release => HeldByCurrent(m) && CanV(m.k, LOCK)
       case Wait => HeldByCurrent(m) && CanNew(m.k, m.nextSem) && LOCK in m.k.sems
       case WaitSleep => CanP(m.k, PcNow(m).w)
       case Reacquire => CanP(m.k, LOCK)
       case Resume => CanDelete(m.k, PcNow(m).w)
       case Signal => HeldByCurrent(m) && Free(m.k) && (m.waitQueue != [] ==> CanV(m.k, m.waitQueue[0]))
       case Broadcast =>
         Free(m.k) && (m.waitQueue != [] ==> HeldByCurrent(m) && CanV(m.k, m.waitQueue[0]))
  }

  function Goto(m: Monitor, p: Pc): map<Tid, Pc>
    requires m.k.current.Some?
  {
    m.pc[m.k.current.value := p]
  }

  // Signal's body: V the first waiter, if there is one.
  function SignalFirst(m: Monitor): Monitor
    requires m.waitQueue != [] ==> CanV(m.k, m.waitQueue[0])
  {
    if m.waitQueue == [] then m
    else m.(k := VStep(m.k, m.waitQueue[0]), waitQueue := m.waitQueue[1..], signalled := m.signalled + [m.waitQueue[0]])
  }

  function Do(m: Monitor, e: Event): Monitor
    requires CanDo(m, e)
  {
    match e
    case Schedule(a) =>
      var k' := Step(m.k, a);
      if a.Fork? then m.(k := k', pc := m.pc[a.t := Out])
      else if a.Finish? then m.(k := k', pc := m.pc - {m.k.current.value})
      else m.(k := k')
    case Acquire =>
      if PSucceeds(m.k, LOCK) then m.(k := PStep(m.k, LOCK), pc := Goto(m, Got), owner := m.k.current)
      else m.(k := PStep(m.k, LOCK), pc := Goto(m, AcqP))
    case SetHolder =>
      m.(lockHolder := m.k.current, pc := Goto(m, In))
    case Release =>
      m.(k := VStep(m.k, LOCK), lockHolder := None, pc := Goto(m, Out), owner := None)
    case Wait =>
      var w := m.nextSem;
      m.(k := VStep(NewStep(m.k, w, 0), LOCK), lockHolder := None, waitQueue := m.waitQueue + [w],
         pc := Goto(m, WaitP(w)), owner := None, client := m.client[w := m.k.current.value],
         waited := m.waited + [w], nextSem := w + 1)
    case WaitSleep =>
      var w := PcNow(m).w;
      if PSucceeds(m.k, w) then m.(k := PStep(m.k, w), pc := Goto(m, ReAcqP(w)))
      else m.(k := PStep(m.k, w))
    case Reacquire =>
      if PSucceeds(m.k, LOCK) then m.(k := PStep(m.k, LOCK), pc := Goto(m, GotW(PcNow(m).w)), owner := m.k.current)
      else m.(k := PStep(m.k, LOCK))
    case Resume =>
      m.(k := DeleteStep(m.k, PcNow(m).w), lockHolder := m.k.current, pc := Goto(m, In), client := m.client - {PcNow(m).w})
    case Signal => SignalFirst(m)
    case Broadcast =>
      if m.waitQueue == [] then m.(pc := Goto(m, In)) else SignalFirst(m).(pc := Goto(m, BCast))
  }

  function Start(t: Tid): Monitor {
    var k := NewStep(Boot(t), LOCK, 1);
    Monitor(k, None, [], map[t := Out], None, map[], [], [], 1)
  }

  // ----- the invariant -----

  // Mutual exclusion and the lock's semaphore.
  ghost predicate LockOk(m: Monitor) {
    && LOCK in m.k.sems
    && m.k.sems[LOCK].value == (if m.owner.None? then 1 else 0)
    && (forall t :: t in m.pc ==> (Holding(m.pc[t]) <==> m.owner == Some(t)))
    && (m.owner.Some? ==> m.owner.value in m.pc)
    && (forall t :: t in m.pc ==> (m.pc[t].In? || m.pc[t].BCast? <==> m.lockHolder == Some(t)))
    && (m.lockHolder.Some? ==> m.lockHolder == m.owner)
  }

  // Each waiter semaphore belongs to one thread and gets exactly one V, when it
  // leaves the queue; the owner consumes it with exactly one P.
  ghost predicate WaiterOk(m: Monitor, w: SemId) {
    && w in m.k.sems && w != LOCK && w < m.nextSem
    && w in m.client && m.client[w] in m.pc
    && WaiterOf(m.pc[m.client[w]]) == Some(w)
    && m.k.sems[w].initial == 0
    && m.k.sems[w].vs == (if w in m.waitQueue then 0 else 1)
    && m.k.sems[w].ps == (if m.pc[m.client[w]].WaitP? then 0 else 1)
    && (w in m.waitQueue ==> m.pc[m.client[w]].WaitP?)
  }

  ghost predicate ClientsOk(m: Monitor) {
    && (forall w :: w in m.client ==> WaiterOk(m, w))
    && (forall t :: t in m.pc && WaiterOf(m.pc[t]).Some? ==>
         WaiterOf(m.pc[t]).value in m.client && m.client[WaiterOf(m.pc[t]).value] == t)
    && (forall s :: s in m.k.sems <==> s == LOCK || s in m.client)
    && (forall i :: 0 <= i < |m.waitQueue| ==> m.waitQueue[i] in m.client)
    && (forall i, j :: 0 <= i < j < |m.waitQueue| ==> m.waitQueue[i] != m.waitQueue[j])
    && 0 < m.nextSem
  }

  // The semaphore each thread is at P of.
  function Waits(m: Monitor): (at: Sites)
    ensures at.Keys == m.pc.Keys
  {
    map t | t in m.pc :: WaitsOn(m.pc[t])
  }

  ghost predicate SleepersOk(m: Monitor) {
    Asleep(m.k, Waits(m))
  }

  ghost predicate MInv(m: Monitor) {
    && Inv(m.k)
    && LockOk(m) && ClientsOk(m) && SleepersOk(m)
    && m.waited == m.signalled + m.waitQueue
  }

  lemma StartInv(t: Tid)
    ensures MInv(Start(t))
  {
    BootInv(t);
    StepInv(Boot(t), New(LOCK, 1));
  }

  // ----- no ASSERT fails, no deleted semaphore is touched -----

  // Only a waiter itself waits on its semaphore, and only in WaitP.
  lemma NobodyElseWaits(m: Monitor, t: Tid)
    requires ClientsOk(m) && t in m.pc && m.pc[t].GotW?
    ensures forall u :: u in m.pc ==> WaitsOn(m.pc[u]) != Some(m.pc[t].w)
  {
    assert WaiterOk(m, m.pc[t].w);
    forall u | u in m.pc
      ensures WaitsOn(m.pc[u]) != Some(m.pc[t].w)
    {
      assert WaiterOf(m.pc[u]) == Some(m.pc[t].w) ==> u == t;
    }
  }

  // Nobody sleeps on, or is on the way out of, the semaphore of a thread that is
  // past its P.
  lemma WaiterUnused(m: Monitor, t: Tid)
    requires MInv(m) && t in m.pc && m.pc[t].GotW?
    ensures var w := m.pc[t].w; w in m.k.sems && m.k.sems[w].queue == [] && w !in m.k.woken.Values
  {
    hide Inv, LockOk, Asleep;
    NobodyElseWaits(m, t);
    assert WaiterOk(m, m.pc[t].w);
    NobodyAt(m.k, Waits(m), m.pc[t].w);
  }

  /** Whatever the current thread does next, the ASSERTs on the way hold and every
      semaphore it uses is alive. */
  lemma NeverFails(m: Monitor, e: Event)
    requires MInv(m) && Wants(m, e)
    ensures CanDo(m, e)
  {
    hide Inv, Asleep;
    if e.Schedule? {
    } else if WaitsOn(PcNow(m)).Some? {
      WaitNeverFails(m, e);
    } else {
      AwakeIsFree(m.k, Waits(m));
      if e.Resume? { WaiterUnused(m, m.k.current.value); }
      if e.Wait? { NextSemIsNew(m); }
      if m.waitQueue != [] { FirstWaiter(m); }
    }
  }

  lemma WaitNeverFails(m: Monitor, e: Event)
    requires MInv(m) && Wants(m, e) && !e.Schedule? && WaitsOn(PcNow(m)).Some?
    ensures CanDo(m, e)
  {
    hide Inv, Asleep;
    if e.WaitSleep? { assert WaiterOk(m, PcNow(m).w); }
    MayP(m.k, Waits(m), WaitsOn(PcNow(m)).value);
  }

  lemma NextSemIsNew(m: Monitor)
    requires ClientsOk(m)
    ensures m.nextSem !in m.client && m.nextSem !in m.waitQueue && m.nextSem != LOCK
  {
    assert m.nextSem in m.client ==> WaiterOk(m, m.nextSem);
  }

  lemma FirstWaiter(m: Monitor)
    requires ClientsOk(m) && m.waitQueue != []
    ensures var w := m.waitQueue[0];
      w in m.k.sems && w in m.client && m.client[w] in m.pc && m.pc[m.client[w]] == WaitP(w)
    ensures m.waitQueue[0] !in m.waitQueue[1..]
  {
    assert WaiterOk(m, m.waitQueue[0]);
  }

  // ----- the steps keep the invariant -----

  lemma KernelKept(m: Monitor, e: Event)
    requires MInv(m) && CanDo(m, e)
    ensures Inv(Do(m, e).k)
  {
    hide Inv, LockOk, ClientsOk, SleepersOk;
    match e
    case Schedule(a) => StepInv(m.k, a);
    case Acquire => PInv(m.k, LOCK);
    case SetHolder =>
    case Release => VInv(m.k, LOCK);
    case Wait => StepInv(m.k, New(m.nextSem, 0)); VInv(NewStep(m.k, m.nextSem, 0), LOCK);
    case WaitSleep => PInv(m.k, PcNow(m).w);
    case Reacquire => PInv(m.k, LOCK);
    case Resume => StepInv(m.k, Delete(PcNow(m).w));
    case Signal => if m.waitQueue != [] { VInv(m.k, m.waitQueue[0]); }
    case Broadcast => if m.waitQueue != [] { VInv(m.k, m.waitQueue[0]); }
  }

  // The current thread t moves to p; owner and lockHolder may change from t or
  // nobody to t or nobody.
  lemma LockAfter(m: Monitor, m': Monitor, t: Tid, p: Pc)
    requires LockOk(m) && t in m.pc && m'.pc == m.pc[t := p]
    requires LOCK in m'.k.sems && m'.k.sems[LOCK].value == (if m'.owner.None? then 1 else 0)
    requires m'.owner == m.owner || (m.owner in {None, Some(t)} && m'.owner in {None, Some(t)})
    requires m'.lockHolder == m.lockHolder || (m.lockHolder in {None, Some(t)} && m'.lockHolder in {None, Some(t)})
    requires Holding(p) <==> m'.owner == Some(t)
    requires p.In? || p.BCast? <==> m'.lockHolder == Some(t)
    requires m'.lockHolder.Some? ==> m'.lockHolder == m'.owner
    ensures LockOk(m')
  {
  }

  // A thread outside the monitor appears, disappears, or neither.
  lemma LockUntouched(m: Monitor, m': Monitor, t: Tid)
    requires LockOk(m) && m'.owner == m.owner && m'.lockHolder == m.lockHolder
    requires LOCK in m'.k.sems && m'.k.sems[LOCK].value == m.k.sems[LOCK].value
    requires m'.pc == m.pc || (t !in m.pc && m'.pc == m.pc[t := Out]) || (t in m.pc && m.pc[t] == Out && m'.pc == m.pc - {t})
    ensures LockOk(m')
  {
  }

  lemma LockAfterSchedule(m: Monitor, a: Action)
    requires MInv(m) && CanDo(m, Schedule(a))
    ensures LockOk(Do(m, Schedule(a)))
  {
    hide Inv, ClientsOk;
    assert m.pc.Keys == m.k.status.Keys;
    assert LOCK in m.k.sems;
    hide SleepersOk, LockOk;
    LockUntouched(m, Do(m, Schedule(a)), if a.Fork? then a.t else if m.k.current.Some? then m.k.current.value else 0);
  }

  lemma LockAfterLockStep(m: Monitor, e: Event)
    requires MInv(m) && CanDo(m, e)
    requires e.Acquire? || e.SetHolder? || e.Release? || e.Reacquire?
    ensures LockOk(Do(m, e))
  {
    hide Inv, SleepersOk, ClientsOk;
    var m', t := Do(m, e), m.k.current.value;
    LockAfter(m, m', t, if t in m'.pc then m'.pc[t] else Out);
  }

  lemma LockAfterWaitStep(m: Monitor, e: Event)
    requires MInv(m) && CanDo(m, e)
    requires e.Wait? || e.WaitSleep? || e.Resume?
    ensures LockOk(Do(m, e))
  {
    hide Inv, SleepersOk;
    var m', t := Do(m, e), m.k.current.value;
    assert WaiterOf(PcNow(m)).Some? ==> WaiterOk(m, WaiterOf(PcNow(m)).value);
    hide ClientsOk;
    LockAfter(m, m', t, if t in m'.pc then m'.pc[t] else Out);
  }

  lemma LockAfterSignal(m: Monitor, e: Event)
    requires MInv(m) && CanDo(m, e)
    requires e.Signal? || e.Broadcast?
    ensures LockOk(Do(m, e))
  {
    hide Inv, SleepersOk;
    var m', t := Do(m, e), m.k.current.value;
    assert m.waitQueue != [] ==> WaiterOk(m, m.waitQueue[0]);
    hide ClientsOk;
    LockAfter(m, m', t, if t in m'.pc then m'.pc[t] else Out);
  }

  lemma LockKept(m: Monitor, e: Event)
    requires MInv(m) && CanDo(m, e)
    ensures LockOk(Do(m, e))
  {
    hide Inv, SleepersOk, LockOk, ClientsOk, MInv, CanDo;
    match e
    case Schedule(a) => LockAfterSchedule(m, a);
    case Acquire => LockAfterLockStep(m, e);
    case SetHolder => LockAfterLockStep(m, e);
    case Release => LockAfterLockStep(m, e);
    case Wait => LockAfterWaitStep(m, e);
    case WaitSleep => LockAfterWaitStep(m, e);
    case Reacquire => LockAfterLockStep(m, e);
    case Resume => LockAfterWaitStep(m, e);
    case Signal => LockAfterSignal(m, e);
    case Broadcast => LockAfterSignal(m, e);
  }

  // A step of the current thread that ends at pc p, seen by the account of sleepers.
  lemma WaitsAfter(m: Monitor, m': Monitor, p: Pc)
    requires m.k.current.Some? && m.k.current.value in m.pc && m'.pc == m.pc[m.k.current.value := p]
    ensures Waits(m') == Waits(m)[m.k.current.value := WaitsOn(p)]
  {
  }

  lemma SleepersAfterSchedule(m: Monitor, a: Action)
    requires MInv(m) && CanDo(m, Schedule(a))
    ensures SleepersOk(Do(m, Schedule(a)))
  {
    hide Inv, LockOk, ClientsOk, Asleep;
    AsleepAfterSchedule(m.k, a, Waits(m));
    assert Waits(Do(m, Schedule(a))) == SitesAfter(m.k, a, Waits(m));
  }

  lemma SleepersAfterP(m: Monitor, e: Event)
    requires MInv(m) && CanDo(m, e) && (e.Acquire? || e.WaitSleep? || e.Reacquire?)
    ensures SleepersOk(Do(m, e))
  {
    hide Inv, LockOk, ClientsOk, Asleep;
    var m', t := Do(m, e), m.k.current.value;
    WaitsAfter(m, m', m'.pc[t]);
    AsleepAfterP(m.k, if e.WaitSleep? then PcNow(m).w else LOCK, Waits(m), WaitsOn(m'.pc[t]));
  }

  lemma SleepersAfterV(m: Monitor, e: Event)
    requires MInv(m) && CanDo(m, e)
    requires e.Release? || ((e.Signal? || e.Broadcast?) && m.waitQueue != [])
    ensures SleepersOk(Do(m, e))
  {
    hide Inv, LockOk, ClientsOk, Asleep;
    var m', t := Do(m, e), m.k.current.value;
    WaitsAfter(m, m', m'.pc[t]);
    AsleepAfterMove(m.k, Waits(m), WaitsOn(m'.pc[t]));
    AsleepAfterV(m.k, if e.Release? then LOCK else m.waitQueue[0], Waits(m'));
  }

  lemma SleepersAfterWait(m: Monitor)
    requires MInv(m) && CanDo(m, Wait)
    ensures SleepersOk(Do(m, Wait))
  {
    hide Inv, LockOk, ClientsOk, Asleep;
    var m', k1 := Do(m, Wait), NewStep(m.k, m.nextSem, 0);
    StepInv(m.k, New(m.nextSem, 0));
    WaitsAfter(m, m', WaitP(m.nextSem));
    AsleepAfterMove(m.k, Waits(m), Some(m.nextSem));
    AsleepSameThreads(m.k, k1, Waits(m'));
    AsleepAfterV(k1, LOCK, Waits(m'));
  }

  lemma SleepersAfterLocal(m: Monitor, e: Event)
    requires MInv(m) && CanDo(m, e)
    requires e.SetHolder? || e.Resume? || ((e.Signal? || e.Broadcast?) && m.waitQueue == [])
    ensures SleepersOk(Do(m, e))
  {
    hide Inv, LockOk, ClientsOk, Asleep;
    var m', t := Do(m, e), m.k.current.value;
    WaitsAfter(m, m', m'.pc[t]);
    AsleepAfterMove(m.k, Waits(m), WaitsOn(m'.pc[t]));
    AsleepSameThreads(m.k, m'.k, Waits(m'));
  }

  lemma SleepersKept(m: Monitor, e: Event)
    requires MInv(m) && CanDo(m, e)
    ensures SleepersOk(Do(m, e))
  {
    hide Inv, LockOk, ClientsOk, SleepersOk, MInv;
    match e
    case Schedule(a) => SleepersAfterSchedule(m, a);
    case Acquire => SleepersAfterP(m, e);
    case SetHolder => SleepersAfterLocal(m, e);
    case Release => SleepersAfterV(m, e);
    case Wait => SleepersAfterWait(m);
    case WaitSleep => SleepersAfterP(m, e);
    case Reacquire => SleepersAfterP(m, e);
    case Resume => SleepersAfterLocal(m, e);
    case Signal => if m.waitQueue != [] { SleepersAfterV(m, e); } else { SleepersAfterLocal(m, e); }
    case Broadcast => if m.waitQueue != [] { SleepersAfterV(m, e); } else { SleepersAfterLocal(m, e); }
  }

  // What WaiterOk depends on has not changed for w.
  lemma WaiterSame(m: Monitor, m': Monitor, w: SemId)
    requires WaiterOk(m, w) && w in m'.k.sems && w in m'.client && m'.client[w] == m.client[w]
    requires m'.k.sems[w].initial == 0 && m'.k.sems[w].vs == m.k.sems[w].vs && m'.k.sems[w].ps == m.k.sems[w].ps
    requires m.client[w] in m'.pc && m'.pc[m.client[w]] == m.pc[m.client[w]]
    requires w in m'.waitQueue <==> w in m.waitQueue
    requires m.nextSem <= m'.nextSem
    ensures WaiterOk(m', w)
  {
  }

  // Steps by a thread that is not in Wait, on the lock's semaphore or on none.
  lemma ClientsUntouched(m: Monitor, m': Monitor)
    requires ClientsOk(m) && m'.client == m.client && m'.waitQueue == m.waitQueue && m'.nextSem == m.nextSem
    requires forall s :: s in m'.k.sems <==> s in m.k.sems
    requires forall s :: s in m.k.sems && s != LOCK ==>
      m'.k.sems[s].initial == m.k.sems[s].initial && m'.k.sems[s].vs == m.k.sems[s].vs && m'.k.sems[s].ps == m.k.sems[s].ps
    requires forall t :: t in m'.pc && !(t in m.pc && m'.pc[t] == m.pc[t]) ==> WaiterOf(m'.pc[t]).None?
    requires forall t :: t in m.pc && !(t in m'.pc && m'.pc[t] == m.pc[t]) ==> WaiterOf(m.pc[t]).None?
    ensures ClientsOk(m')
  {
    forall w | w in m.client
      ensures WaiterOk(m', w)
    {
      assert WaiterOk(m, w);
      WaiterSame(m, m', w);
    }
  }

  lemma ClientsAfterWait(m: Monitor)
    requires MInv(m) && CanDo(m, Wait)
    ensures ClientsOk(Do(m, Wait))
  {
    hide Inv, LockOk, SleepersOk;
    var m', n := Do(m, Wait), m.nextSem;
    NextSemIsNew(m);
    forall w | w in m'.client
      ensures WaiterOk(m', w)
    {
      if w != n {
        assert WaiterOk(m, w);
        WaiterSame(m, m', w);
      }
    }
  }

  // A waiter still queued cannot get through its P: its semaphore is at 0.
  lemma QueuedWaiterIsZero(m: Monitor, w: SemId)
    requires MInv(m) && w in m.waitQueue
    ensures w in m.k.sems && m.k.sems[w].value == 0
  {
    hide Placed, WokenOk, LockOk, SleepersOk;
    assert WaiterOk(m, w);
    assert SemOk(m.k, w);
  }

  lemma ClientsAfterSleep(m: Monitor)
    requires MInv(m) && CanDo(m, WaitSleep)
    ensures ClientsOk(Do(m, WaitSleep))
  {
    hide Inv, LockOk, SleepersOk;
    var m', n := Do(m, WaitSleep), PcNow(m).w;
    if !PSucceeds(m.k, n) {
      ClientsUntouched(m, m');
    } else {
      assert n !in m.waitQueue by {
        if n in m.waitQueue { QueuedWaiterIsZero(m, n); }
      }
      assert WaiterOk(m, n);
      forall w | w in m'.client
        ensures WaiterOk(m', w)
      {
        assert WaiterOk(m, w);
        if w != n { WaiterSame(m, m', w); }
      }
    }
  }

  lemma ClientsAfterReacquire(m: Monitor)
    requires MInv(m) && CanDo(m, Reacquire)
    ensures ClientsOk(Do(m, Reacquire))
  {
    hide Inv, LockOk, SleepersOk;
    var m', n := Do(m, Reacquire), PcNow(m).w;
    forall w | w in m'.client
      ensures WaiterOk(m', w)
    {
      assert WaiterOk(m, w);
      if w != n { WaiterSame(m, m', w); }
    }
  }

  lemma ClientsAfterResume(m: Monitor)
    requires MInv(m) && CanDo(m, Resume)
    ensures ClientsOk(Do(m, Resume))
  {
    hide Inv, LockOk, SleepersOk;
    var m', n := Do(m, Resume), PcNow(m).w;
    assert WaiterOk(m, n);
    forall w | w in m'.client
      ensures WaiterOk(m', w)
    {
      assert WaiterOk(m, w);
      WaiterSame(m, m', w);
    }
  }

  lemma SplitFirst(q: seq<SemId>)
    requires q != [] && forall i, j :: 0 <= i < j < |q| ==> q[i] != q[j]
    ensures forall w :: w in q <==> w == q[0] || w in q[1..]
    ensures q[0] !in q[1..]
  {
  }

  lemma ClientsAfterSignal(m: Monitor, m': Monitor)
    requires MInv(m) && Free(m.k) && m.waitQueue != [] && CanV(m.k, m.waitQueue[0])
    requires m' == SignalFirst(m).(pc := m'.pc)
    requires forall t :: t in m'.pc <==> t in m.pc
    requires forall t :: t in m.pc && m'.pc[t] != m.pc[t] ==> WaiterOf(m.pc[t]).None? && WaiterOf(m'.pc[t]).None?
    ensures ClientsOk(m')
  {
    hide Inv, LockOk, SleepersOk;
    var n := m.waitQueue[0];
    SplitFirst(m.waitQueue);
    forall w | w in m'.client
      ensures WaiterOk(m', w)
    {
      assert WaiterOk(m, w);
      if w != n { WaiterSame(m, m', w); }
    }
  }

  lemma ClientsAfterSchedule(m: Monitor, a: Action)
    requires MInv(m) && CanDo(m, Schedule(a))
    ensures ClientsOk(Do(m, Schedule(a)))
  {
    hide Inv, LockOk;
    assert m.pc.Keys == m.k.status.Keys;
    hide SleepersOk;
    ClientsUntouched(m, Do(m, Schedule(a)));
  }

  lemma ClientsAfterLockStep(m: Monitor, e: Event)
    requires MInv(m) && CanDo(m, e)
    requires e.Acquire? || e.Release?
    ensures ClientsOk(Do(m, e))
  {
    hide Inv, LockOk, SleepersOk, ClientsOk;
    ClientsUntouched(m, Do(m, e));
  }

  lemma ClientsAfterLocalStep(m: Monitor, e: Event)
    requires MInv(m) && CanDo(m, e)
    requires e.SetHolder? || ((e.Signal? || e.Broadcast?) && m.waitQueue == [])
    ensures ClientsOk(Do(m, e))
  {
    hide Inv, LockOk, SleepersOk, ClientsOk;
    ClientsUntouched(m, Do(m, e));
  }

  lemma ClientsKept(m: Monitor, e: Event)
    requires MInv(m) && CanDo(m, e)
    ensures ClientsOk(Do(m, e))
  {
    hide Inv, LockOk, SleepersOk, ClientsOk, MInv;
    match e
    case Schedule(a) => ClientsAfterSchedule(m, a);
    case Acquire => ClientsAfterLockStep(m, e);
    case SetHolder => ClientsAfterLocalStep(m, e);
    case Release => ClientsAfterLockStep(m, e);
    case Wait => ClientsAfterWait(m);
    case WaitSleep => ClientsAfterSleep(m);
    case Reacquire => ClientsAfterReacquire(m);
    case Resume => ClientsAfterResume(m);
    case Signal => if m.waitQueue != [] { ClientsAfterSignal(m, Do(m, e)); } else { ClientsAfterLocalStep(m, e); }
    case Broadcast => if m.waitQueue != [] { ClientsAfterSignal(m, Do(m, e)); } else { ClientsAfterLocalStep(m, e); }
  }

  /** Every step keeps the invariant. */
  lemma DoInv(m: Monitor, e: Event)
    requires MInv(m) && CanDo(m, e)
    ensures MInv(Do(m, e))
  {
    hide Inv, LockOk, SleepersOk, ClientsOk;
    KernelKept(m, e);
    LockKept(m, e);
    SleepersKept(m, e);
    ClientsKept(m, e);
    var m' := Do(m, e);
    assert m'.waited == m'.signalled + m'.waitQueue by {
      if m.waitQueue != [] { assert m.waitQueue == [m.waitQueue[0]] + m.waitQueue[1..]; }
    }
  }

  // ----- what the invariant says about every run -----

  ghost predicate IsRun(states: seq<Monitor>, events: seq<Event>) {
    && |states| == |events| + 1
    && (exists t :: states[0] == Start(t))
    && forall i :: 0 <= i < |events| ==> Wants(states[i], events[i]) && Follows(states[i], events[i], states[i + 1])
  }

  // A step whose ASSERTs hold leads where Do says; nothing is said about the others,
  // and NeverFails shows that there are none.
  ghost predicate Follows(m: Monitor, e: Event, m': Monitor) {
    CanDo(m, e) ==> m' == Do(m, e)
  }

  lemma {:induction false} RunInv(states: seq<Monitor>, events: seq<Event>, n: nat)
    requires IsRun(states, events) && n < |states|
    ensures MInv(states[n])
    ensures n < |events| ==> CanDo(states[n], events[n]) && states[n + 1] == Do(states[n], events[n])
  {
    hide MInv, Wants, CanDo, Do;
    if n == 0 {
      var t :| states[0] == Start(t);
      StartInv(t);
    } else {
      RunInv(states, events, n - 1);
      DoInv(states[n - 1], events[n - 1]);
    }
    if n < |events| { NeverFails(states[n], events[n]); }
  }

  /** At most one thread is between the end of P in Acquire and V in Release; the
      inner semaphore is 0 or 1; a non-null lockHolder is that thread. */
  lemma MutualExclusion(states: seq<Monitor>, events: seq<Event>, n: nat)
    requires IsRun(states, events) && n < |states|
    ensures var m := states[n];
      && (forall t, u :: t in m.pc && u in m.pc && Holding(m.pc[t]) && Holding(m.pc[u]) ==> t == u)
      && LOCK in m.k.sems && m.k.sems[LOCK].value <= 1
      && (m.k.sems[LOCK].value == 1 <==> forall t :: t in m.pc ==> !Holding(m.pc[t]))
      && (m.lockHolder.Some? ==> m.lockHolder.value in m.pc && Holding(m.pc[m.lockHolder.value]))
  {
    hide Inv, ClientsOk, SleepersOk;
    RunInv(states, events, n);
    var m := states[n];
    if m.owner.Some? { assert Holding(m.pc[m.owner.value]); }
  }

  lemma WaiterFacts(m: Monitor, w: SemId)
    requires MInv(m) && w in m.client
    ensures w in m.k.sems && m.k.sems[w].vs <= 1 && m.client[w] in m.pc
    ensures m.pc[m.client[w]].WaitP? ==> m.k.sems[w].value == if w in m.waitQueue then 0 else 1
    ensures w in m.waitQueue ==> m.pc[m.client[w]] == WaitP(w)
  {
    hide Placed, WokenOk, LockOk, SleepersOk;
    assert WaiterOk(m, w) && SemOk(m.k, w);
  }

  lemma WaiterIsClient(m: Monitor, t: Tid)
    requires MInv(m) && t in m.pc && WaiterOf(m.pc[t]).Some?
    ensures var w := WaiterOf(m.pc[t]).value; w in m.client && m.client[w] == t
  {
    hide Inv, LockOk, SleepersOk;
  }

  lemma WaitersFifo(m: Monitor)
    requires m.waited == m.signalled + m.waitQueue
    ensures m.signalled <= m.waited && m.waited[|m.signalled|..] == m.waitQueue
  {
  }

  /** A waiter's private semaphore gets at most one V; a signal that comes between
      the waiter's Release and its P is kept in the value; waiters are signalled in
      the order in which they waited. */
  lemma SignalsKept(states: seq<Monitor>, events: seq<Event>, n: nat)
    requires IsRun(states, events) && n < |states|
    ensures var m := states[n];
      && (forall w :: w in m.client ==> w in m.k.sems && m.k.sems[w].vs <= 1)
      && (forall t :: t in m.pc && m.pc[t].WaitP? ==>
           m.pc[t].w in m.k.sems
           && m.k.sems[m.pc[t].w].value == if m.pc[t].w in m.waitQueue then 0 else 1)
      && m.signalled <= m.waited && m.waited[|m.signalled|..] == m.waitQueue
  {
    hide IsRun, Inv, LockOk, SleepersOk, ClientsOk;
    RunInv(states, events, n);
    var m := states[n];
    WaitersFifo(m);
    forall w | w in m.client
      ensures w in m.k.sems && m.k.sems[w].vs <= 1
    {
      WaiterFacts(m, w);
    }
    forall t | t in m.pc && m.pc[t].WaitP?
      ensures m.pc[t].w in m.k.sems && m.k.sems[m.pc[t].w].value == if m.pc[t].w in m.waitQueue then 0 else 1
    {
      WaiterIsClient(m, t);
      WaiterFacts(m, m.pc[t].w);
    }
  }

  predicate Quiescent(m: Monitor) {
    m.k.current.None? && m.k.ready == []
  }

  /** No lost signal and no deadlock on the lock: when nothing can run, the lock is
      free and every thread there is sits in Wait and has not been signalled. */
  lemma QuiescentMonitor(m: Monitor)
    requires MInv(m) && Quiescent(m)
    ensures m.owner.None? && m.lockHolder.None?
    ensures forall t :: t in m.pc ==> m.pc[t].WaitP? && m.pc[t].w in m.waitQueue
  {
    hide Inv, SleepersOk, ClientsOk;
    forall t | t in m.pc
      ensures m.pc[t].WaitP? && m.pc[t].w in m.waitQueue
    {
      QuiescentThread(m, t);
    }
  }

  lemma QuiescentThread(m: Monitor, t: Tid)
    requires MInv(m) && Quiescent(m) && t in m.pc
    ensures m.pc[t].WaitP? && m.pc[t].w in m.waitQueue
  {
    hide Inv, Asleep, ClientsOk;
    QuiescentAsleep(m.k, Waits(m), t);
    if m.owner.Some? { QuiescentAsleep(m.k, Waits(m), m.owner.value); }  // a holder does not wait
    if m.pc[t].WaitP? {
      WaiterIsClient(m, t);
      WaiterFacts(m, m.pc[t].w);
    }
  }

  // Scheduling steps move no thread that is inside a monitor operation.
  lemma ScheduleKeepsPc(m: Monitor, a: Action, t: Tid)
    requires MInv(m) && CanDo(m, Schedule(a)) && t in m.pc && !m.pc[t].Out?
    ensures var m' := Do(m, Schedule(a));
      t in m'.pc && m'.pc[t] == m.pc[t] && m'.waited == m.waited && m'.waitQueue == m.waitQueue
  {
    hide Inv, LockOk, ClientsOk;
    assert t in m.k.status.Keys;
  }

  // While t broadcasts, nobody else can queue up, and t stops only at the end.
  lemma BroadcastStep(m: Monitor, e: Event, t: Tid)
    requires MInv(m) && CanDo(m, e) && t in m.pc && m.pc[t].BCast?
    ensures var m' := Do(m, e);
      t in m'.pc && m'.waited == m.waited
      && (m'.pc[t].BCast? || (m'.pc[t].In? && m'.waitQueue == []))
  {
    hide Inv, ClientsOk, SleepersOk;
    assert Holding(m.pc[t]);
    if e.Schedule? { ScheduleKeepsPc(m, e.a, t); }
  }

  /** When a Broadcast returns, every thread that was waiting when it began has been
      signalled. */
  lemma {:induction false} BroadcastSignalsAll(states: seq<Monitor>, events: seq<Event>, t: Tid, i: nat, j: nat)
    requires IsRun(states, events) && i < j < |states|
    requires forall n :: i <= n < j ==> t in states[n].pc && states[n].pc[t].BCast?
    requires t in states[j].pc && !states[j].pc[t].BCast?
    ensures states[j].signalled == states[i].waited
  {
    hide MInv, Wants, CanDo, Do;
    BroadcastFreezes(states, events, t, i, j);
    RunInv(states, events, j - 1);
    BroadcastStep(states[j - 1], events[j - 1], t);
    RunInv(states, events, j);
    QueueDrained(states[j]);
  }

  lemma QueueDrained(m: Monitor)
    requires MInv(m) && m.waitQueue == []
    ensures m.signalled == m.waited
  {
    hide Inv, LockOk, ClientsOk, SleepersOk;
  }

  lemma {:induction false} BroadcastFreezes(states: seq<Monitor>, events: seq<Event>, t: Tid, i: nat, j: nat)
    requires IsRun(states, events) && i <= j < |states|
    requires forall n :: i <= n < j ==> t in states[n].pc && states[n].pc[t].BCast?
    ensures states[j].waited == states[i].waited
  {
    hide MInv, Wants, CanDo, Do;
    if i < j {
      BroadcastFreezes(states, events, t, i, j - 1);
      RunInv(states, events, j - 1);
      BroadcastStep(states[j - 1], events[j - 1], t);
    }
  }

  // ----- first come, first signalled, read off the events -----

  ghost predicate Increasing(s: seq<SemId>, below: SemId) {
    && (forall i :: 0 <= i < |s| ==> s[i] < below)
    && forall i, j :: 0 <= i < j < |s| ==> s[i] < s[j]
  }

  lemma WaitedStep(m: Monitor, e: Event)
    requires CanDo(m, e) && Increasing(m.waited, m.nextSem)
    ensures Do(m, e).waited == m.waited + if e.Wait? then [m.nextSem] else []
    ensures Increasing(Do(m, e).waited, Do(m, e).nextSem)
  {
  }

  lemma {:induction false} WaitedGrows(states: seq<Monitor>, events: seq<Event>, i: nat, n: nat)
    requires IsRun(states, events) && i <= n < |states|
    ensures states[i].waited <= states[n].waited && Increasing(states[n].waited, states[n].nextSem)
  {
    hide MInv, Wants, CanDo, Do;
    if n == 0 {
    } else {
      WaitedGrows(states, events, if i < n then i else n - 1, n - 1);
      RunInv(states, events, n - 1);
      WaitedStep(states[n - 1], events[n - 1]);
    }
  }

  // The Wait at event i queues a semaphore of its own, and stays queued or is signalled.
  lemma WaitAt(states: seq<Monitor>, events: seq<Event>, i: nat)
    requires IsRun(states, events) && i < |events| && events[i] == Wait
    ensures HasPc(states[i]) && i + 1 < |states|
    ensures states[i + 1].pc == states[i].pc[states[i].k.current.value := WaitP(states[i].nextSem)]
    ensures states[i + 1].waitQueue == states[i].waitQueue + [states[i].nextSem]
    ensures states[i + 1].waited == states[i].waited + [states[i].nextSem]
  {
    hide MInv;
    RunInv(states, events, i);
  }

  lemma SuffixMembers(waited: seq<SemId>, signalled: seq<SemId>, queue: seq<SemId>, a: nat, b: nat, below: SemId)
    requires waited == signalled + queue && Increasing(waited, below) && a < b < |waited| && waited[a] in queue
    ensures waited[b] in queue
  {
    var k :| 0 <= k < |queue| && queue[k] == waited[a];
    assert waited[|signalled| + k] == waited[a];
    assert a == |signalled| + k;
    assert waited[b] == queue[b - |signalled|];
  }

  /** Nobody is signalled before a thread that began its Wait earlier: of two Waits, as
      long as the semaphore of the first is queued, so is that of the second. */
  lemma SignalOrder(states: seq<Monitor>, events: seq<Event>, i: nat, j: nat, n: nat)
    requires IsRun(states, events) && i < j < n < |states| && events[i] == Wait && events[j] == Wait
    requires states[i].nextSem in states[n].waitQueue
    ensures states[j].nextSem in states[n].waitQueue
  {
    hide IsRun, MInv;
    IsRunLength(states, events);
    WaitAt(states, events, i);
    WaitAt(states, events, j);
    WaitedGrows(states, events, i + 1, j);
    WaitedGrows(states, events, j + 1, n);
    RunInv(states, events, n);
    WaitedIs(states[n]);
    var a, b := |states[i].waited|, |states[j].waited|;
    assert states[n].waited[a] == states[i].nextSem && states[n].waited[b] == states[j].nextSem;
    SuffixMembers(states[n].waited, states[n].signalled, states[n].waitQueue, a, b, states[n].nextSem);
  }

  lemma IsRunLength(states: seq<Monitor>, events: seq<Event>)
    requires IsRun(states, events)
    ensures |states| == |events| + 1
  {
  }

  lemma WaitedIs(m: Monitor)
    requires MInv(m)
    ensures m.waited == m.signalled + m.waitQueue
  {
    hide Inv, LockOk, ClientsOk, SleepersOk;
  }

  // A blocked thread is at the P of the semaphore it is blocked on.
  lemma BlockedAt(m: Monitor, u: Tid)
    requires MInv(m) && u in m.k.status && m.k.status[u].BLOCKED?
    ensures u in m.pc && WaitsOn(m.pc[u]) == Some(m.k.status[u].on)
  {
    hide Inv, LockOk, ClientsOk;
    assert u in Waits(m).Keys;
  }

  lemma QueuedIsBlocked(k: Kernel, s: SemId, t: Tid)
    requires Inv(k) && s in k.sems
    ensures t in k.sems[s].queue <==> t in k.status && k.status[t] == BLOCKED(s)
  {
    hide SemOk;
  }

  // A waiter that is blocked is at the head of the queue of its semaphore.
  lemma SleepsThere(m: Monitor, u: Tid, w: SemId)
    requires MInv(m) && u in m.pc && m.pc[u] == WaitP(w) && w in m.k.sems
    requires u in m.k.status && m.k.status[u].BLOCKED?
    ensures m.k.sems[w].queue != [] && m.k.sems[w].queue[0] == u
  {
    hide MInv, Inv;
    KernelIn(m);
    BlockedAt(m, u);
    WaiterIsClient(m, u);
    NotTheLock(m, w, u);
    QueuedIsBlocked(m.k, w, u);
    var q := m.k.sems[w].queue;
    var v := q[0];
    QueuedIsBlocked(m.k, w, v);
    BlockedAt(m, v);
    WaiterIsClient(m, v);
  }

  lemma KernelIn(m: Monitor)
    requires MInv(m)
    ensures Inv(m.k)
  {
    hide Inv, LockOk, ClientsOk, SleepersOk;
  }

  lemma NotTheLock(m: Monitor, w: SemId, u: Tid)
    requires MInv(m) && u in m.pc && m.pc[u] == WaitP(w)
    ensures w != LOCK
  {
    hide Inv, LockOk, SleepersOk;
    assert WaiterOk(m, w);
  }

  /** A Signal with anybody waiting ends exactly one wait, that of the first in the
      queue: it makes that thread's semaphore 1, and the thread ready if it sleeps
      there; the signaller goes on holding the lock. */
  lemma SignalEndsOneWait(m: Monitor) returns (u: Tid)
    requires MInv(m) && CanDo(m, Signal) && m.waitQueue != []
    ensures u in m.pc && m.pc[u] == WaitP(m.waitQueue[0])
    ensures m.waitQueue[0] in m.k.sems
    ensures EndsWait(m, Do(m, Signal), u, m.waitQueue[0])
  {
    hide MInv;
    var w := m.waitQueue[0];
    Waiter0(m);
    u := m.client[w];
    WaiterFacts(m, w);
    if u in m.k.status && m.k.status[u].BLOCKED? { SleepsThere(m, u, w); }
  }

  ghost predicate EndsWait(m: Monitor, m': Monitor, u: Tid, w: SemId) {
    && m.waitQueue == [w] + m'.waitQueue && m'.pc == m.pc
    && w in m'.k.sems && m'.k.sems[w].value == 1 && m'.lockHolder == m.k.current == m'.k.current
    && (u in m.k.status && m.k.status[u].BLOCKED? ==> m'.k.ready == m.k.ready + [u])
    && (forall x :: x in m.k.sems && x != w ==> x in m'.k.sems && m'.k.sems[x] == m.k.sems[x])
  }

  lemma Waiter0(m: Monitor)
    requires MInv(m) && m.waitQueue != []
    ensures m.waitQueue[0] in m.client
  {
    hide Inv, LockOk, SleepersOk;
    FirstWaiter(m);
  }

  // The thread sleeps at that P, which it will try again.
  ghost predicate AsleepAt(m: Monitor, t: Tid, s: SemId) {
    && m.k.current.None? && t in m.k.status && m.k.status[t] == BLOCKED(s)
    && t in m.pc && WaitsOn(m.pc[t]) == Some(s)
  }

  /** The order of the steps in Acquire, Release, Wait and Broadcast: each leads to the
      next, and a P that does not get through is tried again. */
  lemma ProgramOrder(m: Monitor, e: Event)
    requires MInv(m) && CanDo(m, e) && !e.Schedule?
    ensures m.k.current.Some?
    ensures var m', t := Do(m, e), m.k.current.value;
      match e
      case Acquire => if m'.k.current.Some? then At(m', Got) else AsleepAt(m', t, LOCK)
      case SetHolder => At(m', In) && m'.lockHolder == Some(t)
      case Release => At(m', Out) && m'.lockHolder.None? && LOCK in m'.k.sems && m'.k.sems[LOCK].value == 1
      case Wait => At(m', WaitP(m.nextSem)) && m'.lockHolder.None? && LOCK in m'.k.sems && m'.k.sems[LOCK].value == 1
      case WaitSleep =>
        if m'.k.current.Some? then HasPc(m') && PcNow(m').ReAcqP? else exists w :: AsleepAt(m', t, w) && m.pc[t] == WaitP(w)
      case Reacquire => if m'.k.current.Some? then HasPc(m') && PcNow(m').GotW? else AsleepAt(m', t, LOCK)
      case Resume => At(m', In) && m'.lockHolder == Some(t)
      case Signal => At(m', In)
      case Broadcast => if m.waitQueue == [] then At(m', In) else At(m', BCast)
      case Schedule(_) => true
  {
    hide Inv, ClientsOk, SleepersOk;
  }
}
