/** The thread scheduler and the semaphores (threads/scheduler.cc, thread.cc and
    Semaphore::P/V of synch.cc) as a system of atomic steps.

    NachOS runs on one processor.  The CPU changes hands only inside Sleep, inside
    Yield, and when interrupts go from off to on, so the code between two such
    points is one step here.  Interrupt handlers may call V at any time when
    interrupts are on, or while the processor idles. */
module Kernels {
  import opened Options
  import opened Sequences

  type Tid = nat
  type SemId = nat

  // Thread::status; a blocked thread also says which semaphore's queue it is on.
  datatype Status = RUNNING | READY | BLOCKED(on: SemId)

  // value and queue are the C fields; the rest counts the completed operations.
  datatype Sem = Sem(value: nat, queue: seq<Tid>, initial: nat, ps: nat, vs: nat)

  /** current: kernel->currentThread, None while Sleep spins in Interrupt::Idle.
      woken:   threads V has taken off a queue that have not yet retested the value
               in the loop of P; such a thread runs with interrupts off.
      dying:   Scheduler::toBeDestroyed. */
  datatype Kernel = Kernel(
    current: Option<Tid>,
    ready: seq<Tid>,
    sems: map<SemId, Sem>,
    status: map<Tid, Status>,
    woken: map<Tid, SemId>,
    dying: Option<Tid>)

  // ----- the steps -----

  // The current thread runs with interrupts on.
  predicate Free(k: Kernel) {
    k.current.Some? && k.current.value !in k.woken
  }

  // Semaphore::P, from its first test of the value or from waking up in Sleep.
  predicate CanP(k: Kernel, s: SemId) {
    && k.current.Some? && s in k.sems
    && (k.current.value in k.woken ==> k.woken[k.current.value] == s)
  }

  predicate PSucceeds(k: Kernel, s: SemId)
    requires CanP(k, s)
  {
    k.sems[s].value > 0
  }

  function PStep(k: Kernel, s: SemId): Kernel
    requires CanP(k, s)
  {
    var t, sem := k.current.value, k.sems[s];
    if sem.value == 0 then  // queue->Append(currentThread); currentThread->Sleep(FALSE)
      k.(current := None, woken := k.woken - {t}, status := k.status[t := BLOCKED(s)],
         sems := k.sems[s := sem.(queue := sem.queue + [t])])
    else
      k.(woken := k.woken - {t}, sems := k.sems[s := sem.(value := sem.value - 1, ps := sem.ps + 1)])
  }

  // Semaphore::V, by the current thread or by an interrupt handler.
  predicate CanV(k: Kernel, s: SemId) {
    s in k.sems && (k.current.Some? ==> Free(k))
  }

  function VStep(k: Kernel, s: SemId): Kernel
    requires CanV(k, s)
  {
    var sem := k.sems[s];
    if sem.queue == [] then
      k.(sems := k.sems[s := sem.(value := sem.value + 1, vs := sem.vs + 1)])
    else  // ReadyToRun(queue->RemoveFront())
      var t := sem.queue[0];
      k.(ready := k.ready + [t], status := k.status[t := READY], woken := k.woken[t := s],
         sems := k.sems[s := sem.(value := sem.value + 1, vs := sem.vs + 1, queue := sem.queue[1..])])
  }

  // Thread::Yield: take the next thread first, then append the old one.
  function YieldStep(k: Kernel): Kernel
    requires Free(k)
  {
    if k.ready == [] then k
    else
      var t, next := k.current.value, k.ready[0];
      k.(current := Some(next), ready := k.ready[1..] + [t], status := k.status[t := READY][next := RUNNING])
  }

  // The end of Sleep: FindNextToRun, Run and CheckToBeDestroyed.
  predicate CanDispatch(k: Kernel) {
    k.current.None? && k.ready != []
  }

  function DispatchStep(k: Kernel): Kernel
    requires CanDispatch(k)
  {
    k.(current := Some(k.ready[0]), ready := k.ready[1..], status := k.status[k.ready[0] := RUNNING], dying := None)
  }

  // Thread::Fork of a new thread.
  predicate CanFork(k: Kernel, t: Tid) {
    Free(k) && t !in k.status && k.dying != Some(t)
  }

  function ForkStep(k: Kernel, t: Tid): Kernel
    requires CanFork(k, t)
  {
    k.(ready := k.ready + [t], status := k.status[t := READY])
  }

  // Thread::Finish: Sleep(TRUE) never returns.
  function FinishStep(k: Kernel): Kernel
    requires Free(k)
  {
    k.(current := None, status := k.status - {k.current.value}, dying := k.current)
  }

  // `new Semaphore` and `delete`; the destructor assumes no one is waiting.
  predicate CanNew(k: Kernel, s: SemId) {
    Free(k) && s !in k.sems
  }

  function NewStep(k: Kernel, s: SemId, v: nat): Kernel
    requires CanNew(k, s)
  {
    k.(sems := k.sems[s := Sem(v, [], v, 0, 0)])
  }

  predicate CanDelete(k: Kernel, s: SemId) {
    Free(k) && s in k.sems && k.sems[s].queue == [] && s !in k.woken.Values
  }

  function DeleteStep(k: Kernel, s: SemId): Kernel
    requires CanDelete(k, s)
  {
    k.(sems := k.sems - {s})
  }

  datatype Action =
    | P(s: SemId) | V(s: SemId) | Yield | Dispatch | Fork(t: Tid) | Finish | New(s: SemId, v: nat) | Delete(s: SemId)

  predicate Enabled(k: Kernel, a: Action) {
    match a
    case P(s) => CanP(k, s)
    case V(s) => CanV(k, s)
    case Yield => Free(k)
    case Dispatch => CanDispatch(k)
    case Fork(t) => CanFork(k, t)
    case Finish => Free(k)
    case New(s, _) => CanNew(k, s)
    case Delete(s) => CanDelete(k, s)
  }

  function Step(k: Kernel, a: Action): Kernel
    requires Enabled(k, a)
  {
    match a
    case P(s) => PStep(k, s)
    case V(s) => VStep(k, s)
    case Yield => YieldStep(k)
    case Dispatch => DispatchStep(k)
    case Fork(t) => ForkStep(k, t)
    case Finish => FinishStep(k)
    case New(s, v) => NewStep(k, s, v)
    case Delete(s) => DeleteStep(k, s)
  }

  // ----- the invariant -----

  // Woken threads still inside P(s).
  function Woken(k: Kernel, s: SemId): set<Tid> {
    set t | t in k.woken && k.woken[t] == s
  }

  // The queue holds exactly the threads with status x, each once.
  ghost predicate Holds(q: seq<Tid>, status: map<Tid, Status>, x: Status) {
    && Distinct(q)
    && forall t :: t in q <==> t in status && status[t] == x
  }

  function OnCpu(k: Kernel): seq<Tid> {
    if k.current.Some? then [k.current.value] else []
  }

  // Every thread is in exactly one place, the one its status names.
  ghost predicate Placed(k: Kernel) {
    && Holds(OnCpu(k), k.status, RUNNING)
    && Holds(k.ready, k.status, READY)
    && (forall s :: s in k.sems ==> Holds(k.sems[s].queue, k.status, BLOCKED(s)))
    && (forall t :: t in k.status && k.status[t].BLOCKED? ==> k.status[t].on in k.sems)
  }

  lemma HoldsAppend(q: seq<Tid>, status: map<Tid, Status>, x: Status, t: Tid)
    requires Holds(q, status, x) && !(t in status && status[t] == x)
    ensures Holds(q + [t], status[t := x], x)
  {
  }

  lemma HoldsPop(q: seq<Tid>, status: map<Tid, Status>, x: Status, y: Status)
    requires Holds(q, status, x) && q != [] && y != x
    ensures Holds(q[1..], status[q[0] := y], x)
    ensures q[0] in status && status[q[0]] == x
  {
    assert q[0] in q;
  }

  lemma HoldsOther(q: seq<Tid>, status: map<Tid, Status>, x: Status, t: Tid, y: Status)
    requires Holds(q, status, x) && !(t in status && status[t] == x) && y != x
    ensures Holds(q, status[t := y], x)
  {
  }

  lemma HoldsWithout(q: seq<Tid>, status: map<Tid, Status>, x: Status, t: Tid)
    requires Holds(q, status, x) && !(t in status && status[t] == x)
    ensures Holds(q, status - {t}, x)
  {
  }

  lemma HoldsNone(status: map<Tid, Status>, x: Status)
    requires forall t :: t in status ==> status[t] != x
    ensures Holds([], status, x)
  {
  }

  // The thread a queue of one holds.
  lemma HoldsOne(status: map<Tid, Status>, x: Status, t: Tid)
    requires Holds([t], status, x)
    ensures t in status && status[t] == x
  {
    assert t in [t];
  }

  ghost predicate WokenOk(k: Kernel) {
    forall t :: t in k.woken ==> t in k.status && !k.status[t].BLOCKED? && k.woken[t] in k.sems
  }

  // Accounting, and no lost wake-up: while threads are queued, every unit of the
  // value has a woken thread on its way to claim it.
  ghost predicate SemOk(k: Kernel, s: SemId)
    requires s in k.sems
  {
    var sem := k.sems[s];
    && sem.value + sem.ps == sem.initial + sem.vs
    && (sem.queue != [] ==> sem.value <= |Woken(k, s)|)
  }

  ghost predicate Inv(k: Kernel) {
    && Placed(k) && WokenOk(k)
    && (forall s :: s in k.sems ==> SemOk(k, s))
    && (k.current.Some? ==> k.dying.None?)
  }

  function Boot(t: Tid): Kernel {
    Kernel(Some(t), [], map[], map[t := RUNNING], map[], None)
  }

  lemma BootInv(t: Tid)
    ensures Inv(Boot(t))
  {
  }

  lemma PPlaced(k: Kernel, s: SemId)
    requires Placed(k) && CanP(k, s)
    ensures Placed(PStep(k, s))
  {
    hide Holds;
    if k.sems[s].value == 0 {
      Depart(k, BLOCKED(s), k.sems[s].queue, BLOCKED(s));
      forall r | r in k.sems && r != s
        ensures Holds(k.sems[r].queue, k.status[k.current.value := BLOCKED(s)], BLOCKED(r))
      {
        HoldsOther(k.sems[r].queue, k.status, BLOCKED(r), k.current.value, BLOCKED(s));
      }
      HoldsOther(k.ready, k.status, READY, k.current.value, BLOCKED(s));
    }
  }

  // The current thread leaves the CPU for the end of queue q.
  lemma Depart(k: Kernel, x: Status, q: seq<Tid>, y: Status)
    requires k.current.Some? && Holds(OnCpu(k), k.status, RUNNING) && Holds(q, k.status, x) && x == y != RUNNING
    ensures k.current.value in k.status && k.status[k.current.value] == RUNNING
    ensures Holds([], k.status[k.current.value := x], RUNNING)
    ensures Holds(q + [k.current.value], k.status[k.current.value := x], x)
  {
    HoldsOne(k.status, RUNNING, k.current.value);
    HoldsPop([k.current.value], k.status, RUNNING, x);
    HoldsAppend(q, k.status, x, k.current.value);
  }

  lemma PSemOk(k: Kernel, s: SemId, r: SemId)
    requires Inv(k) && CanP(k, s) && r in k.sems
    ensures SemOk(PStep(k, s), r)
  {
    hide Placed;
    WokenShrinks(k, PStep(k, s), k.current.value, r);
  }

  // Removing t from `woken` costs at most one, and only the semaphore it waited on.
  lemma WokenShrinks(k: Kernel, k': Kernel, t: Tid, r: SemId)
    requires k'.woken == k.woken - {t}
    ensures t in k.woken && k.woken[t] == r ==> |Woken(k', r)| == |Woken(k, r)| - 1
    ensures !(t in k.woken && k.woken[t] == r) ==> Woken(k', r) == Woken(k, r)
  {
    assert Woken(k', r) == Woken(k, r) - {t};
  }

  lemma PInv(k: Kernel, s: SemId)
    requires Inv(k) && CanP(k, s)
    ensures Inv(PStep(k, s))
  {
    var k' := PStep(k, s);
    PPlaced(k, s);
    forall r | r in k'.sems
      ensures SemOk(k', r)
    {
      PSemOk(k, s, r);
    }
    assert WokenOk(k');
  }

  lemma VPlaced(k: Kernel, s: SemId)
    requires Placed(k) && CanV(k, s)
    ensures Placed(VStep(k, s))
    ensures var q := k.sems[s].queue; q != [] ==> q[0] in k.status && k.status[q[0]] == BLOCKED(s)
  {
    hide Holds;
    var q := k.sems[s].queue;
    if q != [] {
      HoldsPop(q, k.status, BLOCKED(s), READY);
      HoldsAppend(k.ready, k.status, READY, q[0]);
      HoldsOther(OnCpu(k), k.status, RUNNING, q[0], READY);
      forall r | r in k.sems && r != s
        ensures Holds(k.sems[r].queue, k.status[q[0] := READY], BLOCKED(r))
      {
        HoldsOther(k.sems[r].queue, k.status, BLOCKED(r), q[0], READY);
      }
    }
  }

  lemma WokenGrows(k: Kernel, k': Kernel, t: Tid, s: SemId, r: SemId)
    requires t !in k.woken && k'.woken == k.woken[t := s]
    ensures |Woken(k', r)| == |Woken(k, r)| + if r == s then 1 else 0
  {
    assert Woken(k', r) == Woken(k, r) + if r == s then {t} else {};
  }

  lemma VSemOk(k: Kernel, s: SemId, r: SemId)
    requires Inv(k) && CanV(k, s) && r in k.sems
    ensures SemOk(VStep(k, s), r)
  {
    hide Holds;
    var k' := VStep(k, s);
    assert SemOk(k, r);
    if k.sems[s].queue != [] {
      VPlaced(k, s);
      WokenGrows(k, k', k.sems[s].queue[0], s, r);
    } else {
      assert Woken(k', r) == Woken(k, r);
    }
  }

  lemma VInv(k: Kernel, s: SemId)
    requires Inv(k) && CanV(k, s)
    ensures Inv(VStep(k, s))
  {
    hide Placed, SemOk;
    var k' := VStep(k, s);
    VPlaced(k, s);
    forall r | r in k'.sems
      ensures SemOk(k', r)
    {
      VSemOk(k, s, r);
    }
    assert WokenOk(k');
  }

  lemma RunningIs(k: Kernel)
    requires Placed(k)
    ensures forall t :: k.current == Some(t) <==> t in k.status && k.status[t] == RUNNING
    ensures forall t :: t in k.ready <==> t in k.status && k.status[t] == READY
  {
    assert forall t :: t in OnCpu(k) <==> k.current == Some(t);
  }

  lemma YieldPlaced(k: Kernel)
    requires Placed(k) && Free(k)
    ensures Placed(YieldStep(k))
    ensures k.ready != [] ==> k.ready[0] in k.status
  {
    hide Holds;
    if k.ready != [] {
      var t, next := k.current.value, k.ready[0];
      HoldsOne(k.status, RUNNING, t);
      HoldsPop(k.ready, k.status, READY, RUNNING);
      // the next thread leaves the ready list before the old one joins it
      var mid := k.status[t := READY];
      assert mid[next := RUNNING] == k.status[next := RUNNING][t := READY];
      HoldsAppend(k.ready[1..], k.status[next := RUNNING], READY, t);
      HoldsPop([t], k.status, RUNNING, READY);
      HoldsAppend([], mid, RUNNING, next);
      assert [t][1..] == [] && [] + [next] == [next];
      forall r | r in k.sems
        ensures Holds(k.sems[r].queue, mid[next := RUNNING], BLOCKED(r))
      {
        HoldsOther(k.sems[r].queue, k.status, BLOCKED(r), t, READY);
        HoldsOther(k.sems[r].queue, mid, BLOCKED(r), next, RUNNING);
      }
    }
  }

  lemma DispatchPlaced(k: Kernel)
    requires Placed(k) && CanDispatch(k)
    ensures Placed(DispatchStep(k))
    ensures k.ready[0] in k.status
  {
    hide Holds;
    var next := k.ready[0];
    HoldsPop(k.ready, k.status, READY, RUNNING);
    HoldsAppend([], k.status, RUNNING, next);
    assert [] + [next] == [next];
    forall r | r in k.sems
      ensures Holds(k.sems[r].queue, k.status[next := RUNNING], BLOCKED(r))
    {
      HoldsOther(k.sems[r].queue, k.status, BLOCKED(r), next, RUNNING);
    }
  }

  lemma ForkPlaced(k: Kernel, t: Tid)
    requires Placed(k) && CanFork(k, t)
    ensures Placed(ForkStep(k, t))
  {
    hide Holds;
    HoldsAppend(k.ready, k.status, READY, t);
    HoldsOther(OnCpu(k), k.status, RUNNING, t, READY);
    forall r | r in k.sems
      ensures Holds(k.sems[r].queue, k.status[t := READY], BLOCKED(r))
    {
      HoldsOther(k.sems[r].queue, k.status, BLOCKED(r), t, READY);
    }
  }

  lemma FinishPlaced(k: Kernel)
    requires Placed(k) && Free(k)
    ensures Placed(FinishStep(k))
  {
    hide Holds;
    var t := k.current.value;
    HoldsOne(k.status, RUNNING, t);
    HoldsWithout(k.ready, k.status, READY, t);
    HoldsPop([t], k.status, RUNNING, READY);
    HoldsWithout([], k.status[t := READY], RUNNING, t);
    assert [t][1..] == [] && k.status[t := READY] - {t} == k.status - {t};
    forall r | r in k.sems
      ensures Holds(k.sems[r].queue, k.status - {t}, BLOCKED(r))
    {
      HoldsWithout(k.sems[r].queue, k.status, BLOCKED(r), t);
    }
  }

  lemma NewPlaced(k: Kernel, s: SemId, v: nat)
    requires Placed(k) && CanNew(k, s)
    ensures Placed(NewStep(k, s, v))
  {
    hide Holds;
    HoldsNone(k.status, BLOCKED(s));
  }

  lemma DeletePlaced(k: Kernel, s: SemId)
    requires Placed(k) && CanDelete(k, s)
    ensures Placed(DeleteStep(k, s))
  {
    assert Holds([], k.status, BLOCKED(s));
  }

  // The steps that touch neither values nor woken threads.
  lemma OtherInv(k: Kernel, k': Kernel)
    requires Inv(k) && Placed(k') && k'.woken == k.woken && (k'.current.Some? ==> k'.dying.None?)
    requires forall t :: t in k.woken ==> t in k'.status && !k'.status[t].BLOCKED? && k.woken[t] in k'.sems
    requires forall r :: r in k'.sems ==>
      (r in k.sems && k'.sems[r] == k.sems[r]) || (k'.sems[r].queue == [] && k'.sems[r].ps == k'.sems[r].vs == 0
                                                  && k'.sems[r].value == k'.sems[r].initial)
    ensures Inv(k')
  {
    hide Placed;
    forall r | r in k'.sems
      ensures SemOk(k', r)
    {
      if r in k.sems { assert SemOk(k, r); }
      assert Woken(k', r) == Woken(k, r);
    }
  }

  /** Every step keeps the invariant. */
  lemma StepInv(k: Kernel, a: Action)
    requires Inv(k) && Enabled(k, a)
    ensures Inv(Step(k, a))
  {
    hide Placed, SemOk;
    match a
    case P(s) => PInv(k, s);
    case V(s) => VInv(k, s);
    case Yield => YieldPlaced(k); RunningIs(k); OtherInv(k, Step(k, a));
    case Dispatch => DispatchPlaced(k); OtherInv(k, Step(k, a));
    case Fork(t) => ForkPlaced(k, t); OtherInv(k, Step(k, a));
    case Finish => FinishPlaced(k); RunningIs(k); OtherInv(k, Step(k, a));
    case New(s, v) => NewPlaced(k, s, v); OtherInv(k, Step(k, a));
    case Delete(s) => DeletePlaced(k, s); OtherInv(k, Step(k, a));
  }

  // ----- what the invariant says about every run -----

  /** A run: each state follows from the one before by an enabled action. */
  ghost predicate IsRun(states: seq<Kernel>, actions: seq<Action>) {
    && |states| == |actions| + 1
    && (exists t :: states[0] == Boot(t))
    && forall i :: 0 <= i < |actions| ==> Enabled(states[i], actions[i]) && states[i + 1] == Step(states[i], actions[i])
  }

  lemma {:induction false} RunInv(states: seq<Kernel>, actions: seq<Action>, n: nat)
    requires IsRun(states, actions) && n < |states|
    ensures Inv(states[n])
  {
    hide Inv, Enabled, Step;
    if n == 0 {
      var t :| states[0] == Boot(t);
      BootInv(t);
    } else {
      RunInv(states, actions, n - 1);
      assert states[n] == Step(states[n - 1], actions[n - 1]);
      StepInv(states[n - 1], actions[n - 1]);
    }
  }

  // The semaphore value over a run, counted from the events alone.
  function Completed(states: seq<Kernel>, actions: seq<Action>, s: SemId, n: nat): int
    requires n <= |actions| && |actions| < |states|
    requires forall i :: 0 <= i < |actions| ==> Enabled(states[i], actions[i])
  {
    if n == 0 then 0
    else Completed(states, actions, s, n - 1) + Effect(states[n - 1], actions[n - 1], s)
  }

  // A completed V counts +1, a completed P -1, a P that goes to sleep nothing.
  function Effect(k: Kernel, a: Action, s: SemId): int
    requires Enabled(k, a)
  {
    match a
    case V(r) => if r == s then 1 else 0
    case P(r) => if r == s && PSucceeds(k, r) then -1 else 0
    case _ => 0
  }

  /** While a semaphore lives, its value is what it had plus the Vs minus the
      completed Ps since, and a P completes only when that is positive. */
  lemma {:induction false} ValueIsCount(states: seq<Kernel>, actions: seq<Action>, s: SemId, m: nat, n: nat)
    requires IsRun(states, actions) && m <= n <= |actions|
    requires forall i :: m <= i <= n ==> s in states[i].sems
    requires forall i :: m <= i < n ==> actions[i] != Delete(s)
    ensures states[n].sems[s].value
         == states[m].sems[s].value + Completed(states, actions, s, n) - Completed(states, actions, s, m)
  {
    hide Step, Effect, Enabled;
    if m < n {
      ValueIsCount(states, actions, s, m, n - 1);
      assert states[n] == Step(states[n - 1], actions[n - 1]);
      EffectOnValue(states[n - 1], actions[n - 1], s);
    }
  }

  lemma EffectOnValue(k: Kernel, a: Action, s: SemId)
    requires Enabled(k, a) && s in k.sems && a != Delete(s)
    ensures Step(k, a).sems[s].value == k.sems[s].value + Effect(k, a, s)
  {
  }

  // The queue of a semaphore, or the ready list.
  function QueueAt(k: Kernel, where: Option<SemId>): seq<Tid> {
    if where.None? then k.ready else if where.value in k.sems then k.sems[where.value].queue else []
  }

  ghost predicate Ahead(q: seq<Tid>, t: Tid, u: Tid) {
    exists i, j :: 0 <= i < j < |q| && q[i] == t && q[j] == u
  }

  /** The ASSERT(!IsInList(item)) of List::Append never fires: not in the queue of a
      semaphore, not in the ready list. */
  lemma AppendAssertsHold(k: Kernel)
    requires Inv(k)
    ensures forall s :: CanP(k, s) ==> k.current.value !in k.sems[s].queue
    ensures forall s :: CanV(k, s) && k.sems[s].queue != [] ==> k.sems[s].queue[0] !in k.ready
    ensures Free(k) && k.ready != [] ==> k.current.value !in k.ready[1..]
    ensures forall t :: CanFork(k, t) ==> t !in k.ready
    ensures Free(k) ==> k.dying.None?  // ASSERT(toBeDestroyed == NULL) in Scheduler::Run
  {
    RunningIs(k);
  }

  // The ways a queue changes in a step: at the front it loses, at the back it gains.
  ghost predicate Moved(q: seq<Tid>, q': seq<Tid>) {
    || q' == q || q' == [] || (q != [] && q' == q[1..])
    || (exists x :: x !in q && q' == q + [x])
    || (q != [] && exists x :: x !in q && q' == q[1..] + [x])
  }

  lemma PQueueMoves(k: Kernel, s: SemId, where: Option<SemId>)
    requires Inv(k) && CanP(k, s)
    ensures Moved(QueueAt(k, where), QueueAt(PStep(k, s), where))
  {
    var t, q := k.current.value, QueueAt(k, where);
    if where == Some(s) && !PSucceeds(k, s) {
      NotQueued(k, s);
      assert QueueAt(PStep(k, s), where) == q + [t];
    } else {
      assert QueueAt(PStep(k, s), where) == q;
    }
    hide Inv;
  }

  lemma NotQueued(k: Kernel, s: SemId)
    requires Inv(k) && CanP(k, s)
    ensures k.current.value !in k.sems[s].queue
  {
    AppendAssertsHold(k);
  }

  lemma NotReady(k: Kernel, s: SemId)
    requires Inv(k) && CanV(k, s) && k.sems[s].queue != []
    ensures k.sems[s].queue[0] !in k.ready
  {
    AppendAssertsHold(k);
  }

  lemma VQueueMoves(k: Kernel, s: SemId, where: Option<SemId>)
    requires Inv(k) && CanV(k, s)
    ensures Moved(QueueAt(k, where), QueueAt(VStep(k, s), where))
  {
    var q, q' := QueueAt(k, where), QueueAt(VStep(k, s), where);
    if where.None? && k.sems[s].queue != [] {
      NotReady(k, s);
      assert q' == q + [k.sems[s].queue[0]];
    } else if where == Some(s) && k.sems[s].queue != [] {
      assert q' == q[1..];
    } else {
      assert q' == q;
    }
    hide Inv;
  }

  lemma OtherQueueMoves(k: Kernel, a: Action, where: Option<SemId>)
    requires Inv(k) && Enabled(k, a) && !a.P? && !a.V?
    ensures Moved(QueueAt(k, where), QueueAt(Step(k, a), where))
  {
    AppendAssertsHold(k);
    hide Inv;
  }

  lemma QueueMoves(k: Kernel, a: Action, where: Option<SemId>)
    requires Inv(k) && Enabled(k, a)
    ensures Moved(QueueAt(k, where), QueueAt(Step(k, a), where))
  {
    hide Inv, Enabled, Step, Moved, QueueAt;
    match a
    case P(s) => StepIsP(k, s); PQueueMoves(k, s, where);
    case V(s) => StepIsV(k, s); VQueueMoves(k, s, where);
    case _ => OtherQueueMoves(k, a, where);
  }

  lemma StepIsP(k: Kernel, s: SemId)
    requires Enabled(k, P(s))
    ensures CanP(k, s) && Step(k, P(s)) == PStep(k, s)
  {
  }

  lemma StepIsV(k: Kernel, s: SemId)
    requires Enabled(k, V(s))
    ensures CanV(k, s) && Step(k, V(s)) == VStep(k, s)
  {
  }

  lemma HeadGone(q: seq<Tid>)
    requires Distinct(q) && q != []
    ensures q[0] !in q[1..]
  {
  }

  lemma StillAhead(q: seq<Tid>, q': seq<Tid>, t: Tid, u: Tid)
    requires Distinct(q) && Ahead(q, t, u) && Moved(q, q') && t in q'
    ensures Ahead(q', t, u)
  {
    var i, j :| 0 <= i < j < |q| && q[i] == t && q[j] == u;
    HeadGone(q);
    if |q'| >= |q| && q'[..|q|] == q {
      assert q'[i] == t && q'[j] == u;
    } else {
      assert t in q[1..] ==> i > 0;
      assert i > 0 ==> q'[i - 1] == t && q'[j - 1] == u;
    }
  }

  lemma QueueUnique(k: Kernel, where: Option<SemId>)
    requires Inv(k)
    ensures Distinct(QueueAt(k, where))
  {
  }

  /** First come, first served: on a semaphore's queue and on the ready list, a thread
      that is ahead of another stays ahead of it for as long as it waits there. */
  lemma {:induction false} NoOvertaking(states: seq<Kernel>, actions: seq<Action>, where: Option<SemId>, t: Tid, u: Tid,
                                        m: nat, n: nat)
    requires IsRun(states, actions) && m <= n <= |actions|
    requires Ahead(QueueAt(states[m], where), t, u)
    requires forall i :: m <= i <= n ==> t in QueueAt(states[i], where)
    ensures Ahead(QueueAt(states[n], where), t, u)
  {
    hide Step, Enabled, Ahead, Moved, Inv;
    if m < n {
      NoOvertaking(states, actions, where, t, u, m, n - 1);
      RunInv(states, actions, n - 1);
      assert states[n] == Step(states[n - 1], actions[n - 1]);
      QueueUnique(states[n - 1], where);
      QueueMoves(states[n - 1], actions[n - 1], where);
      StillAhead(QueueAt(states[n - 1], where), QueueAt(states[n], where), t, u);
    }
  }

  /** No lost wake-up: when nothing can run any more, nobody sleeps on a semaphore
      that has anything to give. */
  lemma QuiescentValue(k: Kernel, s: SemId)
    requires Inv(k) && k.current.None? && k.ready == []
    requires s in k.sems && k.sems[s].queue != []
    ensures k.sems[s].value == 0
  {
    RunningIs(k);
    assert SemOk(k, s);
    assert Woken(k, s) == {};
  }

  /** A thread that finishes is nowhere any more, and is deleted as soon as the next
      thread runs, and not before: until then the processor idles on its stack. */
  lemma {:induction false} FinishedIsDying(states: seq<Kernel>, actions: seq<Action>, i: nat, j: nat)
    requires IsRun(states, actions) && i < j < |states| && actions[i] == Finish
    requires forall m :: i < m < j ==> !actions[m].Dispatch?
    ensures states[i].current.Some? && states[j].dying == states[i].current && states[j].current.None?
    ensures states[i].current.value !in states[j].status
    ensures j < |actions| && actions[j].Dispatch? ==> states[j + 1].dying.None?
  {
    hide Inv;
    RunInv(states, actions, j - 1);
    if i + 1 < j {
      FinishedIsDying(states, actions, i, j - 1);
      if actions[j - 1].V? { VWakesThere(states[j - 1], actions[j - 1].s, states[i].current.value); }
    }
  }

  lemma VWakesThere(k: Kernel, s: SemId, t: Tid)
    requires Inv(k) && CanV(k, s) && t !in k.status
    ensures t !in VStep(k, s).status
  {
    hide SemOk;
    assert k.sems[s].queue != [] ==> k.sems[s].queue[0] in k.sems[s].queue;
  }

  // Each thread is in exactly one of: the CPU, the ready list, one wait queue.
  lemma ExactlyOnePlace(k: Kernel, t: Tid)
    requires Inv(k) && t in k.status
    ensures match k.status[t]
      case RUNNING => k.current == Some(t) && t !in k.ready && forall s :: s in k.sems ==> t !in k.sems[s].queue
      case READY => k.current != Some(t) && t in k.ready && forall s :: s in k.sems ==> t !in k.sems[s].queue
      case BLOCKED(r) => k.current != Some(t) && t !in k.ready
                         && forall s :: s in k.sems ==> (t in k.sems[s].queue <==> s == r)
  {
    RunningIs(k);
  }
}
