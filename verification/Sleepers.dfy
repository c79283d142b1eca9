/** Where threads sleep.  Every protocol built on the kernel says, for each of its
    threads, which semaphore the thread's program is at P of (if any); this module
    keeps that account in step with the kernel. */
module Sleepers {
  import opened Options
  import opened Kernels

  type Sites = map<Tid, Option<SemId>>

  // A thread asleep on a semaphore, or woken from it, is at the P of that semaphore.
  ghost predicate Asleep(k: Kernel, at: Sites) {
    && at.Keys == k.status.Keys
    && (forall t :: t in at && k.status[t].BLOCKED? ==> at[t] == Some(k.status[t].on))
    && (forall t :: t in k.woken ==> t in at && at[t] == Some(k.woken[t]))
  }

  lemma CurrentRuns(k: Kernel)
    requires Inv(k) && k.current.Some?
    ensures k.current.value in k.status && k.status[k.current.value] == RUNNING
  {
    hide SemOk;
    RunningIs(k);
  }

  // The current thread's P: afterwards it is at x, which must be s if it went to sleep.
  lemma AsleepAfterP(k: Kernel, s: SemId, at: Sites, x: Option<SemId>)
    requires Inv(k) && Asleep(k, at) && CanP(k, s)
    requires PSucceeds(k, s) || x == Some(s)
    ensures Asleep(PStep(k, s), at[k.current.value := x])
  {
    hide Inv;
    CurrentRuns(k);
    assert k.current.value in at.Keys;
    assert PStep(k, s).status.Keys == k.status.Keys;
  }

  lemma EmptyOrMember(q: seq<Tid>)
    ensures q == [] || q[0] in q
  {
  }

  lemma FirstIsBlocked(k: Kernel, s: SemId)
    requires Inv(k) && s in k.sems
    ensures var q := k.sems[s].queue; q != [] ==> q[0] in k.status && k.status[q[0]] == BLOCKED(s)
  {
    hide SemOk;
    EmptyOrMember(k.sems[s].queue);
  }

  lemma AsleepAfterV(k: Kernel, s: SemId, at: Sites)
    requires Inv(k) && Asleep(k, at) && CanV(k, s)
    ensures Asleep(VStep(k, s), at)
  {
    hide Inv;
    FirstIsBlocked(k, s);
    assert VStep(k, s).status.Keys == k.status.Keys;
  }

  // The current thread runs on to x.
  lemma AsleepAfterMove(k: Kernel, at: Sites, x: Option<SemId>)
    requires Inv(k) && Asleep(k, at) && Free(k)
    ensures Asleep(k, at[k.current.value := x])
  {
    hide Inv;
    CurrentRuns(k);
    assert k.current.value in at.Keys;
  }

  // New and Delete.
  lemma AsleepSameThreads(k: Kernel, k': Kernel, at: Sites)
    requires Asleep(k, at) && k'.status == k.status && k'.woken == k.woken
    ensures Asleep(k', at)
  {
  }

  function SitesAfter(k: Kernel, a: Action, at: Sites): Sites
    requires Enabled(k, a)
  {
    if a.Fork? then at[a.t := None] else if a.Finish? then at - {k.current.value} else at
  }

  lemma AsleepAfterSchedule(k: Kernel, a: Action, at: Sites)
    requires Inv(k) && Asleep(k, at) && Enabled(k, a)
    requires a.Yield? || a.Dispatch? || a.Fork? || a.Finish?
    ensures Asleep(Step(k, a), SitesAfter(k, a, at))
  {
    hide Inv;
    if k.current.Some? { CurrentRuns(k); }
    if k.ready != [] { ReadyIsReady(k); }
    if a.Fork? { assert a.t !in k.woken; }
    var k', at' := Step(k, a), SitesAfter(k, a, at);
    assert at'.Keys == k'.status.Keys;
  }

  lemma ReadyIsReady(k: Kernel)
    requires Inv(k) && k.ready != []
    ensures k.ready[0] in k.status && k.status[k.ready[0]] == READY
  {
    hide SemOk;
    EmptyOrMember(k.ready);
    RunningIs(k);
  }

  // When nothing can run, every thread sleeps at a P on a semaphore that is at 0.
  lemma QuiescentAsleep(k: Kernel, at: Sites, t: Tid)
    requires Inv(k) && Asleep(k, at) && k.current.None? && k.ready == [] && t in at
    ensures at[t].Some? && at[t].value in k.sems && k.sems[at[t].value].value == 0
  {
    assert t in at.Keys;
    RunningIs(k);
    assert t in k.sems[k.status[t].on].queue;
    QuiescentValue(k, k.status[t].on);
  }

  // A semaphore at whose P no thread is has an empty queue and no one on the way out.
  lemma NobodyAt(k: Kernel, at: Sites, s: SemId)
    requires Inv(k) && Asleep(k, at) && s in k.sems
    requires forall t :: t in at ==> at[t] != Some(s)
    ensures k.sems[s].queue == [] && s !in k.woken.Values
  {
    hide Inv;
    FirstIsBlocked(k, s);
    assert forall t :: t in k.status ==> t in at;
  }

  // A thread that is at no P runs with interrupts on.
  lemma AwakeIsFree(k: Kernel, at: Sites)
    requires Asleep(k, at) && k.current.Some? && k.current.value in at && at[k.current.value].None?
    ensures Free(k)
  {
  }

  // A thread at P(s) may take that step.
  lemma MayP(k: Kernel, at: Sites, s: SemId)
    requires Asleep(k, at) && s in k.sems
    requires k.current.Some? && k.current.value in at && at[k.current.value] == Some(s)
    ensures CanP(k, s)
  {
  }
}
