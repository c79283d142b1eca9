/** What can happen when JoinUpdate is called twice for the same child
    (threads/ptable.cc:33-57): three runs, each up to the step that goes wrong. */
module SecondJoins {
  import opened Options
  import opened FiniteSets
  import opened Kernels
  import opened ProcessTables
  import opened JoinDisciplines

  ghost predicate Reachable(s: System) {
    exists states, events :: IsSafeRun(states, events) && states[|events|] == s
  }

  lemma ReachStart()
    ensures Reachable(Booted(0))
  {
    var start := Booted(0);
    assert IsSafeRun([start], []) && [start][0] == start;
  }

  lemma ReachStep(s: System, e: PEvent)
    requires Reachable(s) && PCan(s, e)
    ensures Reachable(PDo(s, e))
  {
    hide PCan, PDo, Booted;
    var states, events :| IsSafeRun(states, events) && states[|events|] == s;
    var states', events' := states + [PDo(s, e)], events + [e];
    forall i | 0 <= i < |events'|
      ensures PCan(states'[i], events'[i]) && states'[i + 1] == PDo(states'[i], events'[i])
    {
      assert i < |events| ==> states'[i] == states[i] && states'[i + 1] == states[i + 1] && events'[i] == events[i];
    }
    assert IsSafeRun(states', events') && states'[|events'|] == PDo(s, e);
  }

  ghost predicate SemIs(s: System, x: SemId, value: nat, queue: seq<Tid>) {
    x in s.k.sems && s.k.sems[x].value == value && s.k.sems[x].queue == queue
  }

  // What ExecUpdate does, run through without a switch: thread t starts thread u in slot i.
  ghost predicate Started(s: System, s': System, t: Tid, u: Tid, i: nat)
    requires t in s.procs && s.procs[t].me < |s.pcbs| && i < |s.slots|
  {
    var n := |s.pcbs|;
    && s'.procs == s.procs[u := Proc(Running, n)] && s'.bits == s.bits + {i} && s'.slots == s.slots[i := Some(n)]
    && s'.pcbs == s.pcbs + [Pcb(i, s.pcbs[s.procs[t].me].processID, 0, NotJoined, Alive)]
    && s'.k.current == s.k.current && s'.k.ready == s.k.ready + [u] && s'.k.woken == s.k.woken
    && s'.k.status == s.k.status[u := READY] && s'.k.dying == s.k.dying
    && s'.k.sems.Keys == s.k.sems.Keys + {JoinSem(n), ExitSem(n)} && SemIs(s', BMSEM, 1, [])
    && SemIs(s', JoinSem(n), 0, []) && SemIs(s', ExitSem(n), 0, [])
    && (forall x :: x in s.k.sems && x != BMSEM ==> s'.k.sems[x] == s.k.sems[x])
  }

  lemma AfterCreate(s: System, t: Tid, i: nat) returns (s': System)
    requires Reachable(s) && s.k.current == Some(t) && t !in s.k.woken && t in s.procs
    requires s.procs[t].stage.Running? && s.procs[t].me < |s.pcbs| && SemIs(s, BMSEM, 1, [])
    requires LeastFree(s.bits, 0, MAX_PROCESS) == i < MAX_PROCESS == |s.slots|
    requires JoinSem(|s.pcbs|) !in s.k.sems && ExitSem(|s.pcbs|) !in s.k.sems
    ensures Reachable(s')
    ensures var n := |s.pcbs|;
      && s'.procs == s.procs[t := Proc(Forking(n), s.procs[t].me)] && s'.bits == s.bits + {i}
      && s'.slots == s.slots[i := Some(n)]
      && s'.pcbs == s.pcbs + [Pcb(i, s.pcbs[s.procs[t].me].processID, 0, NotJoined, Alive)]
      && s'.k == s.k.(sems := s'.k.sems)
      && s'.k.sems.Keys == s.k.sems.Keys + {JoinSem(n), ExitSem(n)} && SemIs(s', BMSEM, 0, [])
      && SemIs(s', JoinSem(n), 0, []) && SemIs(s', ExitSem(n), 0, [])
      && (forall x :: x in s.k.sems && x != BMSEM ==> s'.k.sems[x] == s.k.sems[x])
  {
    hide Reachable, LeastFree;
    s' := s;
    ReachStep(s', ExecCall);
    s' := PDo(s', ExecCall);
    ReachStep(s', ExecAcquire);
    s' := PDo(s', ExecAcquire);
    ReachStep(s', ExecCreate);
    s' := PDo(s', ExecCreate);
  }

  lemma AfterExec(s: System, t: Tid, u: Tid, i: nat) returns (s': System)
    requires Reachable(s) && s.k.current == Some(t) && t !in s.k.woken && t in s.procs
    requires s.procs[t].stage.Running? && s.procs[t].me < |s.pcbs| && SemIs(s, BMSEM, 1, [])
    requires LeastFree(s.bits, 0, MAX_PROCESS) == i < MAX_PROCESS == |s.slots|
    requires JoinSem(|s.pcbs|) !in s.k.sems && ExitSem(|s.pcbs|) !in s.k.sems
    requires u !in s.k.status && s.k.dying.None? && u != t
    ensures Reachable(s') && Started(s, s', t, u, i)
  {
    hide Reachable, LeastFree;
    s' := AfterCreate(s, t, i);
    ReachStep(s', ExecFork(u));
    s' := PDo(s', ExecFork(u));
    ReachStep(s', ExecDone);
    s' := PDo(s', ExecDone);
  }

  // Main (0) and two children, threads 1 and 2; first says whether PCB 1 is still there.
  ghost predicate ThreeProcesses(s: System, main: Stage, child: Option<Stage>, other: Stage) {
    && 0 in s.procs && s.procs[0] == Proc(main, 0) && 2 in s.procs && s.procs[2] == Proc(other, 2)
    && (child.Some? ==> 1 in s.procs && s.procs[1] == Proc(child.value, 1))
    && s.bits == (if child.Some? then {0, 1, 2} else {0, 2})
    && |s.slots| == MAX_PROCESS && s.slots[0] == Some(0) && s.slots[1] == (if child.Some? then Some(1) else None)
    && s.slots[2] == Some(2)
    && |s.pcbs| == 3 && (forall i :: 0 <= i < 3 ==> s.pcbs[i].processID == i)
    && s.pcbs[0].parentID == -1 && s.pcbs[1].parentID == 0 && s.pcbs[2].parentID == 0
    && s.k.sems.Keys <= {0, 1, 2, 3, 4, 5, 6} && 3 !in s.k.status && SemIs(s, BMSEM, 1, [])
  }

  // Main has started both children.
  lemma AfterFirstExec() returns (s: System)
    ensures Reachable(s)
    ensures s.procs == map[0 := Proc(Running, 0), 1 := Proc(Running, 1)] && s.bits == {0, 1}
    ensures |s.slots| == MAX_PROCESS && s.slots[..3] == [Some(0), Some(1), None]
    ensures |s.pcbs| == 2 && (forall i :: 0 <= i < 2 ==> s.pcbs[i].processID == i)
    ensures s.pcbs[0].parentID == -1 && s.pcbs[1].parentID == 0
    ensures s.k.sems.Keys == {0, 1, 2, 3, 4} && s.k.status.Keys == {0, 1} && SemIs(s, BMSEM, 1, [])
    ensures s.k.current == Some(0) && s.k.ready == [1] && s.k.woken == map[] && s.k.dying.None?
    ensures SemIs(s, 3, 0, []) && SemIs(s, 4, 0, [])
  {
    hide Reachable;
    ReachStart();
    assert LeastFree(Booted(0).bits, 0, MAX_PROCESS) == 1;
    s := AfterExec(Booted(0), 0, 1, 1);
  }

  lemma AfterTwoExecs() returns (s: System)
    ensures Reachable(s) && ThreeProcesses(s, Running, Some(Running), Running)
    ensures s.k.current == Some(0) && s.k.ready == [1, 2] && s.k.woken == map[] && s.k.dying.None?
    ensures SemIs(s, 3, 0, []) && SemIs(s, 4, 0, [])
  {
    hide Reachable;
    var s1 := AfterFirstExec();
    assert LeastFree(s1.bits, 0, MAX_PROCESS) == 2;
    s := AfterExec(s1, 0, 2, 2);
  }

  // Main asks to join child 1 ...
  lemma AfterFirstCall() returns (s: System)
    ensures Reachable(s) && ThreeProcesses(s, JoinWait(1, 1, 1), Some(Running), Running)
    ensures s.k.current == Some(0) && s.k.ready == [1, 2] && s.k.woken == map[] && s.k.dying.None?
    ensures SemIs(s, 3, 0, []) && SemIs(s, 4, 0, [])
  {
    hide Reachable, LeastFree;
    s := AfterTwoExecs();
    ReachStep(s, JoinCall(1));
    s := PDo(s, JoinCall(1));
    ReachStep(s, JoinEnter);
    s := PDo(s, JoinEnter);
  }

  // ... and sleeps until it exits.
  lemma AfterFirstWait() returns (s: System)
    ensures Reachable(s) && ThreeProcesses(s, JoinWait(1, 1, 1), Some(Running), Running)
    ensures s.k.current == Some(1) && s.k.ready == [2] && s.k.woken == map[] && s.k.dying.None?
    ensures SemIs(s, 3, 0, [0]) && SemIs(s, 4, 0, [])
  {
    hide Reachable, LeastFree;
    s := AfterFirstCall();
    ReachStep(s, JoinP);
    s := PDo(s, JoinP);
    ReachStep(s, Schedule(Dispatch));
    s := PDo(s, Schedule(Dispatch));
  }

  // Child 1 exits with code 7, wakes main ...
  lemma AfterRelease() returns (s: System)
    ensures Reachable(s) && ThreeProcesses(s, JoinWait(1, 1, 1), Some(ExitWait(1)), Running)
    ensures s.k.current == Some(1) && s.k.ready == [2, 0] && s.k.woken == map[0 := 3] && s.k.dying.None?
    ensures SemIs(s, 3, 1, []) && SemIs(s, 4, 0, [])
  {
    hide Reachable, LeastFree;
    s := AfterFirstWait();
    ReachStep(s, ExitCall(7));
    s := PDo(s, ExitCall(7));
    ReachStep(s, ExitRelease);
    s := PDo(s, ExitRelease);
  }

  // ... and sleeps until it is let go.
  lemma AfterChildExit() returns (s: System)
    ensures Reachable(s) && ThreeProcesses(s, JoinWait(1, 1, 1), Some(ExitWait(1)), Running)
    ensures s.k.current == Some(2) && s.k.ready == [0] && s.k.woken == map[0 := 3] && s.k.dying.None?
    ensures SemIs(s, 3, 1, []) && SemIs(s, 4, 0, [1])
  {
    hide Reachable, LeastFree;
    s := AfterRelease();
    ReachStep(s, ExitP);
    s := PDo(s, ExitP);
    ReachStep(s, Schedule(Dispatch));
    s := PDo(s, Schedule(Dispatch));
  }

  // Main gets past JoinWait ...
  lemma AfterJoinP() returns (s: System)
    ensures Reachable(s) && ThreeProcesses(s, JoinGot(1, 1, 1), Some(ExitWait(1)), Running)
    ensures s.k.current == Some(0) && s.k.ready == [2] && s.k.woken == map[] && s.k.dying.None?
    ensures SemIs(s, 3, 0, []) && SemIs(s, 4, 0, [1])
  {
    hide Reachable, LeastFree;
    s := AfterChildExit();
    ReachStep(s, Schedule(Yield));
    s := PDo(s, Schedule(Yield));
    ReachStep(s, JoinP);
    s := PDo(s, JoinP);
  }

  // ... and returns the code.
  lemma AfterChildRead() returns (s: System)
    ensures Reachable(s) && ThreeProcesses(s, Running, Some(ExitWait(1)), Running)
    ensures s.k.current == Some(0) && s.k.ready == [2, 1] && s.k.woken == map[1 := 4] && s.k.dying.None?
    ensures SemIs(s, 3, 0, []) && SemIs(s, 4, 1, [])
  {
    hide Reachable, LeastFree;
    s := AfterJoinP();
    ReachStep(s, JoinRead);
    s := PDo(s, JoinRead);
  }

  // Main asks for child 1 again and is preempted ...
  lemma AfterAskedAgain() returns (s: System)
    ensures Reachable(s) && ThreeProcesses(s, JoinInc(1, 1), Some(ExitWait(1)), Running)
    ensures s.k.current == Some(1) && s.k.ready == [0, 2] && s.k.woken == map[1 := 4] && s.k.dying.None?
    ensures SemIs(s, 3, 0, []) && SemIs(s, 4, 1, [])
  {
    hide Reachable, LeastFree;
    s := AfterChildRead();
    ReachStep(s, JoinCall(1));
    s := PDo(s, JoinCall(1));
    ReachStep(s, Schedule(Yield));
    s := PDo(s, Schedule(Yield));
    ReachStep(s, Schedule(Yield));
    s := PDo(s, Schedule(Yield));
  }

  // ... while the child is let go ...
  lemma AfterExitP() returns (s: System)
    ensures Reachable(s) && ThreeProcesses(s, JoinInc(1, 1), Some(ExitGot(1)), Running)
    ensures s.k.current == Some(1) && s.k.ready == [0, 2] && s.k.woken == map[] && s.k.dying.None?
    ensures SemIs(s, 3, 0, []) && SemIs(s, 4, 0, [])
  {
    hide Reachable, LeastFree;
    s := AfterAskedAgain();
    ReachStep(s, ExitP);
    s := PDo(s, ExitP);
  }

  // ... and leaves.
  lemma AfterChildGone() returns (s: System)
    ensures Reachable(s) && ThreeProcesses(s, JoinInc(1, 1), None, Running)
    ensures s.k.current == Some(0) && s.k.ready == [2] && s.k.woken == map[] && s.k.dying.None?
  {
    hide Reachable, LeastFree;
    s := AfterExitP();
    ReachStep(s, RemoveSelf);
    s := PDo(s, RemoveSelf);
    ReachStep(s, Schedule(Dispatch));
    s := PDo(s, Schedule(Dispatch));
  }

  /** Main is left in JoinUpdate, past the check on pcb[1], about to call through a null
      pointer. */
  lemma SecondJoinFails()
    ensures exists s :: Reachable(s) && PWants(s, JoinEnter) && !PCan(s, JoinEnter)
  {
    hide Reachable;
    var s := AfterChildGone();
    assert PWants(s, JoinEnter) && !PCan(s, JoinEnter);
  }

  // Thread 2 starts a child of its own in the slot.
  lemma AfterThirdExec() returns (s: System)
    ensures Reachable(s) && s.k.current == Some(2) && s.k.ready == [0, 3] && 2 !in s.k.woken && 0 !in s.k.woken
    ensures 0 in s.procs && s.procs[0] == Proc(JoinInc(1, 1), 0)
    ensures |s.slots| == MAX_PROCESS && s.slots[1] == Some(3) && |s.pcbs| == 4 && s.pcbs[3].parentID == 2
  {
    hide Reachable, LeastFree;
    s := AfterChildGone();
    ReachStep(s, Schedule(Yield));
    s := PDo(s, Schedule(Yield));
    OneIsFree();
    s := AfterExec(s, 2, 3, 1);
  }

  /** Or another process has got the slot by then, and main goes on to wait for that
      one, which is not its child. */
  lemma WaitsForAnothersChild()
    ensures exists s ::
      Reachable(s) && 0 in s.procs && s.procs[0] == Proc(JoinWait(1, 1, 3), 0) && |s.pcbs| == 4 && s.pcbs[3].parentID == 2
  {
    hide Reachable;
    var s := AfterThirdExec();
    ReachStep(s, Schedule(Yield));
    s := PDo(s, Schedule(Yield));
    ReachStep(s, JoinEnter);
    s := PDo(s, JoinEnter);
    assert s.procs[0] == Proc(JoinWait(1, 1, 3), 0) && s.pcbs[3].parentID == 2;
  }

  lemma OneIsFree()
    ensures LeastFree({0, 2}, 0, MAX_PROCESS) == 1
  {
  }

  // Had main not been preempted, it would have got to JoinWait on child 1 again ...
  lemma AfterSecondCall() returns (s: System)
    ensures Reachable(s) && ThreeProcesses(s, JoinInc(1, 1), Some(ExitWait(1)), Running)
    ensures s.k.current == Some(0) && s.k.ready == [2, 1] && s.k.woken == map[1 := 4] && s.k.dying.None?
    ensures SemIs(s, 3, 0, []) && SemIs(s, 4, 1, [])
  {
    hide Reachable, LeastFree;
    s := AfterChildRead();
    ReachStep(s, JoinCall(1));
    s := PDo(s, JoinCall(1));
  }

  lemma AfterSecondEnter() returns (s: System)
    ensures Reachable(s) && ThreeProcesses(s, JoinWait(1, 1, 1), Some(ExitWait(1)), Running)
    ensures s.k.current == Some(0) && s.k.ready == [2, 1] && s.k.woken == map[1 := 4] && s.k.dying.None?
    ensures SemIs(s, 3, 0, []) && SemIs(s, 4, 1, [])
  {
    hide Reachable, LeastFree;
    s := AfterSecondCall();
    ReachStep(s, JoinEnter);
    s := PDo(s, JoinEnter);
  }

  // ... and slept there.
  lemma AfterSecondSleep() returns (s: System)
    ensures Reachable(s) && ThreeProcesses(s, JoinWait(1, 1, 1), Some(ExitWait(1)), Running)
    ensures s.k.current == Some(2) && s.k.ready == [1] && s.k.woken == map[1 := 4] && s.k.dying.None?
    ensures SemIs(s, 3, 0, [0]) && SemIs(s, 4, 1, [])
  {
    hide Reachable, LeastFree;
    s := AfterSecondEnter();
    ReachStep(s, JoinP);
    s := PDo(s, JoinP);
    ReachStep(s, Schedule(Dispatch));
    s := PDo(s, Schedule(Dispatch));
  }

  lemma AfterSecondWait() returns (s: System)
    ensures Reachable(s) && ThreeProcesses(s, JoinWait(1, 1, 1), Some(ExitWait(1)), Running)
    ensures s.k.current == Some(1) && s.k.ready == [2] && s.k.woken == map[1 := 4] && s.k.dying.None?
    ensures SemIs(s, 3, 0, [0]) && SemIs(s, 4, 1, [])
  {
    hide Reachable, LeastFree;
    s := AfterSecondSleep();
    ReachStep(s, Schedule(Yield));
    s := PDo(s, Schedule(Yield));
  }

  /** Then the child leaves, and its PCB is deleted with the semaphore main sleeps on. */
  lemma DeletedUnderWaiter()
    ensures exists s :: Reachable(s) && PWants(s, RemoveSelf) && SemIs(s, JoinSem(1), 0, [0]) && !PCan(s, RemoveSelf)
  {
    hide Reachable;
    var s := AfterSecondWait();
    ReachStep(s, ExitP);
    s := PDo(s, ExitP);
    assert PWants(s, RemoveSelf) && SemIs(s, JoinSem(1), 0, [0]) && !PCan(s, RemoveSelf);
  }
}
