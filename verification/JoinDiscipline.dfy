/** Join and Exit when no parent joins the same child twice (threads/ptable.cc,
    threads/pcb.cc): every step is safe, each join returns the code of the child it was
    asked for, and the processes never deadlock.  Without the discipline a second join
    never gets the child's code. */
module JoinDisciplines {
  import opened Options
  import opened FiniteSets
  import opened Kernels
  import opened Sleepers
  import opened ProcessTables

  /** What a caller of JoinUpdate is to see to: the child it names, if the test at the
      head lets it through, is one that it has not joined before. */
  predicate Disciplined(s: System, e: PEvent) {
    e.JoinCall? && HasProc(s) && MayJoin(s, e.pid) ==> PcbAt(s, e.pid).join.NotJoined?
  }

  // ----- the invariant -----

  // The PCB the joining thread found at its check.
  function Asked(st: Stage): PcbId
    requires JoinStage(st)
  {
    if st.JoinInc? then st.p else st.asked
  }

  // A joining thread is the child's parent, at the PCB it asked for, and the first.
  ghost predicate JoinerOk(st: Stage, me: PcbId, pcbs: seq<Pcb>) {
    JoinStage(st) ==>
      && Asked(st) == st.p < |pcbs| && me < |pcbs|
      && pcbs[st.p].parentID == pcbs[me].processID
      && (!st.JoinGot? ==> pcbs[st.p].join.NotJoined?)
  }

  ghost predicate JoinersOk(s: System) {
    forall t :: t in s.procs ==> JoinerOk(s.procs[t].stage, s.procs[t].me, s.pcbs)
  }

  // Each PCB that has been joined has been returned once, with its code.
  ghost predicate ReturnsOk(s: System) {
    && (forall i :: 0 <= i < |s.joined| ==>
         s.joined[i].asked < |s.pcbs| && s.pcbs[s.joined[i].asked].join == Joined(s.joined[i].code))
    && (forall i, j :: 0 <= i < j < |s.joined| ==> s.joined[i].asked != s.joined[j].asked)
    && (forall p :: 0 <= p < |s.pcbs| && s.pcbs[p].join.Joined? ==>
         exists i :: 0 <= i < |s.joined| && s.joined[i].asked == p)
  }

  ghost predicate DInv(s: System) {
    SysInv(s) && JoinersOk(s) && ReturnsOk(s)
  }

  lemma BootDInv(t: Tid)
    ensures DInv(Booted(t))
  {
    BootSysInv(t);
    hide SysInv;
  }

  // ----- the current thread -----

  // The child of a joining thread is in its slot.
  lemma ChildInSlot(s: System, t: Tid)
    requires DInv(s) && t in s.procs && JoinStage(s.procs[t].stage)
    ensures var st := s.procs[t].stage;
      && st.p < |s.pcbs| && !s.pcbs[st.p].exit.Gone?
      && st.pid < |s.slots| && s.slots[st.pid] == Some(st.p) && Occupied(s, st.pid)
      && PcbSemsLive(s.pcbs[st.p], st.p, s.k.sems)
  {
    hide SysInv, ReturnsOk, PcbSemsLive;
    ThreadFacts(s, t);
    assert JoinerOk(s.procs[t].stage, s.procs[t].me, s.pcbs);
  }

  // No thread is at the P of a semaphore that goes with PCB q.
  lemma NobodyWaits(s: System, t: Tid)
    requires DInv(s) && t in s.procs && s.procs[t].stage.ExitGot?
    ensures var q := s.procs[t].me;
      forall u :: u in s.procs ==>
        SemAt(s.procs[u].stage) != Some(JoinSem(q)) && SemAt(s.procs[u].stage) != Some(ExitSem(q))
  {
    hide SysInv, ReturnsOk;
    var q := s.procs[t].me;
    ThreadFacts(s, t);
    forall u | u in s.procs
      ensures SemAt(s.procs[u].stage) != Some(JoinSem(q)) && SemAt(s.procs[u].stage) != Some(ExitSem(q))
    {
      ThreadFacts(s, u);
      assert JoinerOk(s.procs[u].stage, s.procs[u].me, s.pcbs);
      OneThreadEach(s, t, u);
    }
  }

  lemma OneThreadEach(s: System, t: Tid, u: Tid)
    requires SysInv(s) && t in s.procs && u in s.procs
    ensures s.procs[t].me == s.procs[u].me ==> t == u
  {
    hide Inv, Asleep, TableOk, SemsOk, JoinsOk, ParentsOk;
  }

  // A process has one thread, so a child has one joiner.
  lemma SoleJoiner(s: System, t: Tid, u: Tid)
    requires DInv(s) && t in s.procs && u in s.procs
    requires JoinStage(s.procs[t].stage) && JoinStage(s.procs[u].stage) && s.procs[t].stage.p == s.procs[u].stage.p
    ensures t == u
  {
    hide SysInv, ReturnsOk, PcbSemsOk, HasParent, PcbInTable, JoinFits, StageFits;
    ThreadFacts(s, t);
    ThreadFacts(s, u);
    assert JoinerOk(s.procs[t].stage, s.procs[t].me, s.pcbs) && JoinerOk(s.procs[u].stage, s.procs[u].me, s.pcbs);
    OneThreadEach(s, t, u);
  }

  /** No step uses a null PCB pointer or a deleted semaphore, and no PCB is deleted
      while a thread waits on a semaphore of it or has been woken from one. */
  lemma NeverFails(s: System, e: PEvent)
    requires DInv(s) && PWants(s, e)
    ensures PCan(s, e)
  {
    hide SysInv, JoinersOk, ReturnsOk;
    if !e.Schedule? {
      var t := s.k.current.value;
      CurrentProc(s);
      ThreadFacts(s, t);
      FreshSems(s);
      if JoinStage(s.procs[t].stage) { ChildInSlot(s, t); }
      if e.RemoveSelf? { MayDelete(s, t); }
    }
  }

  lemma MayDelete(s: System, t: Tid)
    requires DInv(s) && s.k.current == Some(t) && t in s.procs && s.procs[t].stage.ExitGot?
    ensures CanDelete(s.k, JoinSem(s.procs[t].me)) && CanDelete(s.k, ExitSem(s.procs[t].me))
  {
    hide Inv, Asleep, TableOk, SemsOk, ProcessesOk, JoinsOk, ParentsOk, JoinersOk, ReturnsOk;
    ThreadFacts(s, t);
    CurrentProc(s);
    NobodyWaits(s, t);
    NobodyAt(s.k, StageSites(s), JoinSem(s.procs[t].me));
    NobodyAt(s.k, StageSites(s), ExitSem(s.procs[t].me));
  }

  // ----- the steps keep the invariant -----

  // PCBs keep their slot and their parent; a join changes on p at most.
  ghost predicate SameFamily(pcbs: seq<Pcb>, pcbs': seq<Pcb>, p: PcbId) {
    && |pcbs| <= |pcbs'|
    && forall q :: 0 <= q < |pcbs| ==>
         pcbs'[q].processID == pcbs[q].processID && pcbs'[q].parentID == pcbs[q].parentID
         && (q == p || pcbs'[q].join == pcbs[q].join)
  }

  // Threads other than t stay where they are, or are new and not joining.
  ghost predicate OthersStay(procs: map<Tid, Proc>, procs': map<Tid, Proc>, t: Tid) {
    forall u :: u in procs' && u != t ==> if u in procs then procs'[u] == procs[u] else procs'[u].stage.Running?
  }

  lemma JoinersAfter(s: System, s': System, t: Tid, p: PcbId)
    requires JoinersOk(s) && SameFamily(s.pcbs, s'.pcbs, p) && OthersStay(s.procs, s'.procs, t)
    requires forall u :: u in s.procs && u != t && JoinStage(s.procs[u].stage) ==> s.procs[u].stage.p != p
    requires t in s'.procs ==> JoinerOk(s'.procs[t].stage, s'.procs[t].me, s'.pcbs)
    ensures JoinersOk(s')
  {
    forall u | u in s'.procs
      ensures JoinerOk(s'.procs[u].stage, s'.procs[u].me, s'.pcbs)
    {
      if u != t && u in s.procs { assert JoinerOk(s.procs[u].stage, s.procs[u].me, s.pcbs); }
    }
  }

  lemma SamePlaces(s: System, s': System)
    requires JoinersOk(s) && s'.procs == s.procs && s'.pcbs == s.pcbs
    ensures JoinersOk(s')
  {
  }

  lemma PcbsBelow(s: System)
    requires JoinersOk(s)
    ensures forall u :: u in s.procs && JoinStage(s.procs[u].stage) ==> s.procs[u].stage.p < |s.pcbs|
  {
    assert forall u :: u in s.procs ==> JoinerOk(s.procs[u].stage, s.procs[u].me, s.pcbs);
  }

  // The steps of Exec and Exit.
  lemma JoinersAfterExec(s: System, e: PEvent)
    requires DInv(s) && PCan(s, e)
    requires e.ExecCall? || e.ExecAcquire? || e.ExecFail? || e.ExecCreate? || e.ExecFork? || e.ExecDone?
    ensures JoinersOk(PDo(s, e))
  {
    hide SysInv, JoinersOk, ReturnsOk, LeastFree;
    var s' := PDo(s, e);
    if s'.procs == s.procs && s'.pcbs == s.pcbs {
      SamePlaces(s, s');
    } else {
      PcbsBelow(s);
      if e.ExecFork? { NewThread(s, e.t); }
      JoinersAfter(s, s', s.k.current.value, |s.pcbs|);
    }
  }

  lemma JoinersAfterExit(s: System, e: PEvent)
    requires DInv(s) && PCan(s, e)
    requires e.ExitCall? || e.ExitRelease? || e.ExitP? || e.RemoveSelf?
    ensures JoinersOk(PDo(s, e))
  {
    hide SysInv, JoinersOk, ReturnsOk;
    var s' := PDo(s, e);
    if s'.procs == s.procs && s'.pcbs == s.pcbs {
      SamePlaces(s, s');
    } else {
      PcbsBelow(s);
      JoinersAfter(s, s', s.k.current.value, |s.pcbs|);
    }
  }

  lemma JoinersAfterCall(s: System, pid: int)
    requires DInv(s) && PCan(s, JoinCall(pid)) && Disciplined(s, JoinCall(pid))
    ensures JoinersOk(PDo(s, JoinCall(pid)))
  {
    hide SysInv, JoinersOk, ReturnsOk;
    var s', t := PDo(s, JoinCall(pid)), s.k.current.value;
    if MayJoin(s, pid) {
      PcbsBelow(s);
      JoinersAfter(s, s', t, |s.pcbs|);
    } else {
      SamePlaces(s, s');
    }
  }

  lemma JoinersAfterEnter(s: System)
    requires DInv(s) && PCan(s, JoinEnter)
    ensures JoinersOk(PDo(s, JoinEnter))
  {
    hide SysInv, JoinersOk, ReturnsOk;
    var s', t := PDo(s, JoinEnter), s.k.current.value;
    ChildInSlot(s, t);
    PcbsBelow(s);
    CurrentJoiner(s, t);
    JoinersAfter(s, s', t, |s.pcbs|);
  }

  lemma CurrentJoiner(s: System, t: Tid)
    requires JoinersOk(s) && t in s.procs
    ensures JoinerOk(s.procs[t].stage, s.procs[t].me, s.pcbs)
  {
  }

  lemma OthersElsewhere(s: System, t: Tid)
    requires DInv(s) && t in s.procs && JoinStage(s.procs[t].stage)
    ensures forall u :: u in s.procs && u != t && JoinStage(s.procs[u].stage) ==> s.procs[u].stage.p != s.procs[t].stage.p
  {
    hide DInv;
    forall u | u in s.procs && u != t && JoinStage(s.procs[u].stage)
      ensures s.procs[u].stage.p != s.procs[t].stage.p
    {
      if s.procs[u].stage.p == s.procs[t].stage.p { SoleJoiner(s, t, u); }
    }
  }

  lemma JoinersAfterP(s: System)
    requires DInv(s) && PCan(s, JoinP)
    ensures JoinersOk(PDo(s, JoinP))
  {
    hide SysInv, JoinersOk, ReturnsOk;
    var s', t := PDo(s, JoinP), s.k.current.value;
    CurrentJoiner(s, t);
    if s'.procs == s.procs && s'.pcbs == s.pcbs {
      SamePlaces(s, s');
    } else {
      OthersElsewhere(s, t);
      JoinersAfter(s, s', t, StageNow(s).p);
    }
  }

  lemma JoinersAfterRead(s: System)
    requires DInv(s) && PCan(s, JoinRead)
    ensures JoinersOk(PDo(s, JoinRead))
  {
    hide SysInv, JoinersOk, ReturnsOk;
    var s', t := PDo(s, JoinRead), s.k.current.value;
    ChildInSlot(s, t);
    OthersElsewhere(s, t);
    JoinersAfter(s, s', t, StageNow(s).p);
  }

  lemma JoinersKept(s: System, e: PEvent)
    requires DInv(s) && PCan(s, e) && Disciplined(s, e)
    ensures JoinersOk(PDo(s, e))
  {
    hide DInv, JoinersOk, PCan, Disciplined;
    match e
    case Schedule(_) => SamePlaces(s, PDo(s, e)) by { DParts(s); }
    case JoinCall(pid) => JoinersAfterCall(s, pid);
    case JoinEnter => JoinersAfterEnter(s);
    case JoinP => JoinersAfterP(s);
    case JoinRead => JoinersAfterRead(s);
    case ExitCall(_) => JoinersAfterExit(s, e);
    case ExitRelease => JoinersAfterExit(s, e);
    case ExitP => JoinersAfterExit(s, e);
    case RemoveSelf => JoinersAfterExit(s, e);
    case _ => JoinersAfterExec(s, e);
  }

  lemma DParts(s: System)
    requires DInv(s)
    ensures SysInv(s) && JoinersOk(s) && ReturnsOk(s)
  {
    hide SysInv, JoinersOk, ReturnsOk;
  }

  // The PCBs that had been joined still are, with the same codes; none is added.
  ghost predicate SameJoined(pcbs: seq<Pcb>, pcbs': seq<Pcb>) {
    && |pcbs| <= |pcbs'|
    && (forall q :: 0 <= q < |pcbs| && pcbs[q].join.Joined? ==> pcbs'[q].join == pcbs[q].join)
    && (forall q :: 0 <= q < |pcbs'| && pcbs'[q].join.Joined? ==> q < |pcbs| && pcbs[q].join.Joined?)
  }

  lemma ReturnsAfterOther(s: System, e: PEvent)
    requires DInv(s) && PCan(s, e) && !e.JoinRead?
    ensures ReturnsOk(PDo(s, e))
  {
    hide SysInv, JoinersOk, ReturnsOk;
    var s' := PDo(s, e);
    if e.JoinP? { WaiterIsFirst(s, s.k.current.value, StageNow(s).pid, StageNow(s).asked, StageNow(s).p); }
    SameReturns(s, s');
  }

  // A join waits on a PCB not joined before.
  lemma WaiterIsFirst(s: System, t: Tid, pid: nat, asked: PcbId, p: PcbId)
    requires JoinersOk(s) && t in s.procs && s.procs[t].stage == JoinWait(pid, asked, p)
    ensures p < |s.pcbs| && s.pcbs[p].join.NotJoined?
  {
    CurrentJoiner(s, t);
  }

  lemma SameReturns(s: System, s': System)
    requires ReturnsOk(s) && s'.joined == s.joined && SameJoined(s.pcbs, s'.pcbs)
    ensures ReturnsOk(s')
  {
  }

  lemma ReturnsAfterRead(s: System)
    requires DInv(s) && PCan(s, JoinRead)
    ensures ReturnsOk(PDo(s, JoinRead))
  {
    hide SysInv, JoinersOk;
    var s', t := PDo(s, JoinRead), s.k.current.value;
    var p := StageNow(s).p;
    ChildInSlot(s, t);
    CurrentJoiner(s, t);
    ThreadFacts(s, t);
    AddedReturn(s, s', p, s.pcbs[p].exitcode);
  }

  lemma AddedReturn(s: System, s': System, p: PcbId, code: int)
    requires ReturnsOk(s) && p < |s.pcbs| && !s.pcbs[p].join.Joined?
    requires s'.pcbs == s.pcbs[p := s.pcbs[p].(join := Joined(code))]
    requires s'.joined == s.joined + [Return(p, code)]
    ensures ReturnsOk(s')
  {
    var n := |s.joined|;
    assert s'.joined[n].asked == p;
    forall q | 0 <= q < |s'.pcbs| && s'.pcbs[q].join.Joined?
      ensures exists i :: 0 <= i <= n && s'.joined[i].asked == q
    {
      if q != p {
        var i :| 0 <= i < n && s.joined[i].asked == q;
        assert s'.joined[i].asked == q;
      }
    }
  }

  /** Every step keeps the invariant. */
  lemma DStepKeeps(s: System, e: PEvent)
    requires DInv(s) && PCan(s, e) && Disciplined(s, e)
    ensures DInv(PDo(s, e))
  {
    hide SysInv, JoinersOk, ReturnsOk, PCan, PDo, Disciplined;
    StepKeeps(s, e);
    JoinersKept(s, e);
    if e.JoinRead? { ReturnsAfterRead(s); } else { ReturnsAfterOther(s, e); }
  }

  // ----- every run -----

  // A run in which the discipline is kept.
  ghost predicate IsProcessRun(states: seq<System>, events: seq<PEvent>) {
    && |states| == |events| + 1
    && (exists t :: states[0] == Booted(t))
    && forall i :: 0 <= i < |events| ==>
         PWants(states[i], events[i]) && Disciplined(states[i], events[i])
         && (PCan(states[i], events[i]) ==> states[i + 1] == PDo(states[i], events[i]))
  }

  /** On a run that keeps the discipline every step is safe. */
  lemma {:induction false} ProcessRunInv(states: seq<System>, events: seq<PEvent>, n: nat)
    requires IsProcessRun(states, events) && n < |states|
    ensures DInv(states[n])
    ensures n < |events| ==> PCan(states[n], events[n])
  {
    hide DInv, PWants, PCan, PDo, Disciplined;
    if n == 0 {
      var t :| states[0] == Booted(t);
      BootDInv(t);
    } else {
      ProcessRunInv(states, events, n - 1);
      DStepKeeps(states[n - 1], events[n - 1]);
    }
    if n < |events| { NeverFails(states[n], events[n]); }
  }

  /** On every such run: a slot's bit is set exactly when its PCB pointer is not null;
      a JoinUpdate that has returned gave the code with which the very child it found at
      its check had called ExitUpdate; no two returned for the same child; and a PCB is
      deleted only after its code was returned. */
  lemma JoinExitOverRuns(states: seq<System>, events: seq<PEvent>, n: nat)
    requires IsProcessRun(states, events) && n < |states|
    ensures var s := states[n];
      && |s.slots| == MAX_PROCESS
      && (forall i :: i in s.bits <==> 0 <= i < MAX_PROCESS && s.slots[i].Some?)
      && (forall i :: 0 <= i < |s.joined| ==> IsExitCode(states, events, n, s.joined[i]))
      && (forall i, j :: 0 <= i < j < |s.joined| ==> s.joined[i].asked != s.joined[j].asked)
      && (forall p :: 0 <= p < |s.pcbs| && s.pcbs[p].exit.Gone? ==>
           exists i :: 0 <= i < |s.joined| && s.joined[i].asked == p)
  {
    hide DInv, IsProcessRun, IsSafeRun, ExitedWith;
    ProcessRunInv(states, events, n);
    Outcome(states[n]);
    ProcessRunIsSafe(states, events);
    var s := states[n];
    forall i | 0 <= i < |s.joined|
      ensures IsExitCode(states, events, n, s.joined[i])
    {
      assert ReturnedCode(s.joined[i], s.pcbs);
      var e := CodeOverRuns(states, events, s.joined[i].asked, n);
    }
  }

  // The process of the PCB asked for has called ExitUpdate with the code returned.
  ghost predicate IsExitCode(states: seq<System>, events: seq<PEvent>, n: nat, r: Return) {
    exists e :: 0 <= e < n && ExitedWith(states, events, e, r.asked, r.code)
  }

  lemma ProcessRunIsSafe(states: seq<System>, events: seq<PEvent>)
    requires IsProcessRun(states, events)
    ensures IsSafeRun(states, events)
  {
    hide DInv, PWants, PCan, PDo, Disciplined;
    forall i | 0 <= i < |events|
      ensures PCan(states[i], events[i]) && states[i + 1] == PDo(states[i], events[i])
    {
      ProcessRunInv(states, events, i);
    }
  }

  // The code returned is the one the child exited with.
  ghost predicate ReturnedCode(r: Return, pcbs: seq<Pcb>) {
    r.asked < |pcbs| && Notified(pcbs[r.asked].exit) && pcbs[r.asked].exit.code == r.code
  }

  lemma Outcome(s: System)
    requires DInv(s)
    ensures |s.slots| == MAX_PROCESS
    ensures forall i :: i in s.bits <==> 0 <= i < MAX_PROCESS && s.slots[i].Some?
    ensures forall i :: 0 <= i < |s.joined| ==> ReturnedCode(s.joined[i], s.pcbs)
    ensures forall i, j :: 0 <= i < j < |s.joined| ==> s.joined[i].asked != s.joined[j].asked
    ensures forall p :: 0 <= p < |s.pcbs| && s.pcbs[p].exit.Gone? ==>
      exists i :: 0 <= i < |s.joined| && s.joined[i].asked == p
  {
    hide Inv, Asleep, SemsOk, ProcessesOk, ParentsOk, JoinersOk, PcbInTable;
    assert forall p :: 0 <= p < |s.pcbs| ==> JoinFits(s.pcbs[p]);
  }

  /** The read at the end of JoinUpdate goes through pcb[pid] again, after points at
      which other processes may have run; it still finds the child found at the check,
      released and with its exit code, which it returns. */
  lemma JoinReadsItsChild(s: System, t: Tid, pid: nat, asked: PcbId, p: PcbId)
    requires DInv(s) && s.k.current == Some(t) && t in s.procs
    requires s.procs[t].stage == JoinGot(pid, asked, p)
    ensures PCan(s, JoinRead) && p == asked < |s.pcbs|
    ensures pid < |s.slots| && s.slots[pid] == Some(asked)
    ensures s.pcbs[asked].exit.Released?
    ensures PDo(s, JoinRead).joined == s.joined + [Return(asked, s.pcbs[asked].exit.code)]
  {
    hide SysInv, JoinersOk, ReturnsOk;
    ThreadFacts(s, t);
    CurrentJoiner(s, t);
    ChildInSlot(s, t);
    NeverFails(s, JoinRead);
  }

  // A thread outside JoinUpdate while p has been joined already.
  lemma {:induction false} NeverHadAgain(states: seq<System>, events: seq<PEvent>, t: Tid, p: PcbId, m: nat, n: nat)
    requires IsSafeRun(states, events) && m <= n < |states| && p < |states[m].pcbs|
    requires t in states[m].procs && states[m].procs[t].stage.Running? && !states[m].pcbs[p].join.NotJoined?
    ensures p < |states[n].pcbs| && !states[n].pcbs[p].join.NotJoined? && states[n].pcbs[p].join != Taken(t)
    ensures t in states[n].procs && states[n].procs[t].stage.JoinGot? ==> states[n].procs[t].stage.p != p
  {
    hide SysInv, PCan, PDo;
    SafeRunInv(states, events, n);
    if m == n {
      NotTaken(states[m], t, p);
    } else {
      NeverHadAgain(states, events, t, p, m, n - 1);
      SafeRunInv(states, events, n - 1);
      JoinedStays(states[n - 1], events[n - 1], p, t);
    }
    if t in states[n].procs { ThreadFacts(states[n], t); }
  }

  /** The discipline is needed: a JoinUpdate that passes its test on a child that has
      been joined never gets past JoinWait on that child, however the run goes on. */
  lemma SecondJoinNeverReturns(states: seq<System>, events: seq<PEvent>, t: Tid, p: PcbId, m: nat, n: nat)
    requires IsSafeRun(states, events) && m < |events| && m <= n < |states|
    requires !Disciplined(states[m], events[m])
    requires states[m].k.current == Some(t) && states[m].slots[events[m].pid] == Some(p)
    ensures t in states[n].procs && states[n].procs[t].stage.JoinGot? ==> states[n].procs[t].stage.p != p
  {
    NeverHadAgain(states, events, t, p, m, n);
  }
}
