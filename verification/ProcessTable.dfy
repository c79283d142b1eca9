/** The Join/Exit handshake of threads/ptable.cc and threads/pcb.cc over every
    interleaving of processes that Exec, Join and Exit. */
module ProcessTables {
  import opened Options
  import opened FiniteSets
  import opened Kernels
  import opened Sleepers

  const MAX_PROCESS := 10
  const BMSEM: SemId := 0

  type PcbId = nat  // the address of a PCB object; addresses are not reused here

  // The semaphores of a PCB.
  function JoinSem(p: PcbId): SemId { 2 * p + 1 }
  function ExitSem(p: PcbId): SemId { 2 * p + 2 }

  // History of a PCB: the join on it, and its process's way out.
  datatype JoinState = NotJoined | Taken(taker: Tid) | Joined(code: int)
  datatype ExitState = Alive | Coded(code: int) | Released(code: int) | Passed(code: int) | Gone(code: int)

  // The C fields, then history.
  datatype Pcb = Pcb(processID: nat, parentID: int, exitcode: int, join: JoinState, exit: ExitState)

  /** Where a thread is.
      Running:       in none of the calls below.
      ExecP:         in bmsem->P of ExecUpdate.         ExecGot: that P has returned.
      Forking(p):    PCB p is in its slot, thread not yet forked.
      ExecForked:    forked, bmsem not yet released.
      JoinInc(i, p): JoinUpdate(i) has passed its checks, finding PCB p.
      JoinWait(i, asked, p): in pcb[i]->JoinWait, now on PCB p; asked was the PCB found.
      JoinGot(i, asked, p):  it has returned.
      ExitSet:       ExitUpdate has stored the exit code.
      ExitWait(p):   parent notified, in pcb[id]->ExitWait.  ExitGot(p): it has returned. */
  datatype Stage =
    | Running
    | ExecP | ExecGot | Forking(p: PcbId) | ExecForked
    | JoinInc(pid: nat, p: PcbId) | JoinWait(pid: nat, asked: PcbId, p: PcbId) | JoinGot(pid: nat, asked: PcbId, p: PcbId)
    | ExitSet | ExitWait(p: PcbId) | ExitGot(p: PcbId)

  // A thread: its stage and the PCB of its process (Thread::processID is that PCB's).
  datatype Proc = Proc(stage: Stage, me: PcbId)

  // A JoinUpdate that has returned: the PCB it found at its check, and the code.
  datatype Return = Return(asked: PcbId, code: int)

  /** bits and slots are PTable::bm and PTable::pcb.  pcbs holds every PCB ever made,
      by address; those no longer in a slot have been deleted.  joined is history. */
  datatype System = System(
    k: Kernel,
    bits: set<nat>,
    slots: seq<Option<PcbId>>,
    pcbs: seq<Pcb>,
    procs: map<Tid, Proc>,
    joined: seq<Return>)

  datatype PEvent =
    | Schedule(a: Action)  // Yield and Dispatch
    | ExecCall | ExecAcquire | ExecFail | ExecCreate | ExecFork(t: Tid) | ExecDone
    | JoinCall(pid: int) | JoinEnter | JoinP | JoinRead
    | ExitCall(code: int) | ExitRelease | ExitP | RemoveSelf

  predicate HasProc(s: System) {
    s.k.current.Some? && s.k.current.value in s.procs && s.procs[s.k.current.value].me < |s.pcbs|
  }

  function StageNow(s: System): Stage
    requires HasProc(s)
  {
    s.procs[s.k.current.value].stage
  }

  function MyPcb(s: System): Pcb
    requires HasProc(s)
  {
    s.pcbs[s.procs[s.k.current.value].me]
  }

  // `pcb[i] != NULL`, for i in range.
  predicate Occupied(s: System, i: int) {
    0 <= i < |s.slots| && s.slots[i].Some? && s.slots[i].value < |s.pcbs|
  }

  function PcbAt(s: System, i: int): Pcb
    requires Occupied(s, i)
  {
    s.pcbs[s.slots[i].value]
  }

  // The test at the head of JoinUpdate.
  predicate MayJoin(s: System, pid: int)
    requires HasProc(s)
  {
    Occupied(s, pid) && PcbAt(s, pid).parentID == MyPcb(s).processID
  }

  // By convention a process exits only after joining its children.
  predicate ChildrenJoined(s: System)
    requires HasProc(s)
  {
    forall i :: 0 <= i < |s.slots| && Occupied(s, i) && PcbAt(s, i).parentID == MyPcb(s).processID ==>
      PcbAt(s, i).join.Joined?
  }

  // What the current thread does next.
  predicate PWants(s: System, e: PEvent) {
    match e
    case Schedule(a) => Enabled(s.k, a) && (a.Yield? || a.Dispatch?)
    case ExecCall => HasProc(s) && StageNow(s).Running? && Free(s.k)
    case ExecAcquire => HasProc(s) && StageNow(s).ExecP?
    case ExecFail => HasProc(s) && StageNow(s).ExecGot?
    case ExecCreate => HasProc(s) && StageNow(s).ExecGot? && LeastFree(s.bits, 0, MAX_PROCESS) < MAX_PROCESS
    case ExecFork(t) => HasProc(s) && StageNow(s).Forking? && t !in s.k.status && s.k.dying != Some(t)
    case ExecDone => HasProc(s) && StageNow(s).ExecForked?
    case JoinCall(pid) => HasProc(s) && StageNow(s).Running? && Free(s.k)
    case JoinEnter => HasProc(s) && StageNow(s).JoinInc?
    case JoinP => HasProc(s) && StageNow(s).JoinWait?
    case JoinRead => HasProc(s) && StageNow(s).JoinGot?
    case ExitCall(_) =>  // the exit of process 0 halts the machine
      HasProc(s) && StageNow(s).Running? && Free(s.k) && MyPcb(s).processID != 0 && ChildrenJoined(s)
    case ExitRelease => HasProc(s) && StageNow(s).ExitSet?
    case ExitP => HasProc(s) && StageNow(s).ExitWait?
    case RemoveSelf => HasProc(s) && StageNow(s).ExitGot?
  }

  // ... and may do without touching a null PCB pointer.
  predicate PCan(s: System, e: PEvent) {
    && PWants(s, e)
    && match e
       case Schedule(_) => true
       case ExecAcquire => CanP(s.k, BMSEM)
       case ExecFail => CanV(s.k, BMSEM)
       case ExecCreate =>
         LeastFree(s.bits, 0, MAX_PROCESS) < |s.slots| && Free(s.k)
         && JoinSem(|s.pcbs|) !in s.k.sems && ExitSem(|s.pcbs|) !in s.k.sems
       case ExecFork(t) => CanFork(s.k, t)
       case ExecDone => CanV(s.k, BMSEM)
       case JoinEnter => Free(s.k) && Occupied(s, StageNow(s).pid)
       case JoinP => CanP(s.k, JoinSem(StageNow(s).p))
       case JoinRead => Occupied(s, StageNow(s).pid) && CanV(s.k, ExitSem(s.slots[StageNow(s).pid].value))
       case ExitCall(_) =>
         Occupied(s, MyPcb(s).processID) && Occupied(s, PcbAt(s, MyPcb(s).processID).parentID)
       case ExitRelease =>
         Occupied(s, MyPcb(s).processID) && CanV(s.k, JoinSem(s.slots[MyPcb(s).processID].value))
       case ExitP => CanP(s.k, ExitSem(StageNow(s).p))
       case RemoveSelf =>  // the destructor of the PCB deletes its semaphores
         Occupied(s, MyPcb(s).processID)
         && CanDelete(s.k, JoinSem(s.slots[MyPcb(s).processID].value))
         && CanDelete(s.k, ExitSem(s.slots[MyPcb(s).processID].value))
       case _ => true
  }

  function Goto(s: System, st: Stage): map<Tid, Proc>
    requires HasProc(s)
  {
    s.procs[s.k.current.value := s.procs[s.k.current.value].(stage := st)]
  }

  function PDo(s: System, e: PEvent): System
    requires PCan(s, e)
  {
    match e
    case Schedule(a) => s.(k := Step(s.k, a))
    case ExecCall => s.(procs := Goto(s, ExecP))
    case ExecAcquire => s.(k := PStep(s.k, BMSEM), procs := if PSucceeds(s.k, BMSEM) then Goto(s, ExecGot) else s.procs)
    case ExecFail => s.(k := VStep(s.k, BMSEM), procs := Goto(s, Running))
    case ExecCreate =>
      var i, p := LeastFree(s.bits, 0, MAX_PROCESS), |s.pcbs|;
      s.(k := NewStep(NewStep(s.k, JoinSem(p), 0), ExitSem(p), 0),
         bits := s.bits + {i}, slots := s.slots[i := Some(p)],
         pcbs := s.pcbs + [Pcb(i, MyPcb(s).processID, 0, NotJoined, Alive)], procs := Goto(s, Forking(p)))
    case ExecFork(t) =>
      s.(k := ForkStep(s.k, t), procs := Goto(s, ExecForked)[t := Proc(Running, StageNow(s).p)])
    case ExecDone => s.(k := VStep(s.k, BMSEM), procs := Goto(s, Running))
    case JoinCall(pid) =>
      if MayJoin(s, pid) then s.(procs := Goto(s, JoinInc(pid, s.slots[pid].value))) else s
    case JoinEnter =>
      s.(procs := Goto(s, JoinWait(StageNow(s).pid, StageNow(s).p, s.slots[StageNow(s).pid].value)))
    case JoinP =>
      var p := StageNow(s).p;
      if PSucceeds(s.k, JoinSem(p)) && p < |s.pcbs|
      then s.(k := PStep(s.k, JoinSem(p)), procs := Goto(s, JoinGot(StageNow(s).pid, StageNow(s).asked, p)),
              pcbs := s.pcbs[p := s.pcbs[p].(join := Taken(s.k.current.value))])
      else s.(k := PStep(s.k, JoinSem(p)))
    case JoinRead =>  // GetExitCode and ExitRelease on whatever pcb[pid] is now
      var q := s.slots[StageNow(s).pid].value;
      s.(k := VStep(s.k, ExitSem(q)), procs := Goto(s, Running),
         pcbs := s.pcbs[q := s.pcbs[q].(join := Joined(s.pcbs[q].exitcode))],
         joined := s.joined + [Return(StageNow(s).asked, s.pcbs[q].exitcode)])
    case ExitCall(code) =>
      var q := s.slots[MyPcb(s).processID].value;
      s.(pcbs := s.pcbs[q := s.pcbs[q].(exitcode := code, exit := Coded(code))], procs := Goto(s, ExitSet))
    case ExitRelease =>
      var q := s.slots[MyPcb(s).processID].value;
      s.(k := VStep(s.k, JoinSem(q)), procs := Goto(s, ExitWait(q)),
         pcbs := s.pcbs[q := s.pcbs[q].(exit := Released(s.pcbs[q].exitcode))])
    case ExitP =>
      var p := StageNow(s).p;
      if PSucceeds(s.k, ExitSem(p)) && p < |s.pcbs|
      then s.(k := PStep(s.k, ExitSem(p)), procs := Goto(s, ExitGot(p)),
              pcbs := s.pcbs[p := s.pcbs[p].(exit := Passed(s.pcbs[p].exitcode))])
      else s.(k := PStep(s.k, ExitSem(p)))
    case RemoveSelf =>  // bm->Clear, pcb[id] = NULL, delete, Thread::Finish
      var i, q := MyPcb(s).processID, s.slots[MyPcb(s).processID].value;
      s.(k := FinishStep(DeleteStep(DeleteStep(s.k, JoinSem(q)), ExitSem(q))),
         bits := s.bits - {i}, slots := s.slots[i := None],
         procs := s.procs - {s.k.current.value},
         pcbs := s.pcbs[q := s.pcbs[q].(exit := Gone(s.pcbs[q].exitcode))])
  }

  function Booted(t: Tid): System {
    System(NewStep(NewStep(NewStep(Boot(t), BMSEM, 1), JoinSem(0), 0), ExitSem(0), 0),
           {0}, [Some(0)] + seq(MAX_PROCESS - 1, _ => None), [Pcb(0, -1, 0, NotJoined, Alive)],
           map[t := Proc(Running, 0)], [])
  }

  // ----- the invariant -----

  predicate Notified(x: ExitState) { x.Released? || x.Passed? || x.Gone? }

  // The PCB array and its bitmap.
  ghost predicate TableOk(s: System) {
    && |s.slots| == MAX_PROCESS && 0 < |s.pcbs| && s.slots[0] == Some(0)
    && (forall i :: i in s.bits <==> 0 <= i < MAX_PROCESS && s.slots[i].Some?)
    && (forall i :: 0 <= i < MAX_PROCESS && s.slots[i].Some? ==>
         s.slots[i].value < |s.pcbs| && s.pcbs[s.slots[i].value].processID == i)
    && (forall p :: 0 <= p < |s.pcbs| ==> PcbInTable(s.pcbs[p], p, s.slots))
  }

  // A PCB is in its slot until its process is gone, and holds the code it exited with.
  ghost predicate PcbInTable(b: Pcb, p: PcbId, slots: seq<Option<PcbId>>)
    requires |slots| == MAX_PROCESS
  {
    && b.processID < MAX_PROCESS
    && (b.exit.Gone? <==> slots[b.processID] != Some(p))
    && (!b.exit.Alive? ==> b.exit.code == b.exitcode)
  }

  // What the two semaphores of a PCB have seen; they go with it.
  ghost predicate PcbSemsOk(b: Pcb, p: PcbId, sems: map<SemId, Sem>) {
    if b.exit.Gone? then JoinSem(p) !in sems && ExitSem(p) !in sems
    else PcbSemsLive(b, p, sems)
  }

  ghost predicate PcbSemsLive(b: Pcb, p: PcbId, sems: map<SemId, Sem>) {
    && JoinSem(p) in sems && ExitSem(p) in sems
    && sems[JoinSem(p)].initial == sems[ExitSem(p)].initial == 0
    && sems[JoinSem(p)].vs == (if Notified(b.exit) then 1 else 0)
    && sems[JoinSem(p)].ps == (if b.join.NotJoined? then 0 else 1)
    && sems[ExitSem(p)].vs == (if b.join.Joined? then 1 else 0)
    && sems[ExitSem(p)].ps == (if b.exit.Passed? then 1 else 0)
  }

  ghost predicate SemsOk(s: System) {
    && BMSEM in s.k.sems
    && (forall p :: 0 <= p < |s.pcbs| ==> PcbSemsOk(s.pcbs[p], p, s.k.sems))
    && (forall x :: x in s.k.sems ==> x < JoinSem(|s.pcbs|))
  }

  // A thread's stage and its process's way out agree.
  predicate StageFits(st: Stage, q: PcbId, x: ExitState) {
    && (st.ExitSet? <==> x.Coded?)
    && (st.ExitWait? <==> x.Released?)
    && (st.ExitGot? <==> x.Passed?)
    && (st.ExitWait? || st.ExitGot? ==> st.p == q)
    && !x.Gone?
  }

  // Every thread has a process of its own; a PCB being forked has no thread yet.
  ghost predicate OwnOk(procs: map<Tid, Proc>) {
    && (forall t, u :: t in procs && u in procs && procs[t].me == procs[u].me ==> t == u)
    && (forall t, u :: t in procs && u in procs && procs[t].stage.Forking? ==> procs[u].me != procs[t].stage.p)
    && (forall t, u :: t in procs && u in procs && procs[t].stage.Forking? && procs[u].stage == procs[t].stage ==> u == t)
  }

  ghost predicate ThreadOk(s: System, q: Proc) {
    && q.me < |s.pcbs| && StageFits(q.stage, q.me, s.pcbs[q.me].exit)
    && (q.stage.Forking? ==> 0 < q.stage.p < |s.pcbs| && s.pcbs[q.stage.p].exit.Alive?)
  }

  ghost predicate ProcessesOk(s: System) {
    && (forall t :: t in s.procs ==> ThreadOk(s, s.procs[t]))
    && OwnOk(s.procs)
  }

  predicate JoinStage(st: Stage) { st.JoinInc? || st.JoinWait? || st.JoinGot? }

  // A join follows the notification and reads the code; the way out follows the join.
  predicate JoinFits(b: Pcb) {
    && (!b.join.NotJoined? ==> Notified(b.exit))
    && (b.join.Joined? && Notified(b.exit) ==> b.join.code == b.exit.code)
    && (b.exit.Passed? || b.exit.Gone? ==> b.join.Joined?)
  }

  ghost predicate JoinsOk(s: System) {
    && (forall t :: t in s.procs && JoinStage(s.procs[t].stage) ==>
         s.procs[t].stage.p < |s.pcbs| && s.pcbs[s.procs[t].stage.p].processID == s.procs[t].stage.pid)
    && (forall t :: t in s.procs && s.procs[t].stage.JoinGot? ==> s.pcbs[s.procs[t].stage.p].join == Taken(t))
    && (forall p :: 0 <= p < |s.pcbs| && s.pcbs[p].join.Taken? ==>
         var t := s.pcbs[p].join.taker; t in s.procs && s.procs[t].stage.JoinGot? && s.procs[t].stage.p == p)
    && (forall p :: 0 <= p < |s.pcbs| ==> JoinFits(s.pcbs[p]))
  }

  // The parent of a child that has not been joined is there and has not begun to exit.
  ghost predicate HasParent(b: Pcb, s: System) {
    0 <= b.parentID < |s.slots| && Occupied(s, b.parentID) && PcbAt(s, b.parentID).exit.Alive?
  }

  ghost predicate ParentsOk(s: System) {
    && (forall p :: 0 < p < |s.pcbs| && !s.pcbs[p].join.Joined? ==> HasParent(s.pcbs[p], s))
    && s.pcbs != [] && s.pcbs[0].exit.Alive? && s.pcbs[0].processID == 0
  }

  function SemAt(st: Stage): Option<SemId> {
    match st
    case ExecP => Some(BMSEM)
    case JoinWait(_, _, p) => Some(JoinSem(p))
    case ExitWait(p) => Some(ExitSem(p))
    case _ => None
  }

  function StageSites(s: System): (at: Sites)
    ensures at.Keys == s.procs.Keys
  {
    map t | t in s.procs :: SemAt(s.procs[t].stage)
  }

  ghost predicate SysInv(s: System) {
    && Inv(s.k) && Asleep(s.k, StageSites(s))
    && TableOk(s) && SemsOk(s) && ProcessesOk(s) && JoinsOk(s) && ParentsOk(s)
  }

  lemma BootSysInv(t: Tid)
    ensures SysInv(Booted(t))
  {
    hide TableOk, SemsOk, ProcessesOk, JoinsOk, ParentsOk;
    BootInv(t);
    var k1 := NewStep(Boot(t), BMSEM, 1);
    StepInv(Boot(t), New(BMSEM, 1));
    StepInv(k1, New(JoinSem(0), 0));
    StepInv(NewStep(k1, JoinSem(0), 0), New(ExitSem(0), 0));
    BootTable(t);
  }

  lemma BootTable(t: Tid)
    ensures TableOk(Booted(t)) && SemsOk(Booted(t)) && ProcessesOk(Booted(t)) && JoinsOk(Booted(t)) && ParentsOk(Booted(t))
  {
    var s := Booted(t);
    assert forall i :: 0 < i < MAX_PROCESS ==> s.slots[i].None?;
    assert PcbInTable(s.pcbs[0], 0, s.slots);
    assert PcbSemsOk(s.pcbs[0], 0, s.k.sems);
  }

  // ----- the current thread -----

  // What the invariants say about thread t, without quantifiers.
  lemma ThreadFacts(s: System, t: Tid)
    requires SysInv(s) && t in s.procs
    ensures var q, st := s.procs[t].me, s.procs[t].stage;
      && q < |s.pcbs| && StageFits(st, q, s.pcbs[q].exit) && !s.pcbs[q].exit.Gone?
      && s.pcbs[q].processID < MAX_PROCESS == |s.slots| && s.slots[s.pcbs[q].processID] == Some(q)
      && JoinFits(s.pcbs[q]) && PcbSemsOk(s.pcbs[q], q, s.k.sems) && PcbInTable(s.pcbs[q], q, s.slots)
      && (q != 0 && !s.pcbs[q].join.Joined? ==> HasParent(s.pcbs[q], s))
      && (JoinStage(st) ==> st.p < |s.pcbs| && s.pcbs[st.p].processID == st.pid && PcbFacts(s, st.p))
      && (st.JoinGot? ==> s.pcbs[st.p].join == Taken(t))
      && (st.Forking? ==> 0 < st.p < |s.pcbs| && s.pcbs[st.p].exit.Alive?)
      && BMSEM in s.k.sems && (s.pcbs[q].processID != 0 ==> q != 0)
  {
    hide Inv, Asleep;
    assert PcbInTable(s.pcbs[s.procs[t].me], s.procs[t].me, s.slots);
    if JoinStage(s.procs[t].stage) { PcbFactsHold(s, s.procs[t].stage.p); }
  }

  ghost predicate PcbFacts(s: System, p: PcbId) {
    && p < |s.pcbs| && |s.slots| == MAX_PROCESS
    && JoinFits(s.pcbs[p]) && PcbSemsOk(s.pcbs[p], p, s.k.sems) && PcbInTable(s.pcbs[p], p, s.slots)
  }

  lemma PcbFactsHold(s: System, p: PcbId)
    requires SysInv(s) && p < |s.pcbs|
    ensures PcbFacts(s, p)
  {
    hide Inv, Asleep, ProcessesOk, ParentsOk;
  }

  lemma CurrentProc(s: System)
    requires SysInv(s) && s.k.current.Some?
    ensures s.k.current.value in s.procs
    ensures SemAt(s.procs[s.k.current.value].stage).None? ==> Free(s.k)
    ensures SemAt(s.procs[s.k.current.value].stage).Some? ==>
      var x := SemAt(s.procs[s.k.current.value].stage).value; x in s.k.sems ==> CanP(s.k, x)
  {
    hide Inv, TableOk, SemsOk, ProcessesOk, JoinsOk, ParentsOk;
    CurrentRuns(s.k);
    assert s.k.current.value in StageSites(s).Keys;
    hide Asleep;
    var x := SemAt(s.procs[s.k.current.value].stage);
    if x.None? {
      AwakeIsFree(s.k, StageSites(s));
    } else if x.value in s.k.sems {
      MayP(s.k, StageSites(s), x.value);
    }
  }

  // New semaphores get new numbers.
  lemma FreshSems(s: System)
    requires SysInv(s)
    ensures JoinSem(|s.pcbs|) !in s.k.sems && ExitSem(|s.pcbs|) !in s.k.sems
  {
    hide Inv, Asleep, TableOk, ProcessesOk, JoinsOk, ParentsOk;
  }

  // ----- the steps keep the invariant -----

  // Thread t moves to stage st and PCB r becomes b; nothing else changes in the table.
  ghost predicate Updates(s: System, s': System, t: Tid, st: Stage, r: PcbId, b: Pcb) {
    && t in s.procs && s.procs[t].me < |s.pcbs| && r < |s.pcbs|
    && s'.bits == s.bits && s'.slots == s.slots
    && s'.procs == s.procs[t := s.procs[t].(stage := st)]
    && s'.pcbs == s.pcbs[r := b]
    && b.processID == s.pcbs[r].processID && b.parentID == s.pcbs[r].parentID
  }

  lemma TableAfter(s: System, s': System, t: Tid, st: Stage, r: PcbId, b: Pcb)
    requires TableOk(s) && Updates(s, s', t, st, r, b) && PcbInTable(b, r, s.slots)
    ensures TableOk(s')
  {
    hide PcbInTable;
  }

  lemma SemsAfter(s: System, s': System, t: Tid, st: Stage, r: PcbId, b: Pcb)
    requires SemsOk(s) && Updates(s, s', t, st, r, b)
    requires forall x :: x in s'.k.sems <==> x in s.k.sems
    requires forall x :: x in s.k.sems && x != JoinSem(r) && x != ExitSem(r) && x != BMSEM ==>
      s'.k.sems[x].vs == s.k.sems[x].vs && s'.k.sems[x].ps == s.k.sems[x].ps && s'.k.sems[x].initial == s.k.sems[x].initial
    requires PcbSemsOk(b, r, s'.k.sems)
    ensures SemsOk(s')
  {
    forall p | 0 <= p < |s.pcbs| && p != r
      ensures PcbSemsOk(s.pcbs[p], p, s'.k.sems)
    {
      assert PcbSemsOk(s.pcbs[p], p, s.k.sems);
    }
  }

  lemma OwnAfter(procs: map<Tid, Proc>, t: Tid, st: Stage)
    requires OwnOk(procs) && t in procs && !st.Forking?
    ensures OwnOk(procs[t := procs[t].(stage := st)])
  {
  }

  lemma ProcessesAfter(s: System, s': System, t: Tid, st: Stage, r: PcbId, b: Pcb)
    requires ProcessesOk(s) && Updates(s, s', t, st, r, b)
    requires r == s.procs[t].me || b.exit == s.pcbs[r].exit
    requires StageFits(st, s.procs[t].me, s'.pcbs[s.procs[t].me].exit) && !st.Forking?
    ensures ProcessesOk(s')
  {
    OwnAfter(s.procs, t, st);
    forall u | u in s'.procs
      ensures ThreadOk(s', s'.procs[u])
    {
      assert ThreadOk(s, s.procs[u]);
      if u != t { assert s.procs[u].me != s.procs[t].me; }
      if s.procs[u].stage.Forking? { assert s.procs[t].me != s.procs[u].stage.p; }
    }
    hide ThreadOk, OwnOk;
  }

  lemma JoinsAfter(s: System, s': System, t: Tid, st: Stage, r: PcbId, b: Pcb)
    requires JoinsOk(s) && Updates(s, s', t, st, r, b) && JoinFits(b)
    requires JoinStage(st) ==> st.p < |s.pcbs| && s.pcbs[st.p].processID == st.pid
    requires st.JoinGot? ==> s'.pcbs[st.p].join == Taken(t)
    requires b.join == s.pcbs[r].join || !s.pcbs[r].join.Taken? || s.pcbs[r].join.taker == t
    requires b.join.Taken? ==>
      (b.join == s.pcbs[r].join && b.join.taker != t) || (b.join.taker == t && st.JoinGot? && st.p == r)
    requires s.procs[t].stage.JoinGot? ==> r == s.procs[t].stage.p
    ensures JoinsOk(s')
  {
    hide JoinFits;
  }

  lemma ParentsAfter(s: System, s': System, t: Tid, st: Stage, r: PcbId, b: Pcb)
    requires TableOk(s) && ParentsOk(s) && Updates(s, s', t, st, r, b)
    requires s.pcbs[r].join.Joined? ==> b.join.Joined?
    requires b.exit == s.pcbs[r].exit || !s.pcbs[r].exit.Alive?
          || (r != 0 && forall p :: 0 < p < |s.pcbs| && !s.pcbs[p].join.Joined? ==> s.pcbs[p].parentID != s.pcbs[r].processID)
    ensures ParentsOk(s')
  {
    hide PcbInTable;
    forall p | 0 < p < |s.pcbs| && !s'.pcbs[p].join.Joined?
      ensures HasParent(s'.pcbs[p], s')
    {
      assert HasParent(s.pcbs[p], s);
    }
  }

  // The part of the invariant that is about the process table.
  ghost predicate Tables(s: System) {
    TableOk(s) && SemsOk(s) && ProcessesOk(s) && JoinsOk(s) && ParentsOk(s)
  }

  // Counters of semaphores other than a and b are as before.
  ghost predicate SameCounts(sems: map<SemId, Sem>, sems': map<SemId, Sem>, a: SemId, b: SemId) {
    && (forall x :: x in sems' <==> x in sems)
    && forall x :: x in sems && x != a && x != b && x != BMSEM ==>
         sems'[x].vs == sems[x].vs && sems'[x].ps == sems[x].ps && sems'[x].initial == sems[x].initial
  }

  // A step that touches no PCB.
  lemma TablesAfterMove(s: System, s': System, t: Tid, st: Stage)
    requires SysInv(s) && t in s.procs && s.procs[t].me < |s.pcbs|
    requires s'.bits == s.bits && s'.slots == s.slots && s'.pcbs == s.pcbs
    requires s'.procs == s.procs[t := s.procs[t].(stage := st)]
    requires SameCounts(s.k.sems, s'.k.sems, BMSEM, BMSEM)
    requires StageFits(st, s.procs[t].me, s.pcbs[s.procs[t].me].exit) && !st.Forking? && !st.JoinGot?
    requires JoinStage(st) ==> st.p < |s.pcbs| && s.pcbs[st.p].processID == st.pid
    requires !s.procs[t].stage.JoinGot?
    ensures Tables(s')
  {
    hide Inv, Asleep, StageFits, JoinFits, PcbInTable, HasParent, TableOk, SemsOk, ProcessesOk, JoinsOk, ParentsOk;
    ThreadFacts(s, t);
    var q := s.procs[t].me;
    var b := s.pcbs[q];
    assert s.pcbs[q := b] == s.pcbs;
    NotTaken(s, t, q);
    assert PcbSemsOk(b, q, s'.k.sems);
    hide PcbSemsOk;
    TableAfter(s, s', t, st, q, b);
    SemsAfter(s, s', t, st, q, b);
    ProcessesAfter(s, s', t, st, q, b);
    JoinsAfter(s, s', t, st, q, b);
    ParentsAfter(s, s', t, st, q, b);
  }

  lemma NotTaken(s: System, t: Tid, q: PcbId)
    requires SysInv(s) && t in s.procs && q < |s.pcbs| && !s.procs[t].stage.JoinGot?
    ensures s.pcbs[q].join != Taken(t)
  {
    hide Inv, Asleep, TableOk, SemsOk, ProcessesOk, ParentsOk;
  }

  // A step that changes nothing but the kernel.
  lemma TablesAfterKernel(s: System, s': System)
    requires SysInv(s) && s' == s.(k := s'.k)
    requires SameCounts(s.k.sems, s'.k.sems, BMSEM, BMSEM)
    ensures Tables(s')
  {
    hide Inv, Asleep, TableOk, SemsOk, ProcessesOk, JoinsOk, ParentsOk;
    TableAfterKernel(s, s');
    SemsAfterKernel(s, s');
    ProcessesAfterKernel(s, s');
    JoinsAfterKernel(s, s');
    ParentsAfterKernel(s, s');
  }

  lemma TableAfterKernel(s: System, s': System)
    requires TableOk(s) && s' == s.(k := s'.k)
    ensures TableOk(s')
  {
  }

  lemma ProcessesAfterKernel(s: System, s': System)
    requires ProcessesOk(s) && s' == s.(k := s'.k)
    ensures ProcessesOk(s')
  {
  }

  lemma JoinsAfterKernel(s: System, s': System)
    requires JoinsOk(s) && s' == s.(k := s'.k)
    ensures JoinsOk(s')
  {
  }

  lemma SemsAfterKernel(s: System, s': System)
    requires SemsOk(s) && s'.pcbs == s.pcbs
    requires SameCounts(s.k.sems, s'.k.sems, BMSEM, BMSEM)
    ensures SemsOk(s')
  {
    forall p | 0 <= p < |s.pcbs|
      ensures PcbSemsOk(s.pcbs[p], p, s'.k.sems)
    {
      assert PcbSemsOk(s.pcbs[p], p, s.k.sems);
    }
  }

  lemma ParentsAfterKernel(s: System, s': System)
    requires ParentsOk(s) && s' == s.(k := s'.k)
    ensures ParentsOk(s')
  {
    forall p | 0 < p < |s.pcbs| && !s.pcbs[p].join.Joined?
      ensures HasParent(s'.pcbs[p], s')
    {
      assert HasParent(s.pcbs[p], s);
    }
  }

  lemma ScheduleTables(s: System, a: Action)
    requires SysInv(s) && PCan(s, Schedule(a))
    ensures Tables(PDo(s, Schedule(a)))
  {
    hide Inv, Asleep, Tables;
    TablesAfterKernel(s, PDo(s, Schedule(a)));
  }

  // The steps of ExecUpdate around the creation, and the checks of JoinUpdate.
  lemma MoveTables(s: System, e: PEvent)
    requires SysInv(s) && PCan(s, e)
    requires e.ExecCall? || e.ExecAcquire? || e.ExecFail? || e.ExecDone? || e.JoinCall? || e.JoinEnter?
    ensures Tables(PDo(s, e))
  {
    hide SysInv, Tables;
    var s', t := PDo(s, e), s.k.current.value;
    ThreadFacts(s, t);
    if s'.procs == s.procs {
      TablesAfterKernel(s, s');
    } else {
      if e.JoinCall? { SlotFacts(s, e.pid); }
      if e.JoinEnter? { SlotFacts(s, StageNow(s).pid); }
      TablesAfterMove(s, s', t, s'.procs[t].stage);
    }
  }

  lemma SlotFacts(s: System, i: int)
    requires SysInv(s) && Occupied(s, i)
    ensures PcbAt(s, i).processID == i && PcbFacts(s, s.slots[i].value)
  {
    hide Inv, Asleep, ProcessesOk, ParentsOk, SemsOk, JoinsOk;
    PcbFactsHold(s, s.slots[i].value);
  }

  // A step of thread t that also updates PCB r, taken apart into what each part of
  // the invariant needs.
  lemma TablesAfterUpdate(s: System, s': System, t: Tid, st: Stage, r: PcbId, b: Pcb)
    requires SysInv(s) && Updates(s, s', t, st, r, b)
    requires PcbInTable(b, r, s.slots) && JoinFits(b)
    requires SameCounts(s.k.sems, s'.k.sems, JoinSem(r), ExitSem(r)) && PcbSemsOk(b, r, s'.k.sems)
    requires r == s.procs[t].me || b.exit == s.pcbs[r].exit
    requires StageFits(st, s.procs[t].me, s'.pcbs[s.procs[t].me].exit) && !st.Forking?
    requires JoinStage(st) ==> st.p < |s.pcbs| && s.pcbs[st.p].processID == st.pid
    requires st.JoinGot? ==> s'.pcbs[st.p].join == Taken(t)
    requires b.join == s.pcbs[r].join || !s.pcbs[r].join.Taken? || s.pcbs[r].join.taker == t
    requires b.join.Taken? ==>
      (b.join == s.pcbs[r].join && b.join.taker != t) || (b.join.taker == t && st.JoinGot? && st.p == r)
    requires s.procs[t].stage.JoinGot? ==> r == s.procs[t].stage.p
    requires s.pcbs[r].join.Joined? ==> b.join.Joined?
    requires b.exit == s.pcbs[r].exit || !s.pcbs[r].exit.Alive? || (r != 0 && ChildlessAt(s, s.pcbs[r].processID))
    ensures Tables(s')
  {
    hide Inv, Asleep, StageFits, JoinFits, PcbInTable, PcbSemsOk, HasParent, TableOk, SemsOk, ProcessesOk, JoinsOk,
            ParentsOk;
    TableAfter(s, s', t, st, r, b);
    SemsAfter(s, s', t, st, r, b);
    ProcessesAfter(s, s', t, st, r, b);
    JoinsAfter(s, s', t, st, r, b);
    ParentsAfter(s, s', t, st, r, b);
  }

  // No PCB still to be joined has its parent in slot i.
  ghost predicate ChildlessAt(s: System, i: int) {
    forall p :: 0 < p < |s.pcbs| && !s.pcbs[p].join.Joined? ==> s.pcbs[p].parentID != i
  }

  lemma JoinPTables(s: System)
    requires SysInv(s) && PCan(s, JoinP)
    ensures Tables(PDo(s, JoinP))
  {
    hide SysInv, Tables;
    var s', t, p := PDo(s, JoinP), s.k.current.value, StageNow(s).p;
    ThreadFacts(s, t);
    SemAccount(s, JoinSem(p));
    if PSucceeds(s.k, JoinSem(p)) {
      TablesAfterUpdate(s, s', t, s'.procs[t].stage, p, s'.pcbs[p]);
    } else {
      TablesAfterKernel(s, s');
    }
  }

  lemma SemAccount(s: System, x: SemId)
    requires SysInv(s) && x in s.k.sems
    ensures s.k.sems[x].value + s.k.sems[x].ps == s.k.sems[x].initial + s.k.sems[x].vs
  {
    hide Placed, WokenOk, Asleep, TableOk, SemsOk, ProcessesOk, JoinsOk, ParentsOk;
    assert SemOk(s.k, x);
  }

  lemma JoinReadTables(s: System)
    requires SysInv(s) && PCan(s, JoinRead)
    ensures Tables(PDo(s, JoinRead))
  {
    hide SysInv, Tables;
    var s', t, p := PDo(s, JoinRead), s.k.current.value, StageNow(s).p;
    ThreadFacts(s, t);
    TablesAfterUpdate(s, s', t, Running, p, s'.pcbs[p]);
  }

  lemma ExitCallTables(s: System, code: int)
    requires SysInv(s) && PCan(s, ExitCall(code))
    ensures Tables(PDo(s, ExitCall(code)))
  {
    hide SysInv, Tables;
    var s', t := PDo(s, ExitCall(code)), s.k.current.value;
    ThreadFacts(s, t);
    ChildrenAllJoined(s);
    var q := s.procs[t].me;
    NotTaken(s, t, q);
    TablesAfterUpdate(s, s', t, ExitSet, q, s'.pcbs[q]);
  }

  // The convention on exit, in terms of every PCB still to be joined.
  lemma ChildrenAllJoined(s: System)
    requires SysInv(s) && HasProc(s) && ChildrenJoined(s)
    ensures ChildlessAt(s, MyPcb(s).processID)
  {
    hide Inv, Asleep, SemsOk, ProcessesOk, ParentsOk;
    forall p | 0 < p < |s.pcbs| && !s.pcbs[p].join.Joined?
      ensures s.pcbs[p].parentID != MyPcb(s).processID
    {
      assert PcbInTable(s.pcbs[p], p, s.slots) && JoinFits(s.pcbs[p]);
      assert Occupied(s, s.pcbs[p].processID);
    }
  }

  lemma ExitReleaseTables(s: System)
    requires SysInv(s) && PCan(s, ExitRelease)
    ensures Tables(PDo(s, ExitRelease))
  {
    hide SysInv, Tables;
    var s', t := PDo(s, ExitRelease), s.k.current.value;
    ThreadFacts(s, t);
    var q := s.procs[t].me;
    NotTaken(s, t, q);
    TablesAfterUpdate(s, s', t, ExitWait(q), q, s'.pcbs[q]);
  }

  lemma ExitPTables(s: System)
    requires SysInv(s) && PCan(s, ExitP)
    ensures Tables(PDo(s, ExitP))
  {
    hide SysInv, Tables;
    var s', t, q := PDo(s, ExitP), s.k.current.value, StageNow(s).p;
    ThreadFacts(s, t);
    SemAccount(s, ExitSem(q));
    if PSucceeds(s.k, ExitSem(q)) {
      NotTaken(s, t, q);
      TablesAfterUpdate(s, s', t, ExitGot(q), q, s'.pcbs[q]);
    } else {
      TablesAfterKernel(s, s');
    }
  }

  // ----- creation -----

  // Thread t fills slot i with a new PCB.
  ghost predicate Creates(s: System, s': System, t: Tid, i: nat) {
    && t in s.procs && s.procs[t].me < |s.pcbs|
    && 0 < i < |s.slots| && s.slots[i].None?
    && s'.bits == s.bits + {i} && s'.slots == s.slots[i := Some(|s.pcbs|)]
    && s'.pcbs == s.pcbs + [Pcb(i, s.pcbs[s.procs[t].me].processID, 0, NotJoined, Alive)]
    && s'.procs == s.procs[t := s.procs[t].(stage := Forking(|s.pcbs|))]
  }

  lemma CreateTable(s: System, s': System, t: Tid, i: nat)
    requires TableOk(s) && Creates(s, s', t, i)
    ensures TableOk(s')
  {
    forall p | 0 <= p < |s'.pcbs|
      ensures PcbInTable(s'.pcbs[p], p, s'.slots)
    {
      if p < |s.pcbs| { assert PcbInTable(s.pcbs[p], p, s.slots); }
    }
    hide PcbInTable;
  }

  lemma CreateSems(s: System, s': System, t: Tid, i: nat)
    requires SemsOk(s) && Creates(s, s', t, i)
    requires var j, e := JoinSem(|s.pcbs|), ExitSem(|s.pcbs|);
      s'.k.sems == s.k.sems[j := Sem(0, [], 0, 0, 0)][e := Sem(0, [], 0, 0, 0)]
    ensures SemsOk(s')
  {
    forall p | 0 <= p < |s'.pcbs|
      ensures PcbSemsOk(s'.pcbs[p], p, s'.k.sems)
    {
      if p < |s.pcbs| { assert PcbSemsOk(s.pcbs[p], p, s.k.sems); }
    }
    hide PcbSemsOk;
  }

  lemma OwnAfterCreate(procs: map<Tid, Proc>, t: Tid, n: PcbId)
    requires OwnOk(procs) && t in procs
    requires forall u :: u in procs ==> procs[u].me < n && (procs[u].stage.Forking? ==> procs[u].stage.p < n)
    ensures OwnOk(procs[t := procs[t].(stage := Forking(n))])
  {
  }

  lemma CreateProcesses(s: System, s': System, t: Tid, i: nat)
    requires ProcessesOk(s) && Creates(s, s', t, i) && !ExitStage(s.procs[t].stage) && !s.procs[t].stage.Forking?
    ensures ProcessesOk(s')
  {
    hide OwnOk;
    OwnAfterCreate(s.procs, t, |s.pcbs|);
    forall u | u in s'.procs
      ensures ThreadOk(s', s'.procs[u])
    {
      assert ThreadOk(s, s.procs[u]);
    }
    hide ThreadOk;
  }

  predicate ExitStage(st: Stage) { st.ExitSet? || st.ExitWait? || st.ExitGot? }

  lemma CreateJoins(s: System, s': System, t: Tid, i: nat)
    requires JoinsOk(s) && Creates(s, s', t, i) && !JoinStage(s.procs[t].stage)
    ensures JoinsOk(s')
  {
    assert forall p :: 0 <= p < |s.pcbs| ==> s'.pcbs[p] == s.pcbs[p];
    assert JoinFits(s'.pcbs[|s.pcbs|]);
    hide JoinFits;
  }

  lemma CreateParents(s: System, s': System, t: Tid, i: nat)
    requires ParentsOk(s) && Creates(s, s', t, i)
    requires var b := s.pcbs[s.procs[t].me];
      b.exit.Alive? && b.processID < |s.slots| && s.slots[b.processID] == Some(s.procs[t].me)
    ensures ParentsOk(s')
  {
    forall p | 0 < p < |s'.pcbs| && !s'.pcbs[p].join.Joined?
      ensures HasParent(s'.pcbs[p], s')
    {
      if p < |s.pcbs| { assert HasParent(s.pcbs[p], s); }
    }
  }

  lemma Parts(s: System)
    requires SysInv(s)
    ensures TableOk(s) && SemsOk(s) && ProcessesOk(s) && JoinsOk(s) && ParentsOk(s)
  {
    hide Inv, Asleep, TableOk, SemsOk, ProcessesOk, JoinsOk, ParentsOk;
  }

  lemma CreateIs(s: System)
    requires SysInv(s) && PCan(s, ExecCreate)
    ensures s.k.current.Some? && s.k.current.value in s.procs
    ensures s.procs[s.k.current.value].stage.ExecGot? && s.procs[s.k.current.value].me < |s.pcbs|
    ensures Creates(s, PDo(s, ExecCreate), s.k.current.value, LeastFree(s.bits, 0, MAX_PROCESS))
    ensures var b := s.pcbs[s.procs[s.k.current.value].me];
      b.exit.Alive? && b.processID < |s.slots| && s.slots[b.processID] == Some(s.procs[s.k.current.value].me)
  {
    hide SysInv, LeastFree;
    FreeSlotIsFree(s);
    ThreadFacts(s, s.k.current.value);
    hide HasParent, JoinFits, PcbSemsOk, PcbInTable, PcbFacts;
    StageIsAlive(s, s.k.current.value);
  }

  lemma FreeSlotIsFree(s: System)
    requires SysInv(s) && LeastFree(s.bits, 0, MAX_PROCESS) < MAX_PROCESS
    ensures |s.slots| == MAX_PROCESS
    ensures var i := LeastFree(s.bits, 0, MAX_PROCESS); 0 < i && s.slots[i].None?
  {
    hide Inv, Asleep, SemsOk, ProcessesOk, JoinsOk, ParentsOk;
  }

  lemma ExecCreateTables(s: System)
    requires SysInv(s) && PCan(s, ExecCreate)
    ensures Tables(PDo(s, ExecCreate))
  {
    hide SysInv, PCan, LeastFree, Creates, TableOk, SemsOk, ProcessesOk, JoinsOk, ParentsOk;
    CreateIs(s);
    Parts(s);
    var s', t, i := PDo(s, ExecCreate), s.k.current.value, LeastFree(s.bits, 0, MAX_PROCESS);
    CreateTable(s, s', t, i);
    CreateSems(s, s', t, i);
    CreateProcesses(s, s', t, i);
    CreateJoins(s, s', t, i);
    CreateParents(s, s', t, i);
  }

  lemma StageIsAlive(s: System, t: Tid)
    requires t in s.procs && s.procs[t].me < |s.pcbs| && !ExitStage(s.procs[t].stage)
    requires StageFits(s.procs[t].stage, s.procs[t].me, s.pcbs[s.procs[t].me].exit)
    ensures s.pcbs[s.procs[t].me].exit.Alive?
  {
  }

  // Thread t forks u as the thread of PCB p.
  ghost predicate Forks(s: System, s': System, t: Tid, u: Tid, p: PcbId) {
    && t in s.procs && u !in s.procs && s.procs[t].stage == Forking(p)
    && s'.bits == s.bits && s'.slots == s.slots && s'.pcbs == s.pcbs
    && s'.procs == s.procs[t := s.procs[t].(stage := ExecForked)][u := Proc(Running, p)]
  }

  lemma OwnAfterFork(procs: map<Tid, Proc>, t: Tid, u: Tid, p: PcbId)
    requires OwnOk(procs) && t in procs && u !in procs && procs[t].stage == Forking(p)
    ensures OwnOk(procs[t := procs[t].(stage := ExecForked)][u := Proc(Running, p)])
  {
    OwnAfter(procs, t, ExecForked);
    var mid := procs[t := procs[t].(stage := ExecForked)];
    assert forall v :: v in procs && procs[v].stage == Forking(p) ==> v == t;
    assert forall v :: v in mid ==> mid[v].me != p && mid[v].stage != Forking(p);
  }

  lemma ForkProcesses(s: System, s': System, t: Tid, u: Tid, p: PcbId)
    requires ProcessesOk(s) && Forks(s, s', t, u, p)
    ensures ProcessesOk(s')
  {
    hide OwnOk;
    OwnAfterFork(s.procs, t, u, p);
    assert ThreadOk(s, s.procs[t]);
    forall v | v in s'.procs
      ensures ThreadOk(s', s'.procs[v])
    {
      if v != u { assert ThreadOk(s, s.procs[v]); }
    }
    hide ThreadOk;
  }

  lemma ForkJoins(s: System, s': System, t: Tid, u: Tid, p: PcbId)
    requires JoinsOk(s) && Forks(s, s', t, u, p)
    ensures JoinsOk(s')
  {
    hide JoinFits;
  }

  lemma ForkParents(s: System, s': System, t: Tid, u: Tid, p: PcbId)
    requires ParentsOk(s) && Forks(s, s', t, u, p)
    ensures ParentsOk(s')
  {
    forall p | 0 < p < |s.pcbs| && !s.pcbs[p].join.Joined?
      ensures HasParent(s'.pcbs[p], s')
    {
      assert HasParent(s.pcbs[p], s);
    }
  }

  lemma ExecForkTables(s: System, u: Tid)
    requires SysInv(s) && PCan(s, ExecFork(u))
    ensures Tables(PDo(s, ExecFork(u)))
  {
    hide Inv, Asleep, TableOk, SemsOk, ProcessesOk, JoinsOk, ParentsOk;
    var s', t, p := PDo(s, ExecFork(u)), s.k.current.value, StageNow(s).p;
    NewThread(s, u);
    assert TableOk(s') by { TableAfterKernel(s, s'.(procs := s.procs)); SameTable(s'.(procs := s.procs), s'); }
    SemsAfterKernel(s, s');
    ForkProcesses(s, s', t, u, p);
    ForkJoins(s, s', t, u, p);
    ForkParents(s, s', t, u, p);
  }

  // The PCB array says nothing about threads.
  lemma SameTable(s: System, s': System)
    requires TableOk(s) && s'.bits == s.bits && s'.slots == s.slots && s'.pcbs == s.pcbs
    ensures TableOk(s')
  {
  }

  lemma NewThread(s: System, t: Tid)
    requires SysInv(s) && t !in s.k.status
    ensures t !in s.procs
  {
    hide Inv, TableOk, SemsOk, ProcessesOk, JoinsOk, ParentsOk;
    assert t in s.procs ==> t in StageSites(s).Keys;
  }

  // ----- removal -----

  // Thread t takes its PCB q out of slot i and is gone.
  ghost predicate Removes(s: System, s': System, t: Tid, q: PcbId, i: nat) {
    && t in s.procs && s.procs[t].me == q && 0 < q < |s.pcbs|
    && 0 < i < |s.slots| && s.slots[i] == Some(q) && s.pcbs[q].processID == i
    && s.pcbs[q].exit.Passed? && s.pcbs[q].exit.code == s.pcbs[q].exitcode
    && s'.bits == s.bits - {i} && s'.slots == s.slots[i := None]
    && s'.pcbs == s.pcbs[q := s.pcbs[q].(exit := Gone(s.pcbs[q].exitcode))]
    && s'.procs == s.procs - {t}
  }

  lemma RemoveTable(s: System, s': System, t: Tid, q: PcbId, i: nat)
    requires TableOk(s) && Removes(s, s', t, q, i)
    ensures TableOk(s')
  {
    forall p | 0 <= p < |s.pcbs|
      ensures PcbInTable(s'.pcbs[p], p, s'.slots)
    {
      assert PcbInTable(s.pcbs[p], p, s.slots);
    }
    hide PcbInTable;
  }

  lemma RemoveSems(s: System, s': System, t: Tid, q: PcbId, i: nat)
    requires SemsOk(s) && Removes(s, s', t, q, i) && s'.k.sems == s.k.sems - {JoinSem(q)} - {ExitSem(q)}
    ensures SemsOk(s')
  {
    forall p | 0 <= p < |s.pcbs|
      ensures PcbSemsOk(s'.pcbs[p], p, s'.k.sems)
    {
      assert PcbSemsOk(s.pcbs[p], p, s.k.sems);
    }
    hide PcbSemsOk;
  }

  lemma RemoveProcesses(s: System, s': System, t: Tid, q: PcbId, i: nat)
    requires ProcessesOk(s) && Removes(s, s', t, q, i)
    ensures ProcessesOk(s')
  {
    assert OwnOk(s'.procs);
    forall u | u in s'.procs
      ensures ThreadOk(s', s'.procs[u])
    {
      assert ThreadOk(s, s.procs[u]) && s.procs[u].me != s.procs[t].me;
    }
    hide OwnOk, ThreadOk;
  }

  lemma RemoveJoins(s: System, s': System, t: Tid, q: PcbId, i: nat)
    requires JoinsOk(s) && Removes(s, s', t, q, i) && s.procs[t].stage.ExitGot?
    ensures JoinsOk(s')
  {
    assert JoinFits(s.pcbs[q]);
    assert JoinFits(s'.pcbs[q]);
    hide JoinFits;
  }

  lemma RemoveParents(s: System, s': System, t: Tid, q: PcbId, i: nat)
    requires ParentsOk(s) && Removes(s, s', t, q, i)
    ensures ParentsOk(s')
  {
    forall p | 0 < p < |s.pcbs| && !s'.pcbs[p].join.Joined?
      ensures HasParent(s'.pcbs[p], s')
    {
      assert HasParent(s.pcbs[p], s);
    }
  }

  lemma RemoveIs(s: System)
    requires SysInv(s) && PCan(s, RemoveSelf)
    ensures s.k.current.Some? && s.k.current.value in s.procs && s.procs[s.k.current.value].me < |s.pcbs|
    ensures s.procs[s.k.current.value].stage.ExitGot?
    ensures var t := s.k.current.value;
      Removes(s, PDo(s, RemoveSelf), t, s.procs[t].me, s.pcbs[s.procs[t].me].processID)
      && PDo(s, RemoveSelf).k.sems == s.k.sems - {JoinSem(s.procs[t].me)} - {ExitSem(s.procs[t].me)}
  {
    hide SysInv;
    SlotZero(s);
    ThreadFacts(s, s.k.current.value);
    hide HasParent, JoinFits, PcbSemsOk, PcbFacts;
  }

  lemma RemoveSelfTables(s: System)
    requires SysInv(s) && PCan(s, RemoveSelf)
    ensures Tables(PDo(s, RemoveSelf))
  {
    hide SysInv, PCan, Removes, TableOk, SemsOk, ProcessesOk, JoinsOk, ParentsOk;
    RemoveIs(s);
    Parts(s);
    var s', t := PDo(s, RemoveSelf), s.k.current.value;
    var q, i := s.procs[t].me, s.pcbs[s.procs[t].me].processID;
    RemoveTable(s, s', t, q, i);
    RemoveSems(s, s', t, q, i);
    RemoveProcesses(s, s', t, q, i);
    RemoveJoins(s, s', t, q, i);
    RemoveParents(s, s', t, q, i);
  }

  lemma SlotZero(s: System)
    requires SysInv(s)
    ensures |s.slots| == MAX_PROCESS && s.slots[0] == Some(0)
    ensures s.pcbs != [] && s.pcbs[0].exit.Alive?
  {
    hide Inv, Asleep, SemsOk, ProcessesOk, JoinsOk;
  }

  // ----- every step -----

  lemma TablesKept(s: System, e: PEvent)
    requires SysInv(s) && PCan(s, e)
    ensures Tables(PDo(s, e))
  {
    hide SysInv, Tables, PDo;
    match e
    case Schedule(a) => ScheduleTables(s, a);
    case ExecCreate => ExecCreateTables(s);
    case ExecFork(t) => ExecForkTables(s, t);
    case JoinP => JoinPTables(s);
    case JoinRead => JoinReadTables(s);
    case ExitCall(code) => ExitCallTables(s, code);
    case ExitRelease => ExitReleaseTables(s);
    case ExitP => ExitPTables(s);
    case RemoveSelf => RemoveSelfTables(s);
    case _ => MoveTables(s, e);
  }

  lemma KernelKept(s: System, e: PEvent)
    requires SysInv(s) && PCan(s, e)
    ensures Inv(PDo(s, e).k)
  {
    hide Inv, Asleep, TableOk, SemsOk, ProcessesOk, JoinsOk, ParentsOk;
    match e
    case Schedule(a) => StepInv(s.k, a);
    case ExecAcquire => PInv(s.k, BMSEM);
    case ExecFail => VInv(s.k, BMSEM);
    case ExecCreate =>
      StepInv(s.k, New(JoinSem(|s.pcbs|), 0));
      StepInv(NewStep(s.k, JoinSem(|s.pcbs|), 0), New(ExitSem(|s.pcbs|), 0));
    case ExecFork(t) => StepInv(s.k, Fork(t));
    case ExecDone => VInv(s.k, BMSEM);
    case JoinP => PInv(s.k, JoinSem(StageNow(s).p));
    case JoinRead => VInv(s.k, ExitSem(s.slots[StageNow(s).pid].value));
    case ExitRelease => VInv(s.k, JoinSem(s.slots[MyPcb(s).processID].value));
    case ExitP => PInv(s.k, ExitSem(StageNow(s).p));
    case RemoveSelf => DeletedInv(s);
    case _ =>
  }

  // The kernel while the PCB is deleted.
  lemma DeletedInv(s: System)
    requires Inv(s.k) && PCan(s, RemoveSelf)
    ensures var q := s.slots[MyPcb(s).processID].value;
      var k1 := DeleteStep(s.k, JoinSem(q));
      CanDelete(k1, ExitSem(q)) && Inv(DeleteStep(k1, ExitSem(q))) && Inv(PDo(s, RemoveSelf).k)
  {
    hide Inv;
    var q := s.slots[MyPcb(s).processID].value;
    var k1 := DeleteStep(s.k, JoinSem(q));
    StepInv(s.k, Delete(JoinSem(q)));
    StepInv(k1, Delete(ExitSem(q)));
    StepInv(DeleteStep(k1, ExitSem(q)), Finish);
  }

  lemma SitesAfterMove(s: System, s': System, t: Tid, st: Stage)
    requires t in s.procs && s'.procs == s.procs[t := s.procs[t].(stage := st)]
    ensures StageSites(s') == StageSites(s)[t := SemAt(st)]
  {
  }

  lemma AsleepKept(s: System, e: PEvent)
    requires SysInv(s) && PCan(s, e)
    ensures Asleep(PDo(s, e).k, StageSites(PDo(s, e)))
  {
    hide Inv, Asleep, TableOk, SemsOk, ProcessesOk, JoinsOk, ParentsOk;
    var s', at := PDo(s, e), StageSites(s);
    match e
    case Schedule(a) => AsleepAfterSchedule(s.k, a, at);
    case ExecFork(u) => AsleepAfterExecFork(s, u);
    case RemoveSelf =>
      AsleepAfterRemove(s);
    case ExecAcquire => AsleepAfterWait(s, e, BMSEM);
    case JoinP => AsleepAfterWait(s, e, JoinSem(StageNow(s).p));
    case ExitP => AsleepAfterWait(s, e, ExitSem(StageNow(s).p));
    case _ => AsleepAfterRun(s, e);
  }

  lemma AsleepAfterRemove(s: System)
    requires SysInv(s) && PCan(s, RemoveSelf)
    ensures Asleep(PDo(s, RemoveSelf).k, StageSites(PDo(s, RemoveSelf)))
  {
    hide Inv, Asleep, TableOk, SemsOk, ProcessesOk, JoinsOk, ParentsOk;
    var s', at, q := PDo(s, RemoveSelf), StageSites(s), s.slots[MyPcb(s).processID].value;
    var k2 := DeleteStep(DeleteStep(s.k, JoinSem(q)), ExitSem(q));
    DeletedInv(s);
    AsleepSameThreads(s.k, k2, at);
    AsleepAfterSchedule(k2, Finish, at);
    assert StageSites(s') == at - {s.k.current.value};
  }

  lemma AsleepAfterExecFork(s: System, u: Tid)
    requires SysInv(s) && PCan(s, ExecFork(u))
    ensures Asleep(PDo(s, ExecFork(u)).k, StageSites(PDo(s, ExecFork(u))))
  {
    hide Inv, Asleep, TableOk, SemsOk, ProcessesOk, JoinsOk, ParentsOk;
    var s', at, t := PDo(s, ExecFork(u)), StageSites(s), s.k.current.value;
    NewThread(s, u);
    AsleepAfterSchedule(s.k, Fork(u), at);
    StepInv(s.k, Fork(u));
    assert StageSites(s') == at[u := None][t := None];
    AsleepAfterMove(s'.k, at[u := None], None);
  }

  lemma AsleepAfterWait(s: System, e: PEvent, x: SemId)
    requires SysInv(s) && PCan(s, e)
    requires e.ExecAcquire? || e.JoinP? || e.ExitP?
    requires HasProc(s) && SemAt(StageNow(s)) == Some(x)
    ensures Asleep(PDo(s, e).k, StageSites(PDo(s, e)))
  {
    hide Inv, Asleep, TableOk, SemsOk, ProcessesOk, JoinsOk, ParentsOk;
    var s', at, t := PDo(s, e), StageSites(s), s.k.current.value;
    if s'.procs == s.procs {
      assert at[t := SemAt(StageNow(s))] == at;
    } else {
      SitesAfterMove(s, s', t, s'.procs[t].stage);
    }
    ThreadFacts(s, t);
    AsleepAfterP(s.k, x, at, SemAt(s'.procs[t].stage));
  }

  lemma AsleepAfterRun(s: System, e: PEvent)
    requires SysInv(s) && PCan(s, e)
    requires !e.Schedule? && !e.ExecFork? && !e.RemoveSelf? && !e.ExecAcquire? && !e.JoinP? && !e.ExitP?
    ensures Asleep(PDo(s, e).k, StageSites(PDo(s, e)))
  {
    hide Inv, Asleep, TableOk, SemsOk, ProcessesOk, JoinsOk, ParentsOk;
    var s', at, t := PDo(s, e), StageSites(s), s.k.current.value;
    CurrentProc(s);
    if s' != s {
      SitesAfterMove(s, s', t, s'.procs[t].stage);
      AsleepAfterMove(s.k, at, SemAt(s'.procs[t].stage));
      match e
      case ExecFail => AsleepAfterV(s.k, BMSEM, StageSites(s'));
      case ExecDone => AsleepAfterV(s.k, BMSEM, StageSites(s'));
      case JoinRead => AsleepAfterV(s.k, ExitSem(s.slots[StageNow(s).pid].value), StageSites(s'));
      case ExitRelease => AsleepAfterV(s.k, JoinSem(s.slots[MyPcb(s).processID].value), StageSites(s'));
      case _ => AsleepSameThreads(s.k, s'.k, StageSites(s'));
    }
  }

  /** Every step keeps the invariant. */
  lemma StepKeeps(s: System, e: PEvent)
    requires SysInv(s) && PCan(s, e)
    ensures SysInv(PDo(s, e))
  {
    hide Inv, Asleep, TableOk, SemsOk, ProcessesOk, JoinsOk, ParentsOk, PCan, PDo;
    TablesKept(s, e);
    KernelKept(s, e);
    AsleepKept(s, e);
  }

  // ----- every run -----

  // A run, up to the first step that would use a null PCB pointer or a dead semaphore
  // or delete a semaphore in use.
  ghost predicate IsSafeRun(states: seq<System>, events: seq<PEvent>) {
    && |states| == |events| + 1
    && (exists t :: states[0] == Booted(t))
    && forall i :: 0 <= i < |events| ==> PCan(states[i], events[i]) && states[i + 1] == PDo(states[i], events[i])
  }

  lemma {:induction false} SafeRunInv(states: seq<System>, events: seq<PEvent>, n: nat)
    requires IsSafeRun(states, events) && n < |states|
    ensures SysInv(states[n])
  {
    hide SysInv, PCan, PDo;
    if n == 0 {
      var t :| states[0] == Booted(t);
      BootSysInv(t);
    } else {
      SafeRunInv(states, events, n - 1);
      StepKeeps(states[n - 1], events[n - 1]);
    }
  }

  /** A JoinUpdate that has reached JoinWait gets through it exactly when the process
      has been through JoinRelease and no join has been through before. */
  lemma JoinProceedsIff(s: System, t: Tid, pid: nat, asked: PcbId, p: PcbId)
    requires SysInv(s) && s.k.current == Some(t) && t in s.procs
    requires s.procs[t].stage == JoinWait(pid, asked, p) && PCan(s, JoinP)
    ensures p < |s.pcbs| && CanP(s.k, JoinSem(p))
    ensures PSucceeds(s.k, JoinSem(p)) <==> Notified(s.pcbs[p].exit) && s.pcbs[p].join.NotJoined?
  {
    hide SysInv;
    ThreadFacts(s, t);
    SemAccount(s, JoinSem(p));
  }

  // A join, once it has been through, is never undone and never had again.
  lemma JoinedStays(s: System, e: PEvent, p: PcbId, t: Tid)
    requires SysInv(s) && PCan(s, e) && p < |s.pcbs| && !s.pcbs[p].join.NotJoined? && s.pcbs[p].join != Taken(t)
    ensures p < |PDo(s, e).pcbs|
    ensures !PDo(s, e).pcbs[p].join.NotJoined? && PDo(s, e).pcbs[p].join != Taken(t)
  {
    hide SysInv;
    if e.JoinP? {
      var u := s.k.current.value;
      ThreadFacts(s, u);
      JoinProceedsIff(s, u, s.procs[u].stage.pid, s.procs[u].stage.asked, s.procs[u].stage.p);
    }
  }

  // The code a process gives to ExitUpdate stays with its PCB.
  lemma CodeStays(s: System, e: PEvent, p: PcbId)
    requires SysInv(s) && PCan(s, e) && p < |s.pcbs| && !s.pcbs[p].exit.Alive?
    ensures p < |PDo(s, e).pcbs| && !PDo(s, e).pcbs[p].exit.Alive? && PDo(s, e).pcbs[p].exit.code == s.pcbs[p].exit.code
  {
    hide SysInv;
    if !e.Schedule? { ThreadFacts(s, s.k.current.value); }
    PcbFactsHold(s, p);
  }

  // At event e the process of PCB p called ExitUpdate(code).
  ghost predicate ExitedWith(states: seq<System>, events: seq<PEvent>, e: nat, p: PcbId, code: int) {
    && e < |events| < |states| && events[e] == ExitCall(code)
    && HasProc(states[e]) && states[e].procs[states[e].k.current.value].me == p
  }

  lemma CodeStep(s: System, e: PEvent, p: PcbId)
    requires SysInv(s) && PCan(s, e) && p < |PDo(s, e).pcbs| && !PDo(s, e).pcbs[p].exit.Alive?
    ensures p < |s.pcbs|
    ensures var b := PDo(s, e).pcbs[p];
      if s.pcbs[p].exit.Alive? then
        e == ExitCall(b.exit.code) && HasProc(s) && s.procs[s.k.current.value].me == p
      else b.exit.code == s.pcbs[p].exit.code
  {
    hide SysInv;
    if !e.Schedule? { ThreadFacts(s, s.k.current.value); }
    if p < |s.pcbs| { PcbFactsHold(s, p); }
  }

  /** Whatever code a PCB holds, its process gave it to ExitUpdate. */
  lemma {:induction false} CodeOverRuns(states: seq<System>, events: seq<PEvent>, p: PcbId, n: nat) returns (e: nat)
    requires IsSafeRun(states, events) && n < |states|
    requires p < |states[n].pcbs| && !states[n].pcbs[p].exit.Alive?
    ensures e < n && ExitedWith(states, events, e, p, states[n].pcbs[p].exit.code)
  {
    hide SysInv, PCan, PDo;
    NobodyExitedYet(states, events);
    SafeRunInv(states, events, n - 1);
    CodeStep(states[n - 1], events[n - 1], p);
    if states[n - 1].pcbs[p].exit.Alive? {
      e := n - 1;
    } else {
      e := CodeOverRuns(states, events, p, n - 1);
    }
  }

  lemma NobodyExitedYet(states: seq<System>, events: seq<PEvent>)
    requires IsSafeRun(states, events)
    ensures |states| == |events| + 1
    ensures |states[0].pcbs| == 1 && states[0].pcbs[0].exit.Alive? && states[0].joined == []
    ensures forall t :: t in states[0].procs ==> states[0].procs[t].stage.Running?
  {
    hide PCan, PDo;
  }

  // When nothing can run, every thread sleeps at a P on a semaphore that is at 0.
  lemma SitesOf(s: System, t: Tid)
    requires SysInv(s) && s.k.current.None? && s.k.ready == [] && t in s.procs
    ensures var x := SemAt(s.procs[t].stage);
      x.Some? && x.value in s.k.sems && s.k.sems[x.value].value == 0
  {
    hide Inv, Asleep, TableOk, SemsOk, ProcessesOk, JoinsOk, ParentsOk;
    QuiescentAsleep(s.k, StageSites(s), t);
  }

  /** When nothing can run: a thread asleep in JoinWait is at a PCB that is still there,
      whose process has not exited or has been joined; one asleep in ExitWait is at its
      own, which has not been joined. */
  lemma QuiescentProcesses(s: System, t: Tid)
    requires SysInv(s) && s.k.current.None? && s.k.ready == [] && t in s.procs
    ensures AsleepForAReason(s, s.procs[t])
  {
    hide SysInv, HasParent, PcbInTable;
    SitesOf(s, t);
    ThreadFacts(s, t);
    match s.procs[t].stage
    case JoinWait(_, _, p) => SemAccount(s, JoinSem(p));
    case ExitWait(p) => SemAccount(s, ExitSem(p));
    case _ =>
  }

  ghost predicate AsleepForAReason(s: System, q: Proc) {
    && SemAt(q.stage).Some?
    && (q.stage.JoinWait? ==>
         q.stage.p < |s.pcbs| && !s.pcbs[q.stage.p].exit.Gone?
         && (!Notified(s.pcbs[q.stage.p].exit) || !s.pcbs[q.stage.p].join.NotJoined?))
    && (q.stage.ExitWait? ==> q.stage.p == q.me < |s.pcbs| && !s.pcbs[q.me].join.Joined?)
  }

  // The thread sleeps at that P, which it will try again.
  ghost predicate AsleepAt(s: System, t: Tid, x: SemId) {
    && s.k.current.None? && t in s.k.status && s.k.status[t] == BLOCKED(x)
    && t in s.procs && SemAt(s.procs[t].stage) == Some(x)
  }

  lemma CurrentHasStatus(s: System)
    requires SysInv(s) && s.k.current.Some?
    ensures s.k.current.value in s.k.status
  {
    hide Asleep, TableOk, SemsOk, ProcessesOk, JoinsOk, ParentsOk;
    CurrentRuns(s.k);
  }

  /** The order of the steps in ExecUpdate: each leads to the next, and a P that does not
      get through is tried again. */
  lemma ExecOrder(s: System, e: PEvent)
    requires SysInv(s) && PCan(s, e)
    requires e.ExecCall? || e.ExecAcquire? || e.ExecFail? || e.ExecCreate? || e.ExecFork? || e.ExecDone?
    ensures HasProc(s)
    ensures var s', t := PDo(s, e), s.k.current.value;
      match e
      case ExecCall => PWants(s', ExecAcquire)
      case ExecAcquire => if s'.k.current.Some? then PWants(s', ExecFail) else AsleepAt(s', t, BMSEM)
      case ExecCreate => HasProc(s') && StageNow(s') == Forking(|s.pcbs|) && |s'.pcbs| == |s.pcbs| + 1
      case ExecFork(u) => PWants(s', ExecDone) && u in s'.procs && s'.procs[u] == Proc(Running, StageNow(s).p)
      case _ => HasProc(s') && StageNow(s').Running?
  {
    hide SysInv, LeastFree;
    ThreadFacts(s, s.k.current.value);
    CurrentHasStatus(s);
  }

  // ... in JoinUpdate ...
  lemma JoinOrder(s: System, e: PEvent)
    requires SysInv(s) && PCan(s, e) && (e.JoinCall? || e.JoinEnter? || e.JoinP? || e.JoinRead?)
    ensures HasProc(s)
    ensures var s', t := PDo(s, e), s.k.current.value;
      match e
      case JoinCall(pid) => if MayJoin(s, pid) then PWants(s', JoinEnter) else s' == s
      case JoinEnter => PWants(s', JoinP)
      case JoinP => if s'.k.current.Some? then PWants(s', JoinRead) else AsleepAt(s', t, JoinSem(StageNow(s).p))
      case _ => HasProc(s') && StageNow(s').Running?
  {
    hide SysInv;
    ThreadFacts(s, s.k.current.value);
  }

  // ... and in ExitUpdate.
  lemma ExitOrder(s: System, e: PEvent)
    requires SysInv(s) && PCan(s, e) && (e.ExitCall? || e.ExitRelease? || e.ExitP? || e.RemoveSelf?)
    ensures HasProc(s)
    ensures var s', t := PDo(s, e), s.k.current.value;
      match e
      case ExitCall(_) => PWants(s', ExitRelease)
      case ExitRelease => PWants(s', ExitP)
      case ExitP => if s'.k.current.Some? then PWants(s', RemoveSelf) else AsleepAt(s', t, ExitSem(StageNow(s).p))
      case _ => s'.k.current.None? && t !in s'.procs && Occupied(s, MyPcb(s).processID) && !Occupied(s', MyPcb(s).processID)
  {
    hide SysInv;
    ThreadFacts(s, s.k.current.value);
  }
}
