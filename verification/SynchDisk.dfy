/** filesys/synchdisk.cc over any number of threads and any timing of the disk's
    completion interrupt (machine/disk.cc:113-163). */
module SynchDisks {
  import opened Options
  import opened Kernels
  import opened Sleepers

  const LOCK: SemId := 0  // the semaphore inside SynchDisk::lock
  const DISK: SemId := 1  // SynchDisk::semaphore
  const NUM_SECTORS := 1024

  type Data = nat  // the contents of a whole sector

  datatype Op = ReadSector(sector: nat) | WriteSector(sector: nat, data: Data)

  /** Where a thread is.
      Outside:    not in a disk call.
      Acquiring:  in lock->Acquire(), inside P.
      Acquired:   P has returned, lockHolder not yet set.
      Requesting: holds the lock, request not yet issued.
      Waiting:    request issued, in semaphore->P(); got is what a read has put in
                  the caller's buffer (the simulated disk does the transfer at once).
      Finished:   P has returned, lock not yet released. */
  datatype Stage =
    | Outside
    | Acquiring(op: Op) | Acquired(op: Op) | Requesting(op: Op)
    | Waiting(op: Op, got: Data) | Finished(op: Op, got: Data)

  datatype Completed = Completed(op: Op, got: Data)

  /** C state: k, lockHolder, Disk::active and the sectors.  owner, initial and log
      (the calls completed so far, in order) are history. */
  datatype DiskSystem = DiskSystem(
    k: Kernel,
    lockHolder: Option<Tid>,
    active: bool,
    sectors: seq<Data>,
    stage: map<Tid, Stage>,
    owner: Option<Tid>,
    initial: seq<Data>,
    log: seq<Completed>)

  datatype DiskEvent =
    | Schedule(a: Action) | Call(op: Op)
    | AcquireLock | SetLockHolder | Request | WaitForInterrupt | ReleaseLock
    | DiskInterrupt  // Disk::CallBack and SynchDisk::CallBack

  predicate HasStage(d: DiskSystem) {
    d.k.current.Some? && d.k.current.value in d.stage
  }

  function StageNow(d: DiskSystem): Stage
    requires HasStage(d)
  {
    d.stage[d.k.current.value]
  }

  predicate DiskWants(d: DiskSystem, e: DiskEvent) {
    match e
    case Schedule(a) =>
      Enabled(d.k, a)
      && (a.Yield? || a.Dispatch? || a.Fork? || (a.Finish? && HasStage(d) && StageNow(d).Outside?))
    case Call(op) => HasStage(d) && StageNow(d).Outside? && Free(d.k) && op.sector < NUM_SECTORS
    case AcquireLock => HasStage(d) && StageNow(d).Acquiring?
    case SetLockHolder => HasStage(d) && StageNow(d).Acquired?
    case Request => HasStage(d) && StageNow(d).Requesting?
    case WaitForInterrupt => HasStage(d) && StageNow(d).Waiting?
    case ReleaseLock => HasStage(d) && StageNow(d).Finished?
    case DiskInterrupt => d.active && (d.k.current.Some? ==> Free(d.k))
  }

  // ... and the ASSERTs on the way hold.
  predicate DiskCan(d: DiskSystem, e: DiskEvent) {
    && DiskWants(d, e)
    && match e
       case AcquireLock => CanP(d.k, LOCK)
       case Request => !d.active && StageNow(d).op.sector < |d.sectors|
       case WaitForInterrupt => CanP(d.k, DISK)
       case ReleaseLock => d.lockHolder == d.k.current && CanV(d.k, LOCK)
       case DiskInterrupt => CanV(d.k, DISK)
       case _ => true
  }

  function Enter(d: DiskSystem, st: Stage): map<Tid, Stage>
    requires d.k.current.Some?
  {
    d.stage[d.k.current.value := st]
  }

  function DiskDo(d: DiskSystem, e: DiskEvent): DiskSystem
    requires DiskCan(d, e)
  {
    match e
    case Schedule(a) =>
      var k' := Step(d.k, a);
      if a.Fork? then d.(k := k', stage := d.stage[a.t := Outside])
      else if a.Finish? then d.(k := k', stage := d.stage - {d.k.current.value})
      else d.(k := k')
    case Call(op) => d.(stage := Enter(d, Acquiring(op)))
    case AcquireLock =>
      if PSucceeds(d.k, LOCK)
      then d.(k := PStep(d.k, LOCK), stage := Enter(d, Acquired(StageNow(d).op)), owner := d.k.current)
      else d.(k := PStep(d.k, LOCK))
    case SetLockHolder => d.(lockHolder := d.k.current, stage := Enter(d, Requesting(StageNow(d).op)))
    case Request =>
      var op := StageNow(d).op;
      match op {
        case ReadSector(s) => d.(active := true, stage := Enter(d, Waiting(op, d.sectors[s])))
        case WriteSector(s, x) => d.(active := true, sectors := d.sectors[s := x], stage := Enter(d, Waiting(op, x)))
      }
    case WaitForInterrupt =>
      if PSucceeds(d.k, DISK)
      then d.(k := PStep(d.k, DISK), stage := Enter(d, Finished(StageNow(d).op, StageNow(d).got)))
      else d.(k := PStep(d.k, DISK))
    case ReleaseLock =>
      d.(k := VStep(d.k, LOCK), lockHolder := None, owner := None, stage := Enter(d, Outside),
         log := d.log + [Completed(StageNow(d).op, StageNow(d).got)])
    case DiskInterrupt => d.(k := VStep(d.k, DISK), active := false)
  }

  function DiskStart(t: Tid, initial: seq<Data>): DiskSystem {
    var k := NewStep(NewStep(Boot(t), LOCK, 1), DISK, 0);
    DiskSystem(k, None, false, initial, map[t := Outside], None, initial, [])
  }

  // ----- the specification -----

  // What the completed calls have left in sector s.
  function LastWritten(initial: seq<Data>, log: seq<Completed>, s: nat): Data
    requires s < |initial|
  {
    if |log| == 0 then initial[s]
    else
      var c := log[|log| - 1];
      if c.op.WriteSector? && c.op.sector == s then c.op.data else LastWritten(initial, log[..|log| - 1], s)
  }

  // ----- the invariant -----

  predicate HoldsLock(st: Stage) { st.Acquired? || st.Requesting? || st.Waiting? || st.Finished? }

  predicate InTransit(st: Stage) { st.Waiting? || st.Finished? }

  function AsleepOn(st: Stage): Option<SemId> {
    if st.Acquiring? then Some(LOCK) else if st.Waiting? then Some(DISK) else None
  }

  ghost predicate DiskLockOk(d: DiskSystem) {
    && LOCK in d.k.sems && DISK in d.k.sems
    && d.k.sems[LOCK].value == (if d.owner.None? then 1 else 0)
    && (forall t :: t in d.stage ==> (HoldsLock(d.stage[t]) <==> d.owner == Some(t)))
    && (d.owner.Some? ==> d.owner.value in d.stage)
    && (forall t :: t in d.stage && (d.stage[t].Requesting? || InTransit(d.stage[t])) ==> d.lockHolder == Some(t))
  }

  // The disk is busy only for a thread in Waiting, and owes it exactly one V.
  ghost predicate HandshakeOk(d: DiskSystem) {
    && DISK in d.k.sems
    && d.k.sems[DISK].value + (if d.active then 1 else 0)
       == (if d.owner.Some? && d.owner.value in d.stage && d.stage[d.owner.value].Waiting? then 1 else 0)
  }

  function StageWaits(d: DiskSystem): (at: Sites)
    ensures at.Keys == d.stage.Keys
  {
    map t | t in d.stage :: AsleepOn(d.stage[t])
  }

  ghost predicate DiskSleepersOk(d: DiskSystem) {
    Asleep(d.k, StageWaits(d))
  }

  // The call in progress at the disk, if it has reached the disk.
  function Pending(d: DiskSystem): seq<Completed> {
    if d.owner.Some? && d.owner.value in d.stage && InTransit(d.stage[d.owner.value])
    then [Completed(d.stage[d.owner.value].op, d.stage[d.owner.value].got)]
    else []
  }

  ghost predicate ContentsOk(d: DiskSystem) {
    && |d.sectors| == |d.initial| == NUM_SECTORS
    && (forall t :: t in d.stage && !d.stage[t].Outside? ==> d.stage[t].op.sector < NUM_SECTORS)
    && (forall i :: 0 <= i < |d.log| ==> d.log[i].op.sector < NUM_SECTORS)
    && (forall s :: 0 <= s < NUM_SECTORS ==> d.sectors[s] == LastWritten(d.initial, d.log + Pending(d), s))
    && (forall t :: t in d.stage && InTransit(d.stage[t]) && d.stage[t].op.ReadSector? ==>
         d.stage[t].got == LastWritten(d.initial, d.log, d.stage[t].op.sector))
    && ReadsOk(d.initial, d.log)
  }

  // Every completed read returned what the last write completed before it stored.
  ghost predicate ReadsOk(initial: seq<Data>, log: seq<Completed>) {
    forall i :: 0 <= i < |log| && log[i].op.ReadSector? && log[i].op.sector < |initial| ==>
      log[i].got == LastWritten(initial, log[..i], log[i].op.sector)
  }

  ghost predicate DInv(d: DiskSystem) {
    && Inv(d.k) && DiskLockOk(d) && HandshakeOk(d) && DiskSleepersOk(d) && ContentsOk(d)
  }

  lemma DiskStartInv(t: Tid, initial: seq<Data>)
    requires |initial| == NUM_SECTORS
    ensures DInv(DiskStart(t, initial))
  {
    BootInv(t);
    StepInv(Boot(t), New(LOCK, 1));
    StepInv(NewStep(Boot(t), LOCK, 1), New(DISK, 0));
  }

  /** The disk's ASSERT(!active) never fails, nor do the lock's. */
  lemma DiskNeverFails(d: DiskSystem, e: DiskEvent)
    requires DInv(d) && DiskWants(d, e)
    ensures DiskCan(d, e)
  {
    hide Inv, Asleep, ReadsOk;
    if !e.Schedule? && !e.DiskInterrupt? {
      if AsleepOn(StageNow(d)).Some? {
        MayP(d.k, StageWaits(d), AsleepOn(StageNow(d)).value);
      } else {
        AwakeIsFree(d.k, StageWaits(d));
      }
    }
  }

  // ----- the steps keep the invariant -----

  lemma DiskKernelKept(d: DiskSystem, e: DiskEvent)
    requires DInv(d) && DiskCan(d, e)
    ensures Inv(DiskDo(d, e).k)
  {
    hide Inv, DiskLockOk, HandshakeOk, DiskSleepersOk, ContentsOk;
    match e
    case Schedule(a) => StepInv(d.k, a);
    case AcquireLock => PInv(d.k, LOCK);
    case WaitForInterrupt => PInv(d.k, DISK);
    case ReleaseLock => VInv(d.k, LOCK);
    case DiskInterrupt => VInv(d.k, DISK);
    case _ =>
  }

  // A step of thread t to stage st.
  ghost predicate Moves(d: DiskSystem, d': DiskSystem, t: Tid, st: Stage) {
    && t in d.stage && d'.stage == d.stage[t := st]
    && (d'.owner == d.owner || (d.owner in {None, Some(t)} && d'.owner in {None, Some(t)}))
    && (HoldsLock(st) <==> d'.owner == Some(t))
  }

  lemma LockAfterMove(d: DiskSystem, d': DiskSystem, t: Tid, st: Stage)
    requires DiskLockOk(d) && Moves(d, d', t, st)
    requires LOCK in d'.k.sems && DISK in d'.k.sems
    requires d'.k.sems[LOCK].value == (if d'.owner.None? then 1 else 0)
    requires st.Requesting? || InTransit(st) ==> d'.lockHolder == Some(t)
    requires d'.lockHolder == d.lockHolder || HoldsLock(d.stage[t])
    ensures DiskLockOk(d')
  {
  }

  // Which thread and stage a step of the program moves.
  lemma StepMoves(d: DiskSystem, e: DiskEvent)
    requires DInv(d) && DiskCan(d, e) && !e.Schedule? && !e.DiskInterrupt?
    ensures HasStage(d) && d.k.current.value in DiskDo(d, e).stage
    ensures Moves(d, DiskDo(d, e), d.k.current.value, DiskDo(d, e).stage[d.k.current.value])
  {
    hide Inv, Asleep, ContentsOk, HandshakeOk;
  }

  lemma ScheduledStages(d: DiskSystem, a: Action)
    requires DInv(d) && DiskCan(d, Schedule(a))
    ensures var d' := DiskDo(d, Schedule(a));
      && d' == d.(k := d'.k, stage := d'.stage) && d'.k.sems == d.k.sems
      && (forall t :: t in d.stage && !d.stage[t].Outside? ==> t in d'.stage && d'.stage[t] == d.stage[t])
      && (forall t :: t in d'.stage && !d'.stage[t].Outside? ==> t in d.stage && d'.stage[t] == d.stage[t])
  {
    hide Inv, ContentsOk, HandshakeOk, DiskLockOk;
    assert forall t :: t in d.stage ==> t in d.k.status.Keys;
  }

  lemma LockAfterStep(d: DiskSystem, e: DiskEvent)
    requires DInv(d) && DiskCan(d, e) && !e.Schedule? && !e.DiskInterrupt?
    ensures DiskLockOk(DiskDo(d, e))
  {
    hide Inv, ContentsOk, HandshakeOk, DiskSleepersOk;
    var d', t := DiskDo(d, e), d.k.current.value;
    StepMoves(d, e);
    hide Moves;
    LockAfterMove(d, d', t, d'.stage[t]);
  }

  lemma DiskLockKept(d: DiskSystem, e: DiskEvent)
    requires DInv(d) && DiskCan(d, e)
    ensures DiskLockOk(DiskDo(d, e))
  {
    hide Inv, ContentsOk, HandshakeOk, DiskSleepersOk;
    if e.Schedule? {
      ScheduledStages(d, e.a);
    } else if !e.DiskInterrupt? {
      LockAfterStep(d, e);
    }
  }

  lemma HandshakeKept(d: DiskSystem, e: DiskEvent)
    requires DInv(d) && DiskCan(d, e)
    ensures HandshakeOk(DiskDo(d, e))
  {
    hide Inv, ContentsOk, Asleep;
    var d' := DiskDo(d, e);
    if e.Schedule? {
      ScheduledStages(d, e.a);
    }
  }

  lemma StageWaitsAfter(d: DiskSystem, d': DiskSystem, t: Tid, st: Stage)
    requires t in d.stage && d'.stage == d.stage[t := st]
    ensures StageWaits(d') == StageWaits(d)[t := AsleepOn(st)]
  {
  }

  lemma DiskSleepersKept(d: DiskSystem, e: DiskEvent)
    requires DInv(d) && DiskCan(d, e)
    ensures DiskSleepersOk(DiskDo(d, e))
  {
    hide Inv, ContentsOk, HandshakeOk, Asleep, DiskLockOk;
    var d', at := DiskDo(d, e), StageWaits(d);
    match e
    case Schedule(a) =>
      AsleepAfterSchedule(d.k, a, at);
      assert StageWaits(d') == SitesAfter(d.k, a, at);
    case DiskInterrupt => AsleepAfterV(d.k, DISK, at);
    case _ =>
      var t := d.k.current.value;
      var x := AsleepOn(d'.stage[t]);
      StageWaitsAfter(d, d', t, d'.stage[t]);
      if e.AcquireLock? { AsleepAfterP(d.k, LOCK, at, x); }
      else if e.WaitForInterrupt? { AsleepAfterP(d.k, DISK, at, x); }
      else {
        AwakeIsFree(d.k, at);
        AsleepAfterMove(d.k, at, x);
        if e.ReleaseLock? { AsleepAfterV(d.k, LOCK, StageWaits(d')); }
      }
  }

  lemma LastWrittenAppend(initial: seq<Data>, log: seq<Completed>, c: Completed, s: nat)
    requires s < |initial|
    ensures LastWritten(initial, log + [c], s)
         == if c.op.WriteSector? && c.op.sector == s then c.op.data else LastWritten(initial, log, s)
  {
    assert (log + [c])[..|log|] == log;
  }

  // Nothing the contents depend on has changed but other threads' stages.
  lemma ContentsSame(d: DiskSystem, d': DiskSystem)
    requires ContentsOk(d) && Pending(d') == Pending(d)
    requires d'.sectors == d.sectors && d'.initial == d.initial && d'.log == d.log
    requires forall t :: t in d'.stage && !d'.stage[t].Outside? ==>
      d'.stage[t].op.sector < NUM_SECTORS
    requires forall t :: t in d'.stage && InTransit(d'.stage[t]) ==>
      t in d.stage && InTransit(d.stage[t]) && d'.stage[t].op == d.stage[t].op && d'.stage[t].got == d.stage[t].got
    ensures ContentsOk(d')
  {
    hide ReadsOk, LastWritten;
  }

  lemma ContentsAfterSchedule(d: DiskSystem, a: Action)
    requires DInv(d) && DiskCan(d, Schedule(a))
    ensures ContentsOk(DiskDo(d, Schedule(a)))
  {
    hide Inv, Asleep, HandshakeOk, ReadsOk, LastWritten;
    ScheduledStages(d, a);
    ContentsSame(d, DiskDo(d, Schedule(a)));
  }

  lemma ContentsAfterMove(d: DiskSystem, e: DiskEvent)
    requires DInv(d) && DiskCan(d, e)
    requires !e.Schedule? && !e.Request? && !e.ReleaseLock?
    ensures ContentsOk(DiskDo(d, e))
  {
    hide Inv, Asleep, HandshakeOk, ReadsOk, LastWritten, DiskSleepersOk;
    ContentsSame(d, DiskDo(d, e));
  }

  lemma ContentsAfterRequest(d: DiskSystem)
    requires DInv(d) && DiskCan(d, Request)
    ensures ContentsOk(DiskDo(d, Request))
  {
    hide Inv, Asleep, HandshakeOk, ReadsOk, LastWritten, DiskSleepersOk;
    var d', t := DiskDo(d, Request), d.k.current.value;
    var c := Completed(d'.stage[t].op, d'.stage[t].got);
    assert d.log + Pending(d) == d.log;
    assert Pending(d') == [c];
    forall s | 0 <= s < NUM_SECTORS
      ensures d'.sectors[s] == LastWritten(d.initial, d.log + [c], s)
    {
      LastWrittenAppend(d.initial, d.log, c, s);
    }
  }

  lemma ReadsAppend(initial: seq<Data>, log: seq<Completed>, c: Completed)
    requires ReadsOk(initial, log)
    requires c.op.ReadSector? && c.op.sector < |initial| ==> c.got == LastWritten(initial, log, c.op.sector)
    ensures ReadsOk(initial, log + [c])
  {
    hide LastWritten;
    forall i | 0 <= i <= |log|
      ensures (log + [c])[..i] == log[..i]
    {
    }
  }

  lemma ContentsAfterRelease(d: DiskSystem)
    requires DInv(d) && DiskCan(d, ReleaseLock)
    ensures ContentsOk(DiskDo(d, ReleaseLock))
  {
    hide Inv, Asleep, HandshakeOk, ReadsOk, LastWritten, DiskSleepersOk;
    var d', t := DiskDo(d, ReleaseLock), d.k.current.value;
    var c := Completed(d.stage[t].op, d.stage[t].got);
    assert Pending(d) == [c] && d'.log + Pending(d') == d.log + Pending(d);
    ReadsAppend(d.initial, d.log, c);
  }

  /** Every step keeps the invariant. */
  lemma DiskDoInv(d: DiskSystem, e: DiskEvent)
    requires DInv(d) && DiskCan(d, e)
    ensures DInv(DiskDo(d, e))
  {
    DiskKernelKept(d, e);
    DiskLockKept(d, e);
    HandshakeKept(d, e);
    DiskSleepersKept(d, e);
    match e
    case Schedule(a) => ContentsAfterSchedule(d, a);
    case Request => ContentsAfterRequest(d);
    case ReleaseLock => ContentsAfterRelease(d);
    case _ => ContentsAfterMove(d, e);
  }

  // ----- every run -----

  ghost predicate IsDiskRun(states: seq<DiskSystem>, events: seq<DiskEvent>) {
    && |states| == |events| + 1
    && |states[0].initial| == NUM_SECTORS
    && (exists t :: states[0] == DiskStart(t, states[0].initial))
    && forall i :: 0 <= i < |events| ==>
         DiskWants(states[i], events[i])
         && (DiskCan(states[i], events[i]) ==> states[i + 1] == DiskDo(states[i], events[i]))
  }

  lemma {:induction false} DiskRunInv(states: seq<DiskSystem>, events: seq<DiskEvent>, n: nat)
    requires IsDiskRun(states, events) && n < |states|
    ensures DInv(states[n])
    ensures n < |events| ==> DiskCan(states[n], events[n])
  {
    hide DInv, DiskWants, DiskCan, DiskDo;
    if n == 0 {
      var t :| states[0] == DiskStart(t, states[0].initial);
      DiskStartInv(t, states[0].initial);
    } else {
      DiskRunInv(states, events, n - 1);
      DiskDoInv(states[n - 1], events[n - 1]);
    }
    if n < |events| { DiskNeverFails(states[n], events[n]); }
  }

  /** On every run: whenever the lock is free the disk is idle and the completion
      semaphore is 0; at most one thread holds the lock; and each completed
      ReadSector returned what the most recent completed WriteSector to that sector
      had stored. */
  lemma DiskOverRuns(states: seq<DiskSystem>, events: seq<DiskEvent>, n: nat)
    requires IsDiskRun(states, events) && n < |states|
    ensures var d := states[n];
      && (forall t, u :: t in d.stage && u in d.stage && HoldsLock(d.stage[t]) && HoldsLock(d.stage[u]) ==> t == u)
      && LOCK in d.k.sems && DISK in d.k.sems
      && (d.k.sems[LOCK].value == 1 ==> !d.active && d.k.sems[DISK].value == 0)
      && (d.active ==> exists t :: t in d.stage && d.stage[t].Waiting?)
      && ReadsOk(d.initial, d.log)
  {
    hide Inv, Asleep, ReadsOk, LastWritten, DiskSleepersOk;
    DiskRunInv(states, events, n);
  }

  /** Nobody is left waiting for a disk that will not answer: when nothing can run
      and no interrupt is pending, no thread is in a disk call. */
  lemma QuiescentDisk(d: DiskSystem)
    requires DInv(d) && d.k.current.None? && d.k.ready == [] && !d.active
    ensures d.stage == map[]
  {
    hide Inv, Asleep, ContentsOk;
    QuiescentOwner(d);
    forall t
      ensures t !in d.stage
    {
      if t in d.stage { QuiescentAsleep(d.k, StageWaits(d), t); }
    }
  }

  // An owner would sleep too, and only a busy disk could have put it to sleep.
  lemma QuiescentOwner(d: DiskSystem)
    requires DInv(d) && d.k.current.None? && d.k.ready == [] && !d.active
    ensures d.owner.None?
  {
    hide Inv, Asleep, ContentsOk;
    if d.owner.Some? { QuiescentAsleep(d.k, StageWaits(d), d.owner.value); }
  }

  // ----- the log, read off the events -----

  predicate By(d: DiskSystem, t: Tid) { d.k.current == Some(t) }

  // How many calls return among the first n events.
  function Returns(events: seq<DiskEvent>, n: nat): nat
    requires n <= |events|
  {
    if n == 0 then 0 else Returns(events, n - 1) + if events[n - 1].ReleaseLock? then 1 else 0
  }

  // Between events i and j thread t neither begins nor ends a call.
  ghost predicate InOneCall(states: seq<DiskSystem>, events: seq<DiskEvent>, t: Tid, i: nat, j: nat) {
    forall m :: i < m < j && m < |events| && m < |states| && By(states[m], t) ==>
      !events[m].Call? && !events[m].ReleaseLock?
  }

  ghost predicate Follows(d: DiskSystem, e: DiskEvent, d': DiskSystem) {
    DiskCan(d, e) && d' == DiskDo(d, e)
  }

  lemma RunStep(states: seq<DiskSystem>, events: seq<DiskEvent>, n: nat)
    requires IsDiskRun(states, events) && n < |events|
    ensures |states| == |events| + 1 && Follows(states[n], events[n], states[n + 1])
  {
    hide DInv, DiskWants, DiskCan, DiskDo;
    DiskRunInv(states, events, n);
  }

  lemma RunStart(states: seq<DiskSystem>, events: seq<DiskEvent>)
    requires IsDiskRun(states, events)
    ensures |states| == |events| + 1 && states[0].log == [] && !states[0].active
    ensures forall t :: t in states[0].stage ==> states[0].stage[t].Outside?
  {
    hide DiskWants, DiskCan, DiskDo;
  }

  // A thread keeps its operation from Call to ReleaseLock.
  lemma OpLasts(d: DiskSystem, e: DiskEvent, d': DiskSystem, t: Tid)
    requires Follows(d, e, d') && t in d'.stage && !d'.stage[t].Outside?
    ensures if By(d, t) && e.Call? then e.op == d'.stage[t].op
            else t in d.stage && !d.stage[t].Outside? && d.stage[t].op == d'.stage[t].op
    ensures By(d, t) ==> !e.ReleaseLock?
  {
  }

  lemma {:induction false} CallBehind(states: seq<DiskSystem>, events: seq<DiskEvent>, t: Tid, n: nat)
    returns (c: nat)
    requires IsDiskRun(states, events) && n < |states|
    requires t in states[n].stage && !states[n].stage[t].Outside?
    ensures c < n <= |events| && events[c] == Call(states[n].stage[t].op) && By(states[c], t)
    ensures InOneCall(states, events, t, c, n)
  {
    hide IsDiskRun, Follows;
    RunStart(states, events);
    RunStep(states, events, n - 1);
    OpLasts(states[n - 1], events[n - 1], states[n], t);
    if By(states[n - 1], t) && events[n - 1].Call? {
      c := n - 1;
    } else {
      c := CallBehind(states, events, t, n - 1);
    }
  }

  lemma LogStep(d: DiskSystem, e: DiskEvent, d': DiskSystem)
    requires Follows(d, e, d')
    ensures !e.ReleaseLock? ==> d'.log == d.log
    ensures e.ReleaseLock? ==>
      HasStage(d) && StageNow(d).Finished? && d'.log == d.log + [Completed(StageNow(d).op, StageNow(d).got)]
  {
  }

  lemma {:induction false} LogLength(states: seq<DiskSystem>, events: seq<DiskEvent>, n: nat)
    requires IsDiskRun(states, events) && n < |states|
    ensures n <= |events| && |states[n].log| == Returns(events, n)
  {
    hide IsDiskRun, Follows;
    RunStart(states, events);
    if n > 0 {
      LogLength(states, events, n - 1);
      RunStep(states, events, n - 1);
      LogStep(states[n - 1], events[n - 1], states[n]);
    }
  }

  /** The k-th entry of the log is the k-th call to return, with the operation it was
      called for; a read hands out the data in the entry. */
  lemma {:induction false} LoggedCall(states: seq<DiskSystem>, events: seq<DiskEvent>, k: nat, n: nat)
    returns (c: nat, r: nat, t: Tid)
    requires IsDiskRun(states, events) && n < |states| && k < |states[n].log|
    ensures c < r < n <= |events| && By(states[c], t) && By(states[r], t) && InOneCall(states, events, t, c, r)
    ensures events[c] == Call(states[n].log[k].op) && events[r].ReleaseLock? && Returns(events, r) == k
    ensures t in states[r].stage && states[r].stage[t] == Finished(states[n].log[k].op, states[n].log[k].got)
  {
    hide IsDiskRun, Follows;
    RunStart(states, events);
    RunStep(states, events, n - 1);
    LogLength(states, events, n - 1);
    LogStep(states[n - 1], events[n - 1], states[n]);
    if k < |states[n - 1].log| {
      c, r, t := LoggedCall(states, events, k, n - 1);
    } else {
      r, t := n - 1, states[n - 1].k.current.value;
      c := CallBehind(states, events, t, r);
    }
  }

  /** The order of the steps in ReadSector and WriteSector: each leads to the next, and a P
      that does not get through leaves the thread to try it again when it is woken. */
  lemma ProgramOrder(d: DiskSystem, e: DiskEvent)
    requires DInv(d) && DiskCan(d, e) && !e.Schedule? && !e.DiskInterrupt?
    ensures var d', t := DiskDo(d, e), d.k.current.value;
      match e
      case Call(op) => DiskWants(d', AcquireLock) && StageNow(d').op == op
      case AcquireLock => if By(d', t) then DiskWants(d', SetLockHolder) else AsleepAt(d', t, LOCK)
      case SetLockHolder => DiskWants(d', Request)
      case Request => DiskWants(d', WaitForInterrupt) && d'.active
      case WaitForInterrupt => if By(d', t) then DiskWants(d', ReleaseLock) else AsleepAt(d', t, DISK)
      case ReleaseLock => HasStage(d') && StageNow(d').Outside? && d'.k.sems[LOCK].value == 1
      case _ => true
  {
    hide Inv, Asleep, ContentsOk, HandshakeOk, DiskSleepersOk;
  }

  // The thread sleeps at that P, which it will try again.
  ghost predicate AsleepAt(d: DiskSystem, t: Tid, s: SemId) {
    && d.k.current.None? && t in d.k.status && d.k.status[t] == BLOCKED(s)
    && t in d.stage && AsleepOn(d.stage[t]) == Some(s)
  }

  function Count(events: seq<DiskEvent>, e: DiskEvent, n: nat): nat
    requires n <= |events|
  {
    if n == 0 then 0 else Count(events, e, n - 1) + if events[n - 1] == e then 1 else 0
  }

  /** The disk answers each request with one interrupt, and is busy in between. */
  lemma {:induction false} RequestsAnswered(states: seq<DiskSystem>, events: seq<DiskEvent>, n: nat)
    requires IsDiskRun(states, events) && n < |states|
    ensures n <= |events|
    ensures Count(events, Request, n) == Count(events, DiskInterrupt, n) + if states[n].active then 1 else 0
  {
    hide IsDiskRun, Follows;
    RunStart(states, events);
    if n > 0 {
      RequestsAnswered(states, events, n - 1);
      RunStep(states, events, n - 1);
      BusyStep(states[n - 1], events[n - 1], states[n]);
    }
  }

  lemma BusyStep(d: DiskSystem, e: DiskEvent, d': DiskSystem)
    requires Follows(d, e, d')
    ensures e == Request ==> !d.active && d'.active
    ensures e == DiskInterrupt ==> d.active && !d'.active
    ensures e != Request && e != DiskInterrupt ==> d'.active == d.active
  {
  }
}
