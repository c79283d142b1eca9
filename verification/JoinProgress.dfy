/** The Join/Exit handshake never deadlocks: as long as parents keep the discipline of
    JoinDisciplines and no interrupt is awaited, some thread can run. */
module JoinProgress {
  import opened Options
  import opened FiniteSets
  import opened Kernels
  import opened Sleepers
  import opened ProcessTables
  import opened JoinDisciplines

  // Between P and V of bmsem in ExecUpdate.
  predicate InExec(st: Stage) { st.ExecGot? || st.Forking? || st.ExecForked? }

  // bmsem is 0 only while a thread is between its P and its V.
  ghost predicate ExecOk(s: System) {
    BMSEM in s.k.sems && (s.k.sems[BMSEM].value == 0 ==> exists t :: t in s.procs && InExec(s.procs[t].stage))
  }

  ghost predicate HasThread(procs: map<Tid, Proc>, p: PcbId) {
    exists t :: t in procs && (procs[t].me == p || procs[t].stage == Forking(p))
  }

  // Every process that is not gone has its thread, or is about to get it.
  ghost predicate ThreadedOk(s: System) {
    forall p :: 0 <= p < |s.pcbs| && !s.pcbs[p].exit.Gone? ==> HasThread(s.procs, p)
  }

  // The parent of a child still to be joined is older than the child.
  ghost predicate OlderParent(b: Pcb, p: PcbId, slots: seq<Option<PcbId>>) {
    0 <= b.parentID < |slots| && slots[b.parentID].Some? && slots[b.parentID].value < p
  }

  ghost predicate ElderOk(s: System) {
    && s.pcbs != [] && s.pcbs[0].parentID < 0
    && forall p :: 0 < p < |s.pcbs| && !s.pcbs[p].join.Joined? ==> OlderParent(s.pcbs[p], p, s.slots)
  }

  ghost predicate LiveInv(s: System) {
    DInv(s) && ExecOk(s) && ThreadedOk(s) && ElderOk(s)
  }

  lemma BootLiveInv(t: Tid)
    ensures LiveInv(Booted(t))
  {
    BootDInv(t);
    hide DInv;
    assert Booted(t).procs[t].me == 0;
  }

  // ----- the steps keep it -----

  lemma ExecKept(s: System, e: PEvent)
    requires SysInv(s) && ExecOk(s) && PCan(s, e)
    ensures ExecOk(PDo(s, e))
  {
    hide SysInv;
    var s' := PDo(s, e);
    if !e.Schedule? { ThreadFacts(s, s.k.current.value); }
    if e.RemoveSelf? { RemoveIs(s); }
    if e.ExecFork? { NewThread(s, e.t); }
    if s'.k.sems[BMSEM].value == 0 {
      if s.k.sems[BMSEM].value == 0 {
        var t :| t in s.procs && InExec(s.procs[t].stage);
        assert t in s'.procs && InExec(s'.procs[t].stage);
      } else {
        var t := s.k.current.value;
        assert t in s'.procs && InExec(s'.procs[t].stage);
      }
    }
  }

  // A step other than the three that make and end processes.
  lemma ThreadedAfterMove(s: System, e: PEvent)
    requires SysInv(s) && ThreadedOk(s) && PCan(s, e) && !e.ExecCreate? && !e.ExecFork? && !e.RemoveSelf?
    ensures ThreadedOk(PDo(s, e))
  {
    hide SysInv;
    var s' := PDo(s, e);
    if !e.Schedule? { ThreadFacts(s, s.k.current.value); }
    forall p | 0 <= p < |s'.pcbs| && !s'.pcbs[p].exit.Gone?
      ensures HasThread(s'.procs, p)
    {
      assert !s.pcbs[p].exit.Gone?;
      var t :| t in s.procs && (s.procs[t].me == p || s.procs[t].stage == Forking(p));
      assert t in s'.procs && (s'.procs[t].me == p || s'.procs[t].stage == Forking(p));
    }
  }

  lemma ThreadedAfterCreate(s: System)
    requires SysInv(s) && ThreadedOk(s) && PCan(s, ExecCreate)
    ensures ThreadedOk(PDo(s, ExecCreate))
  {
    hide SysInv, LeastFree;
    var s', u := PDo(s, ExecCreate), s.k.current.value;
    forall p | 0 <= p < |s'.pcbs| && !s'.pcbs[p].exit.Gone?
      ensures HasThread(s'.procs, p)
    {
      if p == |s.pcbs| {
        assert s'.procs[u].stage == Forking(p);
      } else {
        assert !s.pcbs[p].exit.Gone?;
        var t :| t in s.procs && (s.procs[t].me == p || s.procs[t].stage == Forking(p));
        assert t in s'.procs && (s'.procs[t].me == p || s'.procs[t].stage == Forking(p));
      }
    }
  }

  lemma HasThreadAfterFork(procs: map<Tid, Proc>, t: Tid, u: Tid, q: PcbId, p: PcbId)
    requires HasThread(procs, p) && t in procs && u !in procs && procs[t].stage == Forking(q)
    ensures HasThread(procs[t := procs[t].(stage := ExecForked)][u := Proc(Running, q)], p)
  {
    var procs' := procs[t := procs[t].(stage := ExecForked)][u := Proc(Running, q)];
    var v :| v in procs && (procs[v].me == p || procs[v].stage == Forking(p));
    assert procs'[u].me == q && procs'[v].me == procs[v].me;
  }

  lemma ThreadedAfterFork(s: System, u: Tid)
    requires SysInv(s) && ThreadedOk(s) && PCan(s, ExecFork(u))
    ensures ThreadedOk(PDo(s, ExecFork(u)))
  {
    hide SysInv, HasThread;
    NewThread(s, u);
    var s', t := PDo(s, ExecFork(u)), s.k.current.value;
    var q := s.procs[t].stage.p;
    assert s.procs[t].stage == Forking(q) && s'.pcbs == s.pcbs;
    assert s'.procs == s.procs[t := s.procs[t].(stage := ExecForked)][u := Proc(Running, q)];
    hide PDo, PCan;
    forall p | 0 <= p < |s'.pcbs| && !s'.pcbs[p].exit.Gone?
      ensures HasThread(s'.procs, p)
    {
      HasThreadAfterFork(s.procs, t, u, q, p);
    }
  }

  lemma HasThreadAfterRemove(procs: map<Tid, Proc>, t: Tid, p: PcbId)
    requires HasThread(procs, p) && t in procs && procs[t].me != p && !procs[t].stage.Forking?
    ensures HasThread(procs - {t}, p)
  {
    var v :| v in procs && (procs[v].me == p || procs[v].stage == Forking(p));
    assert v in procs - {t};
  }

  lemma ThreadedAfterRemove(s: System)
    requires SysInv(s) && ThreadedOk(s) && PCan(s, RemoveSelf)
    ensures ThreadedOk(PDo(s, RemoveSelf))
  {
    hide SysInv, HasThread, PCan;
    RemoveIs(s);
    var s', u := PDo(s, RemoveSelf), s.k.current.value;
    hide PDo;
    forall p | 0 <= p < |s'.pcbs| && !s'.pcbs[p].exit.Gone?
      ensures HasThread(s'.procs, p)
    {
      assert p != s.procs[u].me && !s.pcbs[p].exit.Gone?;
      HasThreadAfterRemove(s.procs, u, p);
    }
  }

  lemma ThreadedKept(s: System, e: PEvent)
    requires SysInv(s) && ThreadedOk(s) && PCan(s, e)
    ensures ThreadedOk(PDo(s, e))
  {
    hide SysInv, ThreadedOk, PCan, PDo;
    match e
    case ExecCreate => ThreadedAfterCreate(s);
    case ExecFork(u) => ThreadedAfterFork(s, u);
    case RemoveSelf => ThreadedAfterRemove(s);
    case _ => ThreadedAfterMove(s, e);
  }

  // Parents of children still to be joined keep their slots.
  lemma ElderAfterMove(s: System, e: PEvent)
    requires DInv(s) && ElderOk(s) && PCan(s, e) && !e.ExecCreate? && !e.RemoveSelf?
    ensures ElderOk(PDo(s, e))
  {
    hide SysInv, JoinersOk, ReturnsOk, OlderParent;
    var s' := PDo(s, e);
    if !e.Schedule? {
      var t := s.k.current.value;
      ThreadFacts(s, t);
      if JoinStage(s.procs[t].stage) { CurrentJoiner(s, t) by { DParts(s); } }
    }
    forall p | 0 < p < |s'.pcbs| && !s'.pcbs[p].join.Joined?
      ensures OlderParent(s'.pcbs[p], p, s'.slots)
    {
      assert !s.pcbs[p].join.Joined?;
      assert OlderParent(s.pcbs[p], p, s.slots);
      SameOlder(s.pcbs[p], s'.pcbs[p], p, s.slots);
    }
  }

  lemma SameOlder(b: Pcb, b': Pcb, p: PcbId, slots: seq<Option<PcbId>>)
    requires OlderParent(b, p, slots) && b'.parentID == b.parentID
    ensures OlderParent(b', p, slots)
  {
  }

  lemma ElderAfterCreate(s: System)
    requires DInv(s) && ElderOk(s) && PCan(s, ExecCreate)
    ensures ElderOk(PDo(s, ExecCreate))
  {
    hide Inv, Asleep, TableOk, SemsOk, ProcessesOk, JoinsOk, ParentsOk, JoinersOk, ReturnsOk, LeastFree;
    CreateIs(s);
    var s' := PDo(s, ExecCreate);
    forall p | 0 < p < |s'.pcbs| && !s'.pcbs[p].join.Joined?
      ensures OlderParent(s'.pcbs[p], p, s'.slots)
    {
      if p < |s.pcbs| { assert OlderParent(s.pcbs[p], p, s.slots); }
    }
  }

  lemma ElderAfterRemove(s: System)
    requires DInv(s) && ElderOk(s) && PCan(s, RemoveSelf)
    ensures ElderOk(PDo(s, RemoveSelf))
  {
    hide SysInv, JoinersOk, ReturnsOk, PCan;
    RemoveIs(s);
    Parts(s);
    var s', t := PDo(s, RemoveSelf), s.k.current.value;
    hide PDo, TableOk, SemsOk, ProcessesOk, JoinsOk, OlderParent;
    forall p | 0 < p < |s'.pcbs| && !s'.pcbs[p].join.Joined?
      ensures OlderParent(s'.pcbs[p], p, s'.slots)
    {
      assert OlderParent(s.pcbs[p], p, s.slots) && HasParent(s.pcbs[p], s);
      OlderAfterRemove(s.pcbs[p], s'.pcbs[p], p, s.slots, s.pcbs[s.procs[t].me].processID);
    }
  }

  lemma OlderAfterRemove(b: Pcb, b': Pcb, p: PcbId, slots: seq<Option<PcbId>>, i: nat)
    requires OlderParent(b, p, slots) && b'.parentID == b.parentID != i < |slots|
    ensures OlderParent(b', p, slots[i := None])
  {
  }

  lemma ElderKept(s: System, e: PEvent)
    requires DInv(s) && ElderOk(s) && PCan(s, e)
    ensures ElderOk(PDo(s, e))
  {
    hide DInv, ElderOk, PCan, PDo;
    match e
    case ExecCreate => ElderAfterCreate(s);
    case RemoveSelf => ElderAfterRemove(s);
    case _ => ElderAfterMove(s, e);
  }

  lemma LiveStepKeeps(s: System, e: PEvent)
    requires LiveInv(s) && PCan(s, e) && Disciplined(s, e)
    ensures LiveInv(PDo(s, e))
  {
    hide DInv, ExecOk, ThreadedOk, ElderOk, PCan, PDo, Disciplined;
    DStepKeeps(s, e);
    DParts(s);
    ExecKept(s, e);
    ThreadedKept(s, e);
    ElderKept(s, e);
  }

  lemma {:induction false} LiveRunInv(states: seq<System>, events: seq<PEvent>, n: nat)
    requires IsProcessRun(states, events) && n < |states|
    ensures LiveInv(states[n])
  {
    hide LiveInv, PWants, PCan, PDo, Disciplined;
    if n == 0 {
      var t :| states[0] == Booted(t);
      BootLiveInv(t);
    } else {
      LiveRunInv(states, events, n - 1);
      ProcessRunInv(states, events, n - 1);
      LiveStepKeeps(states[n - 1], events[n - 1]);
    }
  }

  // ----- no deadlock -----

  predicate Stuck(s: System) { s.k.current.None? && s.k.ready == [] }

  // When nothing can run, nobody is in Exec, and everybody is in JoinWait or ExitWait.
  lemma StuckStages(s: System, t: Tid)
    requires LiveInv(s) && Stuck(s) && t in s.procs
    ensures s.procs[t].stage.JoinWait? || s.procs[t].stage.ExitWait?
    ensures SemAt(s.procs[t].stage).value in s.k.sems && s.k.sems[SemAt(s.procs[t].stage).value].value == 0
  {
    hide SysInv, JoinersOk, ReturnsOk, ThreadedOk, ElderOk;
    SitesOf(s, t);
    if s.procs[t].stage.ExecP? {
      var u :| u in s.procs && InExec(s.procs[u].stage);
      SitesOf(s, u);
    }
  }

  // A child in the way of a waiting parent would have to wait for a child of its own,
  // which is younger still.
  lemma {:induction false} NobodyInJoinWait(s: System, t: Tid)
    requires LiveInv(s) && Stuck(s) && t in s.procs && s.procs[t].stage.JoinWait?
    ensures false
    decreases if s.procs[t].stage.JoinWait? then |s.pcbs| - s.procs[t].stage.p else 0
  {
    hide SysInv, JoinersOk, ReturnsOk, ExecOk, ElderOk;
    var p := s.procs[t].stage.p;
    StuckStages(s, t);
    SemAccount(s, JoinSem(p));
    ThreadFacts(s, t);
    CurrentJoiner(s, t);
    assert HasThread(s.procs, p);
    var u :| u in s.procs && (s.procs[u].me == p || s.procs[u].stage == Forking(p));
    StuckStages(s, u);
    ThreadFacts(s, u);
    YoungerChild(s, u);
    NobodyInJoinWait(s, u);
  }

  // The child a thread waits for is younger than its own process.
  lemma YoungerChild(s: System, u: Tid)
    requires LiveInv(s) && u in s.procs && s.procs[u].stage.JoinWait?
    ensures s.procs[u].me < s.procs[u].stage.p < |s.pcbs|
  {
    hide SysInv, ReturnsOk, ExecOk, ThreadedOk;
    CurrentJoiner(s, u);
    ThreadFacts(s, u);
    assert OlderParent(s.pcbs[s.procs[u].stage.p], s.procs[u].stage.p, s.slots);
  }

  lemma NeverStuck(s: System)
    requires LiveInv(s)
    ensures !Stuck(s)
  {
    hide SysInv, JoinersOk, ReturnsOk, ExecOk;
    if Stuck(s) {
      DParts(s);
      SlotZero(s);
      assert HasThread(s.procs, 0);
      var t :| t in s.procs && (s.procs[t].me == 0 || s.procs[t].stage == Forking(0));
      StuckStages(s, t);
      ThreadFacts(s, t);
      NobodyInJoinWait(s, t);
    }
  }

  /** At every point of every run that keeps the discipline, some thread is running or
      ready: the semaphores of the process table never bring all processes to a halt. */
  lemma NeverDeadlocks(states: seq<System>, events: seq<PEvent>, n: nat)
    requires IsProcessRun(states, events) && n < |states|
    ensures states[n].k.current.Some? || states[n].k.ready != []
  {
    hide IsProcessRun, LiveInv;
    LiveRunInv(states, events, n);
    NeverStuck(states[n]);
  }
}
