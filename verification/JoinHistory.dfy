/** Exec, Join and Exit from call to return: what a JoinUpdate returns, told by the
    events of the run alone. */
module JoinHistories {
  import opened Options
  import opened FiniteSets
  import opened Kernels
  import opened Sleepers
  import opened ProcessTables
  import opened JoinDisciplines

  predicate By(s: System, t: Tid) { s.k.current == Some(t) }

  // Between events i and j thread t begins nothing else and does not return.
  ghost predicate InOneJoin(states: seq<System>, events: seq<PEvent>, t: Tid, i: nat, j: nat) {
    forall m :: i < m < j && m < |events| && m < |states| && By(states[m], t) ==>
      events[m].Schedule? || events[m].JoinEnter? || events[m].JoinP?
  }

  // At event c thread t calls JoinUpdate(pid), and finds PCB p there.
  ghost predicate AsksFor(states: seq<System>, events: seq<PEvent>, c: nat, t: Tid, pid: int, p: PcbId) {
    && c < |events| < |states| && events[c] == JoinCall(pid) && By(states[c], t)
    && 0 <= pid < |states[c].slots| && states[c].slots[pid] == Some(p)
  }

  // At event x the process of PCB m makes PCB p, in ExecUpdate.
  ghost predicate MadeBy(states: seq<System>, events: seq<PEvent>, x: nat, p: PcbId, m: PcbId) {
    && x < |events| < |states| && events[x].ExecCreate? && |states[x].pcbs| == p
    && HasProc(states[x]) && states[x].procs[states[x].k.current.value].me == m
  }

  lemma SafeStep(states: seq<System>, events: seq<PEvent>, n: nat)
    requires IsSafeRun(states, events) && n < |events|
    ensures SysInv(states[n]) && PCan(states[n], events[n]) && states[n + 1] == PDo(states[n], events[n])
  {
    hide SysInv, PCan, PDo;
    SafeRunInv(states, events, n);
  }

  // ----- the call behind a join -----

  // Thread t calls JoinUpdate and passes its test.
  predicate Passes(s: System, e: PEvent, t: Tid) {
    By(s, t) && e.JoinCall? && HasProc(s) && MayJoin(s, e.pid)
  }

  lemma JoinLasts(s: System, e: PEvent, t: Tid)
    requires PCan(s, e) && t in PDo(s, e).procs && JoinStage(PDo(s, e).procs[t].stage)
    ensures var st := PDo(s, e).procs[t].stage;
      if Passes(s, e, t) then 0 <= e.pid < |s.slots| && s.slots[e.pid] == Some(Asked(st))
      else t in s.procs && JoinStage(s.procs[t].stage) && Asked(s.procs[t].stage) == Asked(st)
           && (By(s, t) ==> e.Schedule? || e.JoinEnter? || e.JoinP?)
  {
  }

  lemma {:induction false} CallBehind(states: seq<System>, events: seq<PEvent>, t: Tid, n: nat)
    returns (c: nat, pid: int)
    requires IsSafeRun(states, events) && n < |states|
    requires t in states[n].procs && JoinStage(states[n].procs[t].stage)
    ensures c < n && AsksFor(states, events, c, t, pid, Asked(states[n].procs[t].stage))
    ensures HasProc(states[c]) && MayJoin(states[c], pid) && InOneJoin(states, events, t, c, n)
  {
    hide IsSafeRun, SysInv, PCan, PDo, MayJoin;
    NobodyExitedYet(states, events);
    SafeStep(states, events, n - 1);
    JoinLasts(states[n - 1], events[n - 1], t);
    if Passes(states[n - 1], events[n - 1], t) {
      c, pid := n - 1, events[n - 1].pid;
      CallFacts(states[c], pid);
    } else {
      c, pid := CallBehind(states, events, t, n - 1);
    }
  }

  lemma CallFacts(s: System, pid: int)
    requires PCan(s, JoinCall(pid)) && MayJoin(s, pid)
    ensures HasProc(s) && 0 <= pid < |s.slots|
  {
  }

  // ----- who made a process -----

  // While p has not been joined, its maker is where the parentID says.
  ghost predicate MakerThere(s: System, p: PcbId, m: PcbId) {
    && p < |s.pcbs|
    && (!s.pcbs[p].join.Joined? ==>
         0 <= s.pcbs[p].parentID < |s.slots| && s.slots[s.pcbs[p].parentID] == Some(m))
  }

  lemma MakerStays(s: System, e: PEvent, p: PcbId, m: PcbId)
    requires SysInv(s) && PCan(s, e) && 0 < p < |s.pcbs| && MakerThere(s, p, m)
    ensures MakerThere(PDo(s, e), p, m)
  {
    hide SysInv, PCan, PDo;
    PcbKept(s, e, p);
    if s.pcbs[p].join.Joined? { StaysJoined(s, e, p); }
    SlotsKept(s, e);
    if e.RemoveSelf? && !s.pcbs[p].join.Joined? {
      ParentKeepsSlot(s, p);
    }
  }

  lemma PcbKept(s: System, e: PEvent, p: PcbId)
    requires PCan(s, e) && p < |s.pcbs|
    ensures p < |PDo(s, e).pcbs| && PDo(s, e).pcbs[p].parentID == s.pcbs[p].parentID
  {
  }

  lemma StaysJoined(s: System, e: PEvent, p: PcbId)
    requires SysInv(s) && PCan(s, e) && p < |s.pcbs| && s.pcbs[p].join.Joined?
    ensures p < |PDo(s, e).pcbs| && PDo(s, e).pcbs[p].join.Joined?
  {
    hide SysInv;
    if e.JoinP? {
      var t := s.k.current.value;
      ThreadFacts(s, t);
      JoinProceedsIff(s, t, StageNow(s).pid, StageNow(s).asked, StageNow(s).p);
    }
  }

  // A slot that is taken changes only when its own process leaves.
  lemma SlotsKept(s: System, e: PEvent)
    requires SysInv(s) && PCan(s, e)
    ensures |PDo(s, e).slots| == |s.slots|
    ensures forall i :: 0 <= i < |s.slots| && s.slots[i].Some? ==>
      PDo(s, e).slots[i] == s.slots[i] || (e.RemoveSelf? && HasProc(s) && i == MyPcb(s).processID)
  {
    hide SysInv, LeastFree;
    if e.ExecCreate? { SlotIsFree(s); }
  }

  // The parent of an unjoined process is not the one that is leaving.
  lemma ParentKeepsSlot(s: System, p: PcbId)
    requires SysInv(s) && PCan(s, RemoveSelf) && 0 < p < |s.pcbs| && !s.pcbs[p].join.Joined?
    ensures HasProc(s) && s.pcbs[p].parentID != MyPcb(s).processID
  {
    hide Inv, Asleep, SemsOk, JoinsOk, TableOk;
    ThreadFacts(s, s.k.current.value);
    assert HasParent(s.pcbs[p], s);
  }

  lemma JustMade(s: System)
    requires SysInv(s) && PCan(s, ExecCreate)
    ensures HasProc(s) && |PDo(s, ExecCreate).pcbs| == |s.pcbs| + 1
    ensures MakerThere(PDo(s, ExecCreate), |s.pcbs|, s.procs[s.k.current.value].me)
  {
    hide SysInv, LeastFree;
    ThreadFacts(s, s.k.current.value);
    SlotIsFree(s);
  }

  lemma SlotIsFree(s: System)
    requires SysInv(s) && LeastFree(s.bits, 0, MAX_PROCESS) < MAX_PROCESS
    ensures |s.slots| == MAX_PROCESS && s.slots[LeastFree(s.bits, 0, MAX_PROCESS)].None?
  {
    FreeSlotIsFree(s);
  }

  lemma PcbsGrow(s: System, e: PEvent)
    requires PCan(s, e)
    ensures |PDo(s, e).pcbs| == |s.pcbs| + if e.ExecCreate? then 1 else 0
  {
  }

  lemma {:induction false} MakerBehind(states: seq<System>, events: seq<PEvent>, p: PcbId, n: nat)
    returns (x: nat, m: PcbId)
    requires IsSafeRun(states, events) && n < |states| && 0 < p < |states[n].pcbs|
    ensures x < n && MadeBy(states, events, x, p, m) && MakerThere(states[n], p, m)
  {
    hide IsSafeRun, SysInv, PCan, PDo, MakerThere;
    NobodyExitedYet(states, events);
    SafeStep(states, events, n - 1);
    PcbsGrow(states[n - 1], events[n - 1]);
    if p < |states[n - 1].pcbs| {
      x, m := MakerBehind(states, events, p, n - 1);
      MakerStays(states[n - 1], events[n - 1], p, m);
    } else {
      x := n - 1;
      JustMade(states[x]);
      m := states[x].procs[states[x].k.current.value].me;
    }
  }

  // The slot of the caller's process holds the caller's PCB.
  lemma CallerIsMaker(s: System, t: Tid, pid: int, m: PcbId)
    requires SysInv(s) && By(s, t) && HasProc(s) && MayJoin(s, pid)
    requires PcbAt(s, pid).join.NotJoined? && MakerThere(s, s.slots[pid].value, m)
    ensures s.procs[t].me == m
  {
    hide SysInv;
    ThreadFacts(s, t);
  }

  lemma RootHasNoParent(s: System, t: Tid, pid: int)
    requires SysInv(s) && By(s, t) && HasProc(s) && MayJoin(s, pid)
    requires s.pcbs != [] && s.pcbs[0].parentID < 0
    ensures s.slots[pid].value != 0
  {
  }

  lemma {:induction false} RootParent(states: seq<System>, events: seq<PEvent>, n: nat)
    requires IsSafeRun(states, events) && n < |states|
    ensures states[n].pcbs != [] && states[n].pcbs[0].parentID < 0
  {
    if n > 0 {
      RootParent(states, events, n - 1);
      SafeStep(states, events, n - 1);
      hide IsSafeRun, SysInv;
      RootStays(states[n - 1], events[n - 1]);
    } else {
      hide PCan, PDo;
    }
  }

  lemma RootStays(s: System, e: PEvent)
    requires PCan(s, e) && s.pcbs != []
    ensures PDo(s, e).pcbs != [] && PDo(s, e).pcbs[0].parentID == s.pcbs[0].parentID
  {
  }

  /** From call to return.  Under the discipline, a JoinUpdate(pid) that returns gives the
      code that the process in slot pid at the time of the call has given to ExitUpdate;
      and that process is one that the caller's own process has made with ExecUpdate. */
  lemma JoinReturns(states: seq<System>, events: seq<PEvent>, r: nat, t: Tid)
    returns (c: nat, pid: int, p: PcbId, e: nat, code: int, x: nat)
    requires IsProcessRun(states, events) && r < |events| && events[r] == JoinRead && By(states[r], t)
    ensures |states| == |events| + 1 && states[r + 1].joined == states[r].joined + [Return(p, code)]
    ensures c < r && AsksFor(states, events, c, t, pid, p) && InOneJoin(states, events, t, c, r)
    ensures e < r && ExitedWith(states, events, e, p, code)
    ensures x < c && HasProc(states[c]) && MadeBy(states, events, x, p, states[c].procs[t].me)
  {
    ProcessRunIsSafe(states, events);
    ProcessRunInv(states, events, r);
    SafeStep(states, events, r);
    CallDisciplined(states, events);
    hide IsProcessRun, IsSafeRun, PCan, PDo, DInv, Disciplined, MadeBy, ExitedWith, MayJoin;
    var st := JoinReadStage(states[r], t);
    JoinReadsItsChild(states[r], t, st.pid, st.asked, st.p);
    p, code := st.asked, states[r].pcbs[st.asked].exit.code;
    c, pid := CallBehind(states, events, t, r);
    e := CodeOverRuns(states, events, p, r);
    SafeStep(states, events, c);
    RootParent(states, events, c);
    hide SysInv;
    x := CallersChild(states, events, c, t, pid, p);
  }

  lemma JoinReadStage(s: System, t: Tid) returns (st: Stage)
    requires PCan(s, JoinRead) && By(s, t)
    ensures t in s.procs && st == s.procs[t].stage && st.JoinGot?
  {
    st := s.procs[t].stage;
  }

  lemma CallDisciplined(states: seq<System>, events: seq<PEvent>)
    requires IsProcessRun(states, events)
    ensures |states| == |events| + 1 && forall i :: 0 <= i < |events| ==> Disciplined(states[i], events[i])
  {
    hide PWants, PCan, PDo, Disciplined;
  }

  // The caller's process made the process it joins.
  lemma CallersChild(states: seq<System>, events: seq<PEvent>, c: nat, t: Tid, pid: int, p: PcbId) returns (x: nat)
    requires IsSafeRun(states, events) && AsksFor(states, events, c, t, pid, p) && Disciplined(states[c], events[c])
    requires HasProc(states[c]) && MayJoin(states[c], pid) && SysInv(states[c])
    requires states[c].pcbs != [] && states[c].pcbs[0].parentID < 0
    ensures x < c && MadeBy(states, events, x, p, states[c].procs[t].me)
  {
    hide IsSafeRun, SysInv, MakerThere, MadeBy;
    RootHasNoParent(states[c], t, pid);
    var m;
    x, m := MakerBehind(states, events, p, c);
    CallerIsMaker(states[c], t, pid, m);
  }
}
