/** threads/synchlist.cc over every interleaving of any number of threads that call
    Append and RemoveFront. */
module SynchLists {
  import opened Options
  import opened FiniteSets
  import opened Kernels
  import opened Monitors

  type Item = nat  // the template parameter; NachOS uses pointers

  /** What a thread is doing with the list.
      Idle:         outside.
      Appending(x): in Append, list->Append not yet done.
      ToSignal:     in Append, between list->Append and Signal.
      ToRelease:    in Append, after Signal.
      Consuming:    in RemoveFront, has not waited.
      Rechecking:   in RemoveFront, has called Wait at least once.
      Took(x):      in RemoveFront, item taken off the list. */
  datatype Role = Idle | Appending(x: Item) | ToSignal | ToRelease | Consuming | Rechecking | Took(x: Item)

  /** C state: the monitor and the list.  appended and removed are history. */
  datatype SynchList = SynchList(
    m: Monitor,
    list: seq<Item>,
    role: map<Tid, Role>,
    appended: seq<Item>,
    removed: seq<Item>)

  datatype ListEvent =
    | Mon(e: Event)            // a step inside Acquire, Wait or the scheduler
    | CallAppend(x: Item) | CallRemove
    | DoAppend | DoSignal | DoRelease | DoWait | DoTake

  predicate HasRole(s: SynchList) {
    s.m.k.current.Some? && s.m.k.current.value in s.role
  }

  function RoleNow(s: SynchList): Role
    requires HasRole(s)
  {
    s.role[s.m.k.current.value]
  }

  // What the current thread's code does next.
  predicate ListWants(s: SynchList, e: ListEvent) {
    match e
    case Mon(Schedule(a)) =>
      Wants(s.m, Schedule(a)) && (a.Finish? ==> HasRole(s) && RoleNow(s).Idle?)
    case Mon(Acquire) => HasRole(s) && (RoleNow(s).Appending? || RoleNow(s).Consuming?) && Wants(s.m, Acquire)
    case Mon(SetHolder) => Wants(s.m, SetHolder)
    case Mon(WaitSleep) => Wants(s.m, WaitSleep)
    case Mon(Reacquire) => Wants(s.m, Reacquire)
    case Mon(Resume) => Wants(s.m, Resume)
    case Mon(_) => false
    case CallAppend(_) => HasRole(s) && RoleNow(s).Idle? && Free(s.m.k)
    case CallRemove => HasRole(s) && RoleNow(s).Idle? && Free(s.m.k)
    // List::Append asserts that the item is not on the list already
    case DoAppend => HasRole(s) && RoleNow(s).Appending? && At(s.m, In) && RoleNow(s).x !in s.list
    case DoSignal => HasRole(s) && RoleNow(s).ToSignal? && Wants(s.m, Signal)
    case DoRelease => HasRole(s) && (RoleNow(s).ToRelease? || RoleNow(s).Took?) && Wants(s.m, Release)
    case DoWait => HasRole(s) && (RoleNow(s).Consuming? || RoleNow(s).Rechecking?) && Wants(s.m, Wait) && s.list == []
    case DoTake => HasRole(s) && (RoleNow(s).Consuming? || RoleNow(s).Rechecking?) && At(s.m, In) && s.list != []
  }

  // The monitor event behind a list event, if any.
  function MonitorPart(e: ListEvent): Option<Event> {
    match e
    case Mon(e') => Some(e')
    case DoSignal => Some(Signal)
    case DoRelease => Some(Release)
    case DoWait => Some(Wait)
    case _ => None
  }

  predicate ListCan(s: SynchList, e: ListEvent) {
    ListWants(s, e) && (MonitorPart(e).Some? ==> CanDo(s.m, MonitorPart(e).value))
  }

  function Become(s: SynchList, r: Role): map<Tid, Role>
    requires s.m.k.current.Some?
  {
    s.role[s.m.k.current.value := r]
  }

  function ListDo(s: SynchList, e: ListEvent): SynchList
    requires ListCan(s, e)
  {
    match e
    case Mon(e') =>
      var m' := Do(s.m, e');
      if e'.Schedule? && e'.a.Fork? then s.(m := m', role := s.role[e'.a.t := Idle])
      else if e'.Schedule? && e'.a.Finish? then s.(m := m', role := s.role - {s.m.k.current.value})
      else s.(m := m')
    case CallAppend(x) => s.(role := Become(s, Appending(x)))
    case CallRemove => s.(role := Become(s, Consuming))
    case DoAppend =>
      s.(list := s.list + [RoleNow(s).x], appended := s.appended + [RoleNow(s).x], role := Become(s, ToSignal))
    case DoSignal => s.(m := Do(s.m, Signal), role := Become(s, ToRelease))
    case DoRelease => s.(m := Do(s.m, Release), role := Become(s, Idle))
    case DoWait => s.(m := Do(s.m, Wait), role := Become(s, Rechecking))
    case DoTake =>
      s.(list := s.list[1..], removed := s.removed + [s.list[0]], role := Become(s, Took(s.list[0])))
  }

  function ListStart(t: Tid): SynchList {
    SynchList(Start(t), [], map[t := Idle], [], [])
  }

  // ----- the invariant -----

  // Consumers that were signalled and have not retested the list yet.
  predicate IsSignalled(s: SynchList, t: Tid) {
    && t in s.role && s.role[t].Rechecking? && t in s.m.pc
    && !(s.m.pc[t].WaitP? && s.m.pc[t].w in s.m.waitQueue)
  }

  function Signalled(s: SynchList): set<Tid> {
    set t | t in s.role && IsSignalled(s, t)
  }

  // Producers that still owe a Signal for the item they put on the list.
  function Owing(s: SynchList): set<Tid> {
    set t | t in s.role && s.role[t].ToSignal?
  }

  predicate RoleFits(r: Role, p: Pc) {
    match r
    case Idle => p.Out?
    case Appending(_) => p.Out? || p.AcqP? || p.Got? || p.In?
    case ToSignal => p.In?
    case ToRelease => p.In?
    case Consuming => p.Out? || p.AcqP? || p.Got? || p.In?
    case Rechecking => p.In? || p.WaitP? || p.ReAcqP? || p.GotW?
    case Took(_) => p.In?
  }

  ghost predicate RolesOk(s: SynchList) {
    && s.role.Keys == s.m.pc.Keys
    && forall t :: t in s.role ==> RoleFits(s.role[t], s.m.pc[t])
  }

  /** No consumer is stranded beside an unclaimed item. */
  ghost predicate NobodyStranded(s: SynchList) {
    s.m.waitQueue != [] ==> |s.list| <= |Signalled(s)| + |Owing(s)|
  }

  ghost predicate SInv(s: SynchList) {
    && MInv(s.m) && RolesOk(s)
    && s.appended == s.removed + s.list
    && NobodyStranded(s)
  }

  lemma ListStartInv(t: Tid)
    ensures SInv(ListStart(t))
  {
    hide MInv;
    StartInv(t);
  }

  lemma ListNeverFails(s: SynchList, e: ListEvent)
    requires SInv(s) && ListWants(s, e)
    ensures ListCan(s, e)
  {
    hide MInv, Wants, CanDo;
    if MonitorPart(e).Some? { NeverFails(s.m, MonitorPart(e).value); }
  }

  // ----- steps -----

  lemma RolesAfterMonitor(s: SynchList, e: Event)
    requires SInv(s) && ListCan(s, Mon(e))
    ensures RolesOk(ListDo(s, Mon(e)))
  {
    hide MInv, NobodyStranded;
    var s' := ListDo(s, Mon(e));
    assert s.role.Keys == s.m.pc.Keys;
    assert s'.role.Keys == s'.m.pc.Keys;
  }

  lemma RolesAfterCode(s: SynchList, e: ListEvent)
    requires SInv(s) && ListCan(s, e) && !e.Mon?
    ensures RolesOk(ListDo(s, e))
  {
    hide MInv, NobodyStranded;
    var s', t := ListDo(s, e), s.m.k.current.value;
    assert t in s.role.Keys && s.role.Keys == s.m.pc.Keys;
    assert s'.role.Keys == s'.m.pc.Keys;
  }

  // A step inside Acquire, Wait or the scheduler leaves the queue alone, and a
  // thread that is not queued in it stays not queued.
  lemma MonitorStepFacts(m: Monitor, e: Event, t: Tid)
    requires MInv(m) && CanDo(m, e) && t in m.pc && !m.pc[t].Out?
    requires !e.Release? && !e.Wait? && !e.Signal? && !e.Broadcast?
    ensures var m' := Do(m, e);
      && m'.waitQueue == m.waitQueue && t in m'.pc
      && (m'.pc[t].WaitP? ==> m'.pc[t] == m.pc[t])
  {
    hide Inv, LockOk, ClientsOk;
    assert m.pc.Keys == m.k.status.Keys;
    hide SleepersOk;
  }

  // Signalled consumers stay signalled across such steps ...
  lemma SignalledAfterMonitor(s: SynchList, e: Event)
    requires SInv(s) && ListCan(s, Mon(e))
    ensures Signalled(s) <= Signalled(ListDo(s, Mon(e)))
    ensures Owing(ListDo(s, Mon(e))) == Owing(s)
  {
    hide MInv, NobodyStranded, ListDo, ListCan, Do, CanDo, Wants;
    RoleFactsAfterMonitor(s, e);
    var s' := ListDo(s, Mon(e));
    forall t | t in Signalled(s)
      ensures t in Signalled(s')
    {
      assert t in s.role.Keys && !s.m.pc[t].Out?;
      MonitorStepFacts(s.m, e, t);
    }
  }

  lemma RoleFactsAfterMonitor(s: SynchList, e: Event)
    requires SInv(s) && ListCan(s, Mon(e))
    ensures var s' := ListDo(s, Mon(e));
      && CanDo(s.m, e) && s'.m == Do(s.m, e) && s'.list == s.list
      && (forall t :: t in s.role && !s.role[t].Idle? ==> t in s'.role && s'.role[t] == s.role[t])
      && (forall t :: t in s'.role && !s'.role[t].Idle? ==> t in s.role && s'.role[t] == s.role[t])
    ensures !e.Release? && !e.Wait? && !e.Signal? && !e.Broadcast?
  {
    hide MInv, NobodyStranded, Do, CanDo;
    assert s.role.Keys == s.m.pc.Keys;
    if e.Schedule? && e.a.Fork? { ForkedIsNew(s, e.a.t); }
  }

  lemma ForkedIsNew(s: SynchList, t: Tid)
    requires SInv(s) && CanFork(s.m.k, t)
    ensures t !in s.role
  {
    hide Inv, LockOk, ClientsOk, NobodyStranded;
    assert s.m.pc.Keys == s.m.k.status.Keys && t !in s.m.k.status.Keys;
    assert t !in s.role.Keys;
  }

  lemma ClientsIn(m: Monitor)
    requires MInv(m)
    ensures ClientsOk(m)
  {
  }

  lemma SignalFacts(s: SynchList)
    requires ListCan(s, DoSignal) && s.m.waitQueue != []
    ensures s.m.k.current.Some?
    ensures var s', t := ListDo(s, DoSignal), s.m.k.current.value;
      && s'.m.pc == s.m.pc && s'.m.waitQueue == s.m.waitQueue[1..]
      && t in s.role && s.role[t].ToSignal? && s'.role == s.role[t := ToRelease]
  {
  }

  lemma SignalledAfterSignal(s: SynchList)
    requires SInv(s) && ListCan(s, DoSignal) && s.m.waitQueue != []
    ensures |Signalled(s)| + 1 <= |Signalled(ListDo(s, DoSignal))|
    ensures |Owing(s)| - 1 == |Owing(ListDo(s, DoSignal))|
  {
    hide MInv, NobodyStranded, ListDo, ListCan, Do, ClientsOk;
    ClientsIn(s.m);
    FirstWaiter(s.m);
    SignalFacts(s);
    var s', t, c := ListDo(s, DoSignal), s.m.k.current.value, s.m.client[s.m.waitQueue[0]];
    WaiterRechecks(s, c);
    hide RolesOk;
    assert c !in Signalled(s) && c in Signalled(s');
    forall u | u in Signalled(s)
      ensures u in Signalled(s')
    {
      assert s.m.pc[u].WaitP? ==> s.m.pc[u].w !in s.m.waitQueue[1..];
    }
    SupersetSize(Signalled(s), c, Signalled(s'));
    assert Owing(s') == Owing(s) - {t};
  }

  lemma WaiterRechecks(s: SynchList, c: Tid)
    requires RolesOk(s) && c in s.m.pc && s.m.pc[c].WaitP?
    ensures c in s.role && s.role[c].Rechecking?
  {
    assert c in s.m.pc.Keys;
  }

  lemma StrandedAfterTake(s: SynchList)
    requires SInv(s) && ListCan(s, DoTake)
    ensures NobodyStranded(ListDo(s, DoTake))
  {
    hide MInv;
    var s', t := ListDo(s, DoTake), s.m.k.current.value;
    assert Signalled(s') == Signalled(s) - {t};
    assert Owing(s') == Owing(s);
  }

  // Steps of a thread t that neither was nor becomes a waiting consumer.
  lemma SameSignalled(s: SynchList, s': SynchList, t: Tid)
    requires t in s.role && t in s'.role && s'.role == s.role[t := s'.role[t]]
    requires !s.role[t].Rechecking? && !s'.role[t].Rechecking?
    requires s'.m.waitQueue == s.m.waitQueue && s'.m.pc.Keys == s.m.pc.Keys
    requires forall u :: u in s.m.pc && u != t ==> s'.m.pc[u] == s.m.pc[u]
    requires !s.role[t].ToSignal?
    ensures Signalled(s') == Signalled(s)
    ensures t !in Owing(s) && Owing(s') == Owing(s) + if s'.role[t].ToSignal? then {t} else {}
  {
    forall u
      ensures u in Signalled(s') <==> u in Signalled(s)
    {
      assert u in s.m.pc.Keys <==> u in s'.m.pc.Keys;
    }
  }

  lemma StrandedAfterCode(s: SynchList, e: ListEvent)
    requires SInv(s) && ListCan(s, e)
    requires e.CallAppend? || e.CallRemove? || e.DoAppend? || e.DoRelease? || e.DoWait?
    ensures NobodyStranded(ListDo(s, e))
  {
    hide MInv, RolesOk, Signalled, Owing;
    var s', t := ListDo(s, e), s.m.k.current.value;
    if !e.DoWait? {
      assert t in s.m.pc ==> s.m.pc.Keys == s.m.pc[t := Out].Keys;
      SameSignalled(s, s', t);
    }
  }

  lemma StrandedAfterMonitor(s: SynchList, e: Event)
    requires SInv(s) && ListCan(s, Mon(e))
    ensures NobodyStranded(ListDo(s, Mon(e)))
  {
    hide MInv, ListDo, ListCan, CanDo, Wants, SInv;
    RoleFactsAfterMonitor(s, e);
    SignalledAfterMonitor(s, e);
    StrandedIn(s);
    var s' := ListDo(s, Mon(e));
    assert s'.m.waitQueue == s.m.waitQueue;
    SubsetSize(Signalled(s), Signalled(s'));
  }

  lemma StrandedIn(s: SynchList)
    requires SInv(s)
    ensures NobodyStranded(s)
  {
  }

  lemma StrandedKept(s: SynchList, e: ListEvent)
    requires SInv(s) && ListCan(s, e)
    ensures NobodyStranded(ListDo(s, e))
  {
    hide MInv, CanDo, Wants, RolesOk, Signalled, Owing;
    match e
    case Mon(e') => StrandedAfterMonitor(s, e');
    case DoSignal => if s.m.waitQueue != [] { SignalledAfterSignal(s); }
    case DoTake => StrandedAfterTake(s);
    case _ => StrandedAfterCode(s, e);
  }

  /** Every step keeps the invariant. */
  lemma ListDoInv(s: SynchList, e: ListEvent)
    requires SInv(s) && ListCan(s, e)
    ensures SInv(ListDo(s, e))
  {
    hide MInv, RolesOk, NobodyStranded;
    if MonitorPart(e).Some? { DoInv(s.m, MonitorPart(e).value); }
    if e.Mon? { RolesAfterMonitor(s, e.e); } else { RolesAfterCode(s, e); }
    StrandedKept(s, e);
    var s' := ListDo(s, e);
    assert s'.appended == s'.removed + s'.list by {
      if e.DoTake? { assert s.list == [s.list[0]] + s.list[1..]; }
    }
  }

  // ----- every run -----

  ghost predicate IsListRun(states: seq<SynchList>, events: seq<ListEvent>) {
    && |states| == |events| + 1
    && (exists t :: states[0] == ListStart(t))
    && forall i :: 0 <= i < |events| ==>
         ListWants(states[i], events[i])
         && (ListCan(states[i], events[i]) ==> states[i + 1] == ListDo(states[i], events[i]))
  }

  lemma {:induction false} ListRunInv(states: seq<SynchList>, events: seq<ListEvent>, n: nat)
    requires IsListRun(states, events) && n < |states|
    ensures SInv(states[n])
    ensures n < |events| ==> ListCan(states[n], events[n])
  {
    hide SInv, ListWants, ListCan, ListDo;
    if n == 0 {
      var t :| states[0] == ListStart(t);
      ListStartInv(t);
    } else {
      ListRunInv(states, events, n - 1);
      ListDoInv(states[n - 1], events[n - 1]);
    }
    if n < |events| { ListNeverFails(states[n], events[n]); }
  }

  /** First in, first out, nothing lost, nothing twice; and while a consumer waits,
      every item on the list has a signalled consumer coming for it or a producer
      about to signal one. */
  lemma QueueOverRuns(states: seq<SynchList>, events: seq<ListEvent>, n: nat)
    requires IsListRun(states, events) && n < |states|
    ensures var s := states[n];
      && s.appended == s.removed + s.list
      && (s.m.waitQueue != [] ==> |s.list| <= |Signalled(s)| + |Owing(s)|)
      && |Owing(s)| <= 1
  {
    hide MInv;
    ListRunInv(states, events, n);
    AtMostOneOwes(states[n]);
  }

  lemma AtMostOneOwes(s: SynchList)
    requires SInv(s)
    ensures |Owing(s)| <= 1
    ensures s.m.owner.None? ==> Owing(s) == {}
  {
    hide Inv, ClientsOk, SleepersOk, NobodyStranded;
    if s.m.owner.Some? {
      assert forall t :: t in Owing(s) ==> Holding(s.m.pc[t]);
      assert Owing(s) <= {s.m.owner.value};
      SubsetSize(Owing(s), {s.m.owner.value});
    } else {
      assert Owing(s) == {};
    }
  }

  /** When nothing can run, every thread is a consumer asleep in Wait, and there is
      nothing on the list for any of them. */
  lemma QuiescentList(s: SynchList)
    requires SInv(s) && Quiescent(s.m)
    ensures forall t :: t in s.role ==> s.role[t].Rechecking?
    ensures s.role != map[] ==> s.list == []
  {
    hide MInv;
    QuiescentMonitor(s.m);
    assert s.role.Keys == s.m.pc.Keys;
    AtMostOneOwes(s);
    assert Signalled(s) == {};
    if s.role != map[] {
      var t :| t in s.role;
      assert t in s.m.pc.Keys;
      assert s.m.pc[t].w in s.m.waitQueue;
    }
  }

  // ----- what goes in comes out, read off the events -----

  predicate By(s: SynchList, t: Tid) { s.m.k.current == Some(t) }

  // How often e happens among the first n events.
  function Count(events: seq<ListEvent>, e: ListEvent, n: nat): nat
    requires n <= |events|
  {
    if n == 0 then 0 else Count(events, e, n - 1) + if events[n - 1] == e then 1 else 0
  }

  // Between events i and j thread t does nothing but wait for the lock or the processor.
  ghost predicate OnlyWaits(states: seq<SynchList>, events: seq<ListEvent>, t: Tid, i: nat, j: nat) {
    forall m :: i < m < j && m < |events| && m < |states| && By(states[m], t) ==> events[m].Mon?
  }

  // At event a, thread t puts on the list the item it was called with at event c.
  ghost predicate AppendsAt(states: seq<SynchList>, events: seq<ListEvent>, c: nat, a: nat, t: Tid, x: Item) {
    && c < a < |events| < |states|
    && events[c] == CallAppend(x) && By(states[c], t)
    && events[a] == DoAppend && By(states[a], t)
    && OnlyWaits(states, events, t, c, a)
  }

  // Thread t has had this role since its own step i, which gave it.
  ghost predicate Since(states: seq<SynchList>, events: seq<ListEvent>, t: Tid, i: nat, n: nat) {
    i < n < |states| && By(states[i], t) && OnlyWaits(states, events, t, i, n)
  }

  ghost predicate Follows(s: SynchList, e: ListEvent, s': SynchList) {
    ListCan(s, e) && s' == ListDo(s, e)
  }

  lemma RunStep(states: seq<SynchList>, events: seq<ListEvent>, n: nat)
    requires IsListRun(states, events) && n < |events|
    ensures |states| == |events| + 1 && SInv(states[n]) && Follows(states[n], events[n], states[n + 1])
  {
    hide SInv, ListWants, ListCan, ListDo;
    ListRunInv(states, events, n);
  }

  lemma RunStart(states: seq<SynchList>, events: seq<ListEvent>)
    requires IsListRun(states, events)
    ensures |states| == |events| + 1 && states[0].appended == [] && states[0].removed == []
    ensures forall t :: t in states[0].role ==> states[0].role[t].Idle?
  {
    hide ListWants, ListCan, ListDo;
  }

  // A role that is not Idle lasts until the thread does something, and the two that
  // carry an item come from one event each.
  lemma RoleLasts(s: SynchList, e: ListEvent, s': SynchList, t: Tid)
    requires Follows(s, e, s') && t in s'.role && !s'.role[t].Idle?
    ensures (By(s, t) && !e.Mon?) || (t in s.role && s'.role[t] == s.role[t])
    ensures By(s, t) && !e.Mon? && s'.role[t].Appending? ==> e == CallAppend(s'.role[t].x)
    ensures By(s, t) && !e.Mon? && s'.role[t].Took? ==> e == DoTake
  {
    hide Do, CanDo, Wants;
  }

  lemma {:induction false} CallBehind(states: seq<SynchList>, events: seq<ListEvent>, t: Tid, x: Item, n: nat)
    returns (c: nat)
    requires IsListRun(states, events) && n < |states|
    requires t in states[n].role && states[n].role[t] == Appending(x)
    ensures Since(states, events, t, c, n) && c < |events| && events[c] == CallAppend(x)
  {
    hide IsListRun, Follows, SInv;
    RunStart(states, events);
    RunStep(states, events, n - 1);
    RoleLasts(states[n - 1], events[n - 1], states[n], t);
    if By(states[n - 1], t) && !events[n - 1].Mon? {
      c := n - 1;
    } else {
      c := CallBehind(states, events, t, x, n - 1);
    }
  }

  lemma {:induction false} TakeBehind(states: seq<SynchList>, events: seq<ListEvent>, t: Tid, x: Item, n: nat)
    returns (i: nat)
    requires IsListRun(states, events) && n < |states|
    requires t in states[n].role && states[n].role[t] == Took(x)
    ensures Since(states, events, t, i, n) && i < |events| && events[i] == DoTake
    ensures t in states[i + 1].role && states[i + 1].role[t] == Took(x)
  {
    hide IsListRun, Follows, SInv;
    RunStart(states, events);
    RunStep(states, events, n - 1);
    RoleLasts(states[n - 1], events[n - 1], states[n], t);
    if By(states[n - 1], t) && !events[n - 1].Mon? {
      i := n - 1;
    } else {
      i := TakeBehind(states, events, t, x, n - 1);
    }
  }

  lemma HistoryStep(s: SynchList, e: ListEvent, s': SynchList)
    requires Follows(s, e, s')
    ensures e != DoAppend ==> s'.appended == s.appended
    ensures e == DoAppend ==> HasRole(s) && RoleNow(s).Appending? && s'.appended == s.appended + [RoleNow(s).x]
    ensures |s'.removed| == |s.removed| + if e == DoTake then 1 else 0
  {
    hide Do, CanDo, Wants;
  }

  // The counts of the events are the lengths of the histories.
  lemma {:induction false} HistoryLengths(states: seq<SynchList>, events: seq<ListEvent>, n: nat)
    requires IsListRun(states, events) && n < |states|
    ensures n <= |events| && |states[n].appended| == Count(events, DoAppend, n)
    ensures |states[n].removed| == Count(events, DoTake, n)
  {
    hide IsListRun, Follows, SInv;
    RunStart(states, events);
    if n > 0 {
      HistoryLengths(states, events, n - 1);
      RunStep(states, events, n - 1);
      HistoryStep(states[n - 1], events[n - 1], states[n]);
    }
  }

  // The event that appended the k-th item.
  lemma {:induction false} AppendBehind(states: seq<SynchList>, events: seq<ListEvent>, k: nat, n: nat)
    returns (a: nat)
    requires IsListRun(states, events) && n < |states| && k < |states[n].appended|
    ensures a < n <= |events| && events[a] == DoAppend && Count(events, DoAppend, a) == k
    ensures HasRole(states[a]) && RoleNow(states[a]) == Appending(states[n].appended[k])
  {
    hide IsListRun, Follows, SInv;
    RunStart(states, events);
    RunStep(states, events, n - 1);
    HistoryLengths(states, events, n - 1);
    HistoryStep(states[n - 1], events[n - 1], states[n]);
    if k < |states[n - 1].appended| {
      a := AppendBehind(states, events, k, n - 1);
    } else {
      a := n - 1;
    }
  }

  lemma TakesFront(s: SynchList, s': SynchList)
    requires SInv(s) && Follows(s, DoTake, s')
    ensures HasRole(s) && |s.removed| < |s.appended| && s.m.k.current.value in s'.role
    ensures s'.role[s.m.k.current.value] == Took(s.appended[|s.removed|])
  {
    hide MInv;
  }

  /** The item that the k-th RemoveFront takes off the list is the one the k-th Append
      to reach the list was called with. */
  lemma TakesWhatWasAppended(states: seq<SynchList>, events: seq<ListEvent>, i: nat)
    returns (c: nat, a: nat, u: Tid, x: Item)
    requires IsListRun(states, events) && i < |events| && events[i] == DoTake
    ensures AppendsAt(states, events, c, a, u, x) && a < i
    ensures Count(events, DoAppend, a) == Count(events, DoTake, i)
    ensures HasRole(states[i]) && states[i].m.k.current.value in states[i + 1].role
    ensures states[i + 1].role[states[i].m.k.current.value] == Took(x)
  {
    hide IsListRun, Follows, SInv;
    RunStep(states, events, i);
    TakesFront(states[i], states[i + 1]);
    HistoryLengths(states, events, i);
    var k := |states[i].removed|;
    a := AppendBehind(states, events, k, i);
    u, x := states[a].m.k.current.value, states[i].appended[k];
    c := CallBehind(states, events, u, x, a);
  }

  /** What a RemoveFront returns, when it releases the lock, is the item it took. */
  lemma RemoveFrontReturns(states: seq<SynchList>, events: seq<ListEvent>, r: nat, t: Tid, x: Item)
    returns (i: nat, c: nat, a: nat, u: Tid)
    requires IsListRun(states, events) && r < |events| && events[r] == DoRelease
    requires By(states[r], t) && t in states[r].role && states[r].role[t] == Took(x)
    ensures i < r && events[i] == DoTake && By(states[i], t) && OnlyWaits(states, events, t, i, r)
    ensures AppendsAt(states, events, c, a, u, x) && a < i
    ensures Count(events, DoAppend, a) == Count(events, DoTake, i)
  {
    hide IsListRun;
    RunStart(states, events);
    i := TakeBehind(states, events, t, x, r);
    var y;
    c, a, u, y := TakesWhatWasAppended(states, events, i);
  }

  /** The order of the steps in Append and RemoveFront: each leads to the next.  The list
      is looked at again after every Wait. */
  lemma ProgramOrder(s: SynchList, e: ListEvent)
    requires SInv(s) && ListCan(s, e) && !e.Mon?
    ensures var s' := ListDo(s, e);
      && HasRole(s') && s'.m.k.current == s.m.k.current
      && match e
         case CallAppend(x) => RoleNow(s') == Appending(x) && ListWants(s', Mon(Acquire))
         case CallRemove => RoleNow(s') == Consuming && ListWants(s', Mon(Acquire))
         case DoAppend => ListWants(s', DoSignal)
         case DoSignal => ListWants(s', DoRelease)
         case DoTake => ListWants(s', DoRelease) && [RoleNow(s').x] + s'.list == s.list
         case DoWait => ListWants(s', Mon(WaitSleep)) && s'.list == s.list
         case DoRelease => RoleNow(s').Idle? && s'.list == s.list
         case Mon(_) => true
  {
    hide Inv, LockOk, ClientsOk, SleepersOk, NobodyStranded;
  }

  // With the lock, a producer appends and a consumer takes or waits.
  lemma InsideOrder(s: SynchList)
    requires SInv(s) && HasRole(s) && At(s.m, In)
    ensures RoleNow(s).Appending? && RoleNow(s).x !in s.list ==> ListWants(s, DoAppend)
    ensures RoleNow(s).Consuming? || RoleNow(s).Rechecking? ==> ListWants(s, if s.list == [] then DoWait else DoTake)
  {
    hide MInv, RolesOk, NobodyStranded;
  }
}
