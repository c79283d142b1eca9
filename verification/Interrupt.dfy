/** The simulated interrupt hardware and clock (machine/interrupt.cc). */
module Interrupts {
  import opened LinkedLists

  // machine/stats.h
  const USER_TICK := 1
  const SYSTEM_TICK := 10

  // PendingInterrupt.  id tells the objects apart: they are numbered as they are made.
  datatype Pending = Pending(id: nat, when: int, toCall: nat)

  function ComparePending(x: Pending, y: Pending): int {
    if x.when < y.when then -1 else if x.when > y.when then 1 else 0
  }

  // A handler may schedule more interrupts and may ask for a yield on return.
  datatype Request = Request(toCall: nat, fromNow: int)
  datatype Reaction = Reaction(requests: seq<Request>, wantsYield: bool)

  // What the handlers do, at each firing.
  type Handlers = (Pending, nat) -> Reaction

  // Schedule's ASSERT(fromNow > 0).
  predicate AllLater(requests: seq<Request>) {
    forall i :: 0 <= i < |requests| ==> requests[i].fromNow > 0
  }

  ghost predicate Obedient(react: Handlers) {
    forall p, n :: AllLater(react(p, n).requests)
  }

  datatype Firing = Firing(what: Pending, at: int)

  /** The clock, its three accounts, and the list of pending interrupts; made counts
      the interrupts scheduled so far and fired is the history of their firing. */
  datatype Sim = Sim(
    total: int, idle: int, system: int, user: int,
    pending: seq<Pending>, made: nat, fired: seq<Firing>, yieldOnReturn: bool)

  // ----- the operations as functions -----

  function Scheduled(s: Sim, r: Request): Sim {
    s.(pending := Inserted(s.pending, Pending(s.made, s.total + r.fromNow, r.toCall), ComparePending), made := s.made + 1)
  }

  function ScheduledAll(s: Sim, rs: seq<Request>): Sim {
    if rs == [] then s else Scheduled(ScheduledAll(s, rs[..|rs| - 1]), rs[|rs| - 1])
  }

  predicate FrontDue(s: Sim) { s.pending != [] && s.pending[0].when <= s.total }

  // Takes the first interrupt off the list and calls its handler.
  function FiredOne(s: Sim, react: Handlers): Sim
    requires s.pending != []
  {
    var p := s.pending[0];
    var r := react(p, |s.fired|);
    ScheduledAll(
      s.(pending := s.pending[1..], fired := s.fired + [Firing(p, s.total)],
         yieldOnReturn := s.yieldOnReturn || r.wantsYield),
      r.requests)
  }

  function DueCount(pending: seq<Pending>, now: int): nat {
    if pending == [] then 0 else (if pending[0].when <= now then 1 else 0) + DueCount(pending[1..], now)
  }

  lemma {:induction false} InsertedLater(pending: seq<Pending>, p: Pending, now: int)
    requires p.when > now
    ensures DueCount(Inserted(pending, p, ComparePending), now) == DueCount(pending, now)
  {
    if pending != [] && ComparePending(p, pending[0]) >= 0 {
      InsertedLater(pending[1..], p, now);
    }
  }

  lemma {:induction false} ScheduledAllLater(s: Sim, rs: seq<Request>)
    requires AllLater(rs)
    ensures var s' := ScheduledAll(s, rs);
      && DueCount(s'.pending, s.total) == DueCount(s.pending, s.total)
      && s' == s.(pending := s'.pending, made := s.made + |rs|)
  {
    if rs != [] {
      var n := |rs| - 1;
      ScheduledAllLater(s, rs[..n]);
      var m := ScheduledAll(s, rs[..n]);
      InsertedLater(m.pending, Pending(m.made, m.total + rs[n].fromNow, rs[n].toCall), s.total);
    }
  }

  // Handlers reschedule, but never for now: each firing leaves one fewer due.
  lemma FewerDue(s: Sim, react: Handlers)
    requires FrontDue(s) && AllLater(react(s.pending[0], |s.fired|).requests)
    ensures FiredOne(s, react).total == s.total
    ensures DueCount(FiredOne(s, react).pending, s.total) < DueCount(s.pending, s.total)
  {
    var p := s.pending[0];
    var r := react(p, |s.fired|);
    ScheduledAllLater(s.(pending := s.pending[1..], fired := s.fired + [Firing(p, s.total)],
                         yieldOnReturn := s.yieldOnReturn || r.wantsYield), r.requests);
  }

  ghost function FiredDue(s: Sim, react: Handlers): Sim
    requires Obedient(react)
    decreases DueCount(s.pending, s.total)
  {
    if !FrontDue(s) then s
    else
      FewerDue(s, react);
      FiredDue(FiredOne(s, react), react)
  }

  lemma {:induction false} FiredGrows(s: Sim, react: Handlers)
    requires Obedient(react)
    ensures |FiredDue(s, react).fired| >= |s.fired| + (if FrontDue(s) then 1 else 0)
    decreases DueCount(s.pending, s.total)
  {
    if FrontDue(s) {
      FewerDue(s, react);
      var p := s.pending[0];
      var r := react(p, |s.fired|);
      ScheduledAllLater(s.(pending := s.pending[1..], fired := s.fired + [Firing(p, s.total)],
                           yieldOnReturn := s.yieldOnReturn || r.wantsYield), r.requests);
      FiredGrows(FiredOne(s, react), react);
    }
  }

  // When the machine idles the clock jumps to the next interrupt.
  function Jumped(s: Sim): Sim {
    if s.pending != [] && s.pending[0].when > s.total
    then s.(idle := s.idle + (s.pending[0].when - s.total), total := s.pending[0].when)
    else s
  }

  function Ticked(s: Sim, inUser: bool): Sim {
    if inUser then s.(total := s.total + USER_TICK, user := s.user + USER_TICK)
    else s.(total := s.total + SYSTEM_TICK, system := s.system + SYSTEM_TICK)
  }

  datatype Event = Ask(r: Request) | Tick(inUser: bool) | Idle

  ghost function Do(s: Sim, e: Event, react: Handlers): Sim
    requires Obedient(react)
  {
    match e
    case Ask(r) => Scheduled(s, r)
    case Tick(inUser) => FiredDue(Ticked(s, inUser), react).(yieldOnReturn := false)
    case Idle => FiredDue(Jumped(s), react)
  }

  // ----- what holds throughout -----

  // The order in which interrupts are to fire: ties as they were scheduled.
  predicate Before(p: Pending, q: Pending) {
    p.when < q.when || (p.when == q.when && p.id < q.id)
  }

  ghost predicate Ordered(ps: seq<Pending>) {
    forall i, j :: 0 <= i < j < |ps| ==> Before(ps[i], ps[j])
  }

  function Whats(fired: seq<Firing>): (ps: seq<Pending>)
    ensures |ps| == |fired|
  {
    seq(|fired|, i requires 0 <= i < |fired| => fired[i].what)
  }

  // The interrupts fired so far, then those pending.
  function Line(s: Sim): seq<Pending> {
    Whats(s.fired) + s.pending
  }

  // A firing is never early and less than a system tick late.
  predicate OnTime(f: Firing, now: int) {
    f.what.when <= f.at < f.what.when + SYSTEM_TICK && f.at <= now
  }

  /** slack is 0 except between a clock advance and the firing it causes. */
  ghost predicate Inv(s: Sim, slack: nat) {
    && s.total == s.idle + s.system + s.user
    && Ordered(Line(s))
    && Numbered(Line(s), s.made)
    && (forall i :: 0 <= i < |s.fired| ==> OnTime(s.fired[i], s.total))
    && (forall i, j :: 0 <= i < j < |s.fired| ==> s.fired[i].at <= s.fired[j].at)
    && NoneLate(s.pending, s.total, slack)
  }

  const START := Sim(0, 0, 0, 0, [], 0, [], false)

  lemma StartInv()
    ensures Inv(START, 0)
  {
  }

  lemma OrderedSplice(line: seq<Pending>, at: nat, p: Pending)
    requires Ordered(line) && at <= |line|
    requires forall i :: 0 <= i < at ==> Before(line[i], p)
    requires forall i :: at <= i < |line| ==> Before(p, line[i])
    ensures Ordered(SpliceIn(line, at, p))
  {
  }

  lemma SpliceConcat(a: seq<Pending>, b: seq<Pending>, k: nat, p: Pending)
    requires k <= |b|
    ensures a + SpliceIn(b, k, p) == SpliceIn(a + b, |a| + k, p)
  {
  }

  // A newly scheduled interrupt joins the line behind everything fired and everything
  // pending that is not later.
  lemma OrderedInsert(a: seq<Pending>, b: seq<Pending>, p: Pending)
    requires Ordered(a + b)
    requires forall i :: 0 <= i < |a| ==> a[i].when < p.when
    requires forall i :: 0 <= i < |a + b| ==> (a + b)[i].id < p.id
    ensures Ordered(a + Inserted(b, p, ComparePending))
  {
    var k := InsertedPlace(b, p, ComparePending);
    SpliceConcat(a, b, k, p);
    hide Inserted, SpliceIn;
    var line, at := a + b, |a| + k;
    forall i | 0 <= i < at
      ensures Before(line[i], p)
    {
      assert i >= |a| ==> ComparePending(p, b[i - |a|]) >= 0;
    }
    forall i | at <= i < |line|
      ensures Before(p, line[i])
    {
      assert line[at] == b[k] && (i > at ==> Before(line[at], line[i]));
    }
    OrderedSplice(line, at, p);
  }

  ghost predicate NoneLate(pending: seq<Pending>, now: int, slack: nat) {
    forall i :: 0 <= i < |pending| ==> now < pending[i].when + slack
  }

  ghost predicate Numbered(line: seq<Pending>, made: nat) {
    && |line| == made
    && (forall i :: 0 <= i < made ==> line[i].id < made)
    && (forall i, j :: 0 <= i < j < made ==> line[i].id != line[j].id)
  }

  lemma NumberedSplice(line: seq<Pending>, at: nat, p: Pending)
    requires Numbered(line, p.id) && at <= |line|
    ensures Numbered(SpliceIn(line, at, p), p.id + 1)
  {
  }

  lemma InsertedPending(a: seq<Pending>, b: seq<Pending>, p: Pending, now: int, slack: nat)
    requires NoneLate(b, now, slack) && p.when > now && Numbered(a + b, p.id)
    ensures NoneLate(Inserted(b, p, ComparePending), now, slack)
    ensures Numbered(a + Inserted(b, p, ComparePending), p.id + 1)
  {
    var k := InsertedPlace(b, p, ComparePending);
    SpliceConcat(a, b, k, p);
    NumberedSplice(a + b, |a| + k, p);
    hide Inserted, SpliceIn, Numbered;
  }

  lemma ScheduledInv(s: Sim, r: Request, slack: nat)
    requires Inv(s, slack) && r.fromNow > 0
    ensures Inv(Scheduled(s, r), slack)
  {
    hide Inserted, Ordered, Numbered, NoneLate;
    var p := Pending(s.made, s.total + r.fromNow, r.toCall);
    forall i | 0 <= i < |s.fired|
      ensures Whats(s.fired)[i].when < p.when
    {
      assert OnTime(s.fired[i], s.total);
    }
    InsertedPending(Whats(s.fired), s.pending, p, s.total, slack);
    OrderedInsert(Whats(s.fired), s.pending, p) by { Ids(Line(s), s.made); }
  }

  lemma Ids(line: seq<Pending>, made: nat)
    requires Numbered(line, made)
    ensures forall i :: 0 <= i < |line| ==> line[i].id < made
  {
  }

  lemma {:induction false} ScheduledAllInv(s: Sim, rs: seq<Request>, slack: nat)
    requires Inv(s, slack) && AllLater(rs)
    ensures Inv(ScheduledAll(s, rs), slack)
  {
    if rs != [] {
      var n := |rs| - 1;
      ScheduledAllInv(s, rs[..n], slack);
      ScheduledInv(ScheduledAll(s, rs[..n]), rs[n], slack);
    }
  }

  lemma FiredOneInv(s: Sim, react: Handlers, slack: nat)
    requires Inv(s, slack) && slack <= SYSTEM_TICK && Obedient(react) && FrontDue(s)
    ensures Inv(FiredOne(s, react), slack)
  {
    var p := s.pending[0];
    var r := react(p, |s.fired|);
    var s1 := s.(pending := s.pending[1..], fired := s.fired + [Firing(p, s.total)],
                 yieldOnReturn := s.yieldOnReturn || r.wantsYield);
    assert Line(s1) == Line(s);
    assert forall i :: 0 <= i < |s.fired| ==> OnTime(s.fired[i], s.total);
    assert Inv(s1, slack);
    ScheduledAllInv(s1, r.requests, slack);
  }

  lemma {:induction false} FiredDueInv(s: Sim, react: Handlers, slack: nat)
    requires Inv(s, slack) && slack <= SYSTEM_TICK && Obedient(react)
    ensures Inv(FiredDue(s, react), 0)
    decreases DueCount(s.pending, s.total)
  {
    if FrontDue(s) {
      FewerDue(s, react);
      FiredOneInv(s, react, slack);
      FiredDueInv(FiredOne(s, react), react, slack);
    } else {
      forall i | 0 <= i < |s.pending|
        ensures s.total < s.pending[i].when
      {
        var n := |s.fired|;
        assert i > 0 ==> Before(Line(s)[n], Line(s)[n + i]);
      }
    }
  }

  // The clock advances, the line stays.
  lemma AdvancedInv(s: Sim, t: Sim, slack: nat)
    requires Inv(s, 0) && t.pending == s.pending && t.fired == s.fired && t.made == s.made
    requires s.total <= t.total == t.idle + t.system + t.user
    requires NoneLate(s.pending, t.total, slack)
    ensures Inv(t, slack)
  {
    hide Ordered, Numbered, NoneLate;
    assert Line(t) == Line(s);
    assert forall i :: 0 <= i < |s.fired| ==> OnTime(s.fired[i], s.total);
  }

  lemma JumpedInv(s: Sim)
    requires Inv(s, 0)
    ensures Inv(Jumped(s), 1)
  {
    hide Numbered;
    var t, n := Jumped(s), |s.fired|;
    forall i | 0 <= i < |s.pending|
      ensures t.total < s.pending[i].when + 1
    {
      assert Line(s)[n] == s.pending[0] && Line(s)[n + i] == s.pending[i];
      assert i > 0 ==> Before(Line(s)[n], Line(s)[n + i]);
    }
    AdvancedInv(s, t, 1);
  }

  lemma DoInv(s: Sim, e: Event, react: Handlers)
    requires Inv(s, 0) && Obedient(react)
    requires e.Ask? ==> e.r.fromNow > 0
    ensures Inv(Do(s, e, react), 0)
  {
    hide Ordered, Numbered;
    match e
    case Ask(r) =>
      hide Inv;
      ScheduledInv(s, r, 0);
    case Tick(inUser) =>
      AdvancedInv(s, Ticked(s, inUser), SYSTEM_TICK);
      hide Inv;
      FiredDueInv(Ticked(s, inUser), react, SYSTEM_TICK);
      var u := FiredDue(Ticked(s, inUser), react);
      YieldInv(u);
    case Idle =>
      hide Inv;
      JumpedInv(s);
      FiredDueInv(Jumped(s), react, 1);
  }

  lemma YieldInv(s: Sim)
    requires Inv(s, 0)
    ensures Inv(s.(yieldOnReturn := false), 0)
  {
    assert Line(s.(yieldOnReturn := false)) == Line(s);
  }

  ghost predicate IsRun(states: seq<Sim>, events: seq<Event>, react: Handlers)
    requires Obedient(react)
  {
    && |states| == |events| + 1
    && states[0] == START
    && forall i :: 0 <= i < |events| ==>
         (events[i].Ask? ==> events[i].r.fromNow > 0) && states[i + 1] == Do(states[i], events[i], react)
  }

  lemma {:induction false} RunInv(states: seq<Sim>, events: seq<Event>, react: Handlers, n: nat)
    requires Obedient(react) && IsRun(states, events, react) && n <= |events|
    ensures Inv(states[n], 0)
  {
    if n == 0 {
      StartInv();
    } else {
      RunInv(states, events, react, n - 1);
      DoInv(states[n - 1], events[n - 1], react);
    }
  }

  /** Over any run: interrupts fire in the order of their times, ties in the order they
      were scheduled, none early or a system tick late; what is pending is not due; every
      interrupt ever scheduled is exactly once among those fired and those pending; and
      the clock is the sum of its accounts. */
  lemma FiringOverRuns(states: seq<Sim>, events: seq<Event>, react: Handlers)
    requires Obedient(react) && IsRun(states, events, react)
    ensures var s := states[|events|];
      && s.total == s.idle + s.system + s.user
      && (forall i, j :: 0 <= i < j < |s.fired| ==> Before(s.fired[i].what, s.fired[j].what))
      && (forall i :: 0 <= i < |s.fired| ==> s.fired[i].what.when <= s.fired[i].at < s.fired[i].what.when + SYSTEM_TICK)
      && (forall i :: 0 <= i < |s.pending| ==> s.pending[i].when > s.total)
      && |Line(s)| == s.made && (forall i :: 0 <= i < s.made ==> Line(s)[i].id < s.made)
      && (forall i, j :: 0 <= i < j < s.made ==> Line(s)[i].id != Line(s)[j].id)
  {
    RunInv(states, events, react, |events|);
    var s := states[|events|];
    forall i, j | 0 <= i < j < |s.fired|
      ensures Before(s.fired[i].what, s.fired[j].what)
    {
      assert Before(Line(s)[i], Line(s)[j]);
    }
    assert forall i :: 0 <= i < |s.fired| ==> OnTime(s.fired[i], s.total);
  }

  // ----- every request is honoured, and nothing else happens -----

  // s' comes after s: what had fired has fired, what was in line is in line.
  ghost predicate Extends(s: Sim, s': Sim) {
    && |s.fired| <= |s'.fired| && s'.fired[..|s.fired|] == s.fired
    && forall p :: p in Line(s) ==> p in Line(s')
  }

  lemma SameLine(s: Sim, s': Sim)
    requires s'.pending == s.pending && s'.fired == s.fired
    ensures Line(s') == Line(s) && Extends(s, s')
  {
  }

  lemma ExtendsOn(s: Sim, m: Sim, s': Sim)
    requires Extends(s, m) && Extends(m, s')
    ensures Extends(s, s')
  {
    hide Line;
    assert s'.fired[..|s.fired|] == m.fired[..|s.fired|];
  }

  lemma LineAfterScheduled(s: Sim, r: Request)
    ensures Extends(s, Scheduled(s, r))
    ensures forall p :: p in Line(Scheduled(s, r)) <==>
      p in Line(s) || p == Pending(s.made, s.total + r.fromNow, r.toCall)
  {
    var added := Pending(s.made, s.total + r.fromNow, r.toCall);
    var k := InsertedPlace(s.pending, added, ComparePending);
    hide Inserted;
    SplicedMembers(s.pending, k, added);
    assert Whats(Scheduled(s, r).fired) == Whats(s.fired);
    hide SpliceIn, Whats;
  }

  lemma SplicedMembers(s: seq<Pending>, k: nat, x: Pending)
    requires k <= |s|
    ensures forall p :: p in SpliceIn(s, k, x) <==> p in s || p == x
  {
    var t := SpliceIn(s, k, x);
    assert t[k] == x;
    forall p | p in s
      ensures p in t
    {
      var i :| 0 <= i < |s| && s[i] == p;
      assert t[if i < k then i else i + 1] == p;
    }
  }

  lemma PendingAfter(pending: seq<Pending>, x: Pending)
    ensures |Inserted(pending, x, ComparePending)| == |pending| + 1
    ensures forall p :: p in Inserted(pending, x, ComparePending) <==> p in pending || p == x
  {
    var k := InsertedPlace(pending, x, ComparePending);
    hide Inserted;
    SplicedMembers(pending, k, x);
  }

  // The requests are in line, numbered from base and counted from now.
  ghost predicate InLine(line: seq<Pending>, base: nat, now: int, rs: seq<Request>) {
    forall j :: 0 <= j < |rs| ==> Pending(base + j, now + rs[j].fromNow, rs[j].toCall) in line
  }

  ghost predicate IsOneOf(p: Pending, base: nat, now: int, rs: seq<Request>) {
    exists j :: 0 <= j < |rs| && p == Pending(base + j, now + rs[j].fromNow, rs[j].toCall)
  }

  lemma {:induction false} LineAfterAll(s: Sim, rs: seq<Request>)
    ensures var s' := ScheduledAll(s, rs);
      && s' == s.(pending := s'.pending, made := s.made + |rs|) && Extends(s, s')
      && InLine(Line(s'), s.made, s.total, rs)
      && forall p :: p in Line(s') ==> p in Line(s) || IsOneOf(p, s.made, s.total, rs)
  {
    if rs == [] {
      SameLine(s, s);
    } else {
      var n := |rs| - 1;
      var m := ScheduledAll(s, rs[..n]);
      LineAfterAll(s, rs[..n]);
      LineAfterScheduled(m, rs[n]);
      ExtendsOn(s, m, ScheduledAll(s, rs));
      hide Line, Extends;
      OneMoreRequest(Line(s), Line(m), Line(ScheduledAll(s, rs)), s.made, s.total, rs);
    }
  }

  lemma OneMoreRequest(was: seq<Pending>, mid: seq<Pending>, line: seq<Pending>, base: nat, now: int, rs: seq<Request>)
    requires rs != [] && InLine(mid, base, now, rs[..|rs| - 1])
    requires forall p :: p in mid ==> p in was || IsOneOf(p, base, now, rs[..|rs| - 1])
    requires var n := |rs| - 1;
      forall p :: p in line <==> p in mid || p == Pending(base + n, now + rs[n].fromNow, rs[n].toCall)
    ensures InLine(line, base, now, rs)
    ensures forall p :: p in line ==> p in was || IsOneOf(p, base, now, rs)
  {
    var n := |rs| - 1;
    forall j | 0 <= j < |rs|
      ensures Pending(base + j, now + rs[j].fromNow, rs[j].toCall) in line
    {
      if j < n { assert rs[..n][j] == rs[j]; }
    }
    forall p | IsOneOf(p, base, now, rs[..n])
      ensures IsOneOf(p, base, now, rs)
    {
      var j :| 0 <= j < n && p == Pending(base + j, now + rs[..n][j].fromNow, rs[..n][j].toCall);
      assert rs[..n][j] == rs[j];
    }
  }

  // What the handler asked for when interrupt f fired is in line, counted from then.
  ghost predicate Honoured(s: Sim, react: Handlers, f: nat)
    requires f < |s.fired|
  {
    exists base: nat :: InLine(Line(s), base, s.fired[f].at, react(s.fired[f].what, f).requests)
  }

  ghost predicate AllHonoured(s: Sim, react: Handlers) {
    forall f :: 0 <= f < |s.fired| ==> Honoured(s, react, f)
  }

  // p is what some handler asked for when interrupt f fired.
  ghost predicate FromFiring(p: Pending, s: Sim, react: Handlers, f: nat)
    requires f < |s.fired|
  {
    exists base: nat :: IsOneOf(p, base, s.fired[f].at, react(s.fired[f].what, f).requests)
  }

  // Everything in line was there before, or was asked for in between.
  ghost predicate NothingElse(s: Sim, s': Sim, react: Handlers) {
    forall p :: p in Line(s') ==>
      p in Line(s) || exists f :: |s.fired| <= f < |s'.fired| && FromFiring(p, s', react, f)
  }

  lemma HonouredStays(s: Sim, s': Sim, react: Handlers)
    requires AllHonoured(s, react) && Extends(s, s')
    requires forall f :: |s.fired| <= f < |s'.fired| ==> Honoured(s', react, f)
    ensures AllHonoured(s', react)
  {
    hide Line;
    forall f | 0 <= f < |s.fired|
      ensures Honoured(s', react, f)
    {
      assert s'.fired[..|s.fired|][f] == s'.fired[f] && Honoured(s, react, f);
      var base: nat :| InLine(Line(s), base, s.fired[f].at, react(s.fired[f].what, f).requests);
      assert InLine(Line(s'), base, s'.fired[f].at, react(s'.fired[f].what, f).requests);
    }
  }

  // One firing: the interrupt at the front, now, and what its handler asks for.
  lemma FiredOneAdds(s: Sim, react: Handlers)
    requires s.pending != []
    ensures var s' := FiredOne(s, react);
      && s'.fired == s.fired + [Firing(s.pending[0], s.total)]
      && s' == s.(pending := s'.pending, made := s'.made, fired := s'.fired, yieldOnReturn := s'.yieldOnReturn)
      && (s'.yieldOnReturn <==> s.yieldOnReturn || react(s.pending[0], |s.fired|).wantsYield)
      && Extends(s, s') && Honoured(s', react, |s.fired|) && NothingElse(s, s', react)
  {
    var p, n := s.pending[0], |s.fired|;
    var r := react(p, n);
    var s1 := s.(pending := s.pending[1..], fired := s.fired + [Firing(p, s.total)],
                 yieldOnReturn := s.yieldOnReturn || r.wantsYield);
    var s' := FiredOne(s, react);
    assert Line(s1) == Line(s);
    LineAfterAll(s1, r.requests);
    ExtendsOn(s, s1, s');
    hide Line;
    assert InLine(Line(s'), s.made, s'.fired[n].at, react(s'.fired[n].what, n).requests);
    forall q | q in Line(s') && q !in Line(s)
      ensures FromFiring(q, s', react, n)
    {
      assert IsOneOf(q, s.made, s'.fired[n].at, react(s'.fired[n].what, n).requests);
    }
  }

  lemma NothingElseOn(s: Sim, m: Sim, s': Sim, react: Handlers)
    requires NothingElse(s, m, react) && NothingElse(m, s', react) && Extends(s, m) && Extends(m, s')
    ensures NothingElse(s, s', react)
  {
    hide Line;
    forall p | p in Line(s') && p !in Line(s)
      ensures exists f :: |s.fired| <= f < |s'.fired| && FromFiring(p, s', react, f)
    {
      if p in Line(m) {
        var f :| |s.fired| <= f < |m.fired| && FromFiring(p, m, react, f);
        assert s'.fired[..|m.fired|][f] == s'.fired[f];
        assert FromFiring(p, s', react, f);
      }
    }
  }

  // Some interrupt that fired from number n on asked for a yield.
  ghost predicate YieldWanted(fired: seq<Firing>, react: Handlers, n: nat) {
    exists f :: n <= f < |fired| && react(fired[f].what, f).wantsYield
  }

  lemma {:induction false} FiredDueAdds(s: Sim, react: Handlers)
    requires Obedient(react) && AllHonoured(s, react)
    ensures var s' := FiredDue(s, react);
      Extends(s, s') && AllHonoured(s', react) && NothingElse(s, s', react)
    decreases DueCount(s.pending, s.total)
  {
    if FrontDue(s) {
      FewerDue(s, react);
      FiredOneAdds(s, react);
      var m, s' := FiredOne(s, react), FiredDue(s, react);
      HonouredStays(s, m, react);
      FiredDueAdds(m, react);
      hide Extends, NothingElse, AllHonoured, FiredOne, FiredDue;
      ExtendsOn(s, m, s');
      NothingElseOn(s, m, s', react);
    } else {
      SameLine(s, s);
    }
  }

  // Firing takes no time; who asks for a yield gets it.
  lemma {:induction false} FiredDueSteady(s: Sim, react: Handlers)
    requires Obedient(react)
    ensures var s' := FiredDue(s, react);
      && s'.total == s.total && s'.idle == s.idle && s'.system == s.system && s'.user == s.user
      && |s.fired| <= |s'.fired|
      && (s'.yieldOnReturn <==> s.yieldOnReturn || YieldWanted(s'.fired, react, |s.fired|))
    ensures Extends(s, FiredDue(s, react))
    decreases DueCount(s.pending, s.total)
  {
    if FrontDue(s) {
      FewerDue(s, react);
      FiredOneAdds(s, react);
      var m, s' := FiredOne(s, react), FiredDue(s, react);
      FiredDueSteady(m, react);
      hide Extends, NothingElse, FiredOne, FiredDue;
      ExtendsOn(s, m, s');
      YieldSplits(s, m, s', react);
    } else {
      SameLine(s, s);
    }
  }

  lemma YieldSplits(s: Sim, m: Sim, s': Sim, react: Handlers)
    requires Extends(m, s') && |m.fired| == |s.fired| + 1
    ensures YieldWanted(s'.fired, react, |s.fired|) <==>
      react(m.fired[|s.fired|].what, |s.fired|).wantsYield || YieldWanted(s'.fired, react, |m.fired|)
  {
    hide Line;
    var n := |s.fired|;
    assert s'.fired[..|m.fired|][n] == s'.fired[n];
  }

  // Asked for by the event itself.
  ghost predicate AskedFor(p: Pending, s: Sim, e: Event) {
    e.Ask? && p == Pending(s.made, s.total + e.r.fromNow, e.r.toCall)
  }

  lemma DoAdds(s: Sim, e: Event, react: Handlers)
    requires Obedient(react) && AllHonoured(s, react)
    ensures var s' := Do(s, e, react);
      && Extends(s, s') && AllHonoured(s', react)
      && (e.Ask? ==> Pending(s.made, s.total + e.r.fromNow, e.r.toCall) in Line(s'))
      && forall p :: p in Line(s') ==>
           p in Line(s) || AskedFor(p, s, e) || exists f :: 0 <= f < |s'.fired| && FromFiring(p, s', react, f)
  {
    hide Scheduled, FiredDue;
    var s' := Do(s, e, react);
    match e
    case Ask(r) =>
      LineAfterScheduled(s, r);
      SameFired(s, r);
      hide Line, FromFiring;
      HonouredStays(s, s', react);
    case Tick(inUser) =>
      var m := Ticked(s, inUser);
      SameLine(s, m);
      HonouredStays(s, m, react);
      FiredDueAdds(m, react);
      var f := FiredDue(m, react);
      SameLine(f, s');
      hide Line, AllHonoured, FromFiring;
      ExtendsOn(s, m, f);
      ExtendsOn(s, f, s');
      HonouredStays(f, s', react);
      SameOrigins(f, s', react);
    case Idle =>
      var m := Jumped(s);
      SameLine(s, m);
      HonouredStays(s, m, react);
      FiredDueAdds(m, react);
      hide Line, AllHonoured, FromFiring;
      ExtendsOn(s, m, s');
  }

  lemma SameFired(s: Sim, r: Request)
    ensures Scheduled(s, r).fired == s.fired
  {
  }

  lemma SameOrigins(s: Sim, s': Sim, react: Handlers)
    requires s'.fired == s.fired
    ensures forall p, f :: 0 <= f < |s.fired| && FromFiring(p, s, react, f) ==> FromFiring(p, s', react, f)
  {
  }

  lemma {:induction false} RunAdds(states: seq<Sim>, events: seq<Event>, react: Handlers, n: nat)
    requires Obedient(react) && IsRun(states, events, react) && n <= |events|
    ensures AllHonoured(states[n], react)
    ensures n < |events| ==> Extends(states[n], states[n + 1])
  {
    hide Do, AllHonoured, Extends;
    if n == 0 {
      StartHonoured(react);
    } else {
      RunAdds(states, events, react, n - 1);
      DoAdds(states[n - 1], events[n - 1], react);
    }
    if n < |events| { DoAdds(states[n], events[n], react); }
  }

  lemma StartHonoured(react: Handlers)
    ensures AllHonoured(START, react)
  {
  }

  /** An interrupt asked for fromNow ticks ahead is ever after either pending or fired,
      as one that is to happen at that time and to call that handler. */
  lemma {:induction false} AskedOverRuns(states: seq<Sim>, events: seq<Event>, react: Handlers, i: nat, n: nat)
    requires Obedient(react) && IsRun(states, events, react) && i < n <= |events| && events[i].Ask?
    ensures Pending(states[i].made, states[i].total + events[i].r.fromNow, events[i].r.toCall) in Line(states[n])
  {
    hide Do, AllHonoured, Line;
    RunAdds(states, events, react, n - 1);
    if n == i + 1 {
      DoAdds(states[i], events[i], react);
    } else {
      AskedOverRuns(states, events, react, i, n - 1);
    }
  }

  // p was asked for by an event so far or by the handler of a firing.
  ghost predicate Accounted(p: Pending, states: seq<Sim>, events: seq<Event>, react: Handlers, n: nat)
    requires n <= |events| < |states|
  {
    || (exists i :: 0 <= i < n && AskedFor(p, states[i], events[i]))
    || exists f :: 0 <= f < |states[n].fired| && FromFiring(p, states[n], react, f)
  }

  /** So is everything a handler asked for, counted from the time of its firing; and
      there is nothing in line that was not asked for. */
  lemma {:induction false} HandlersOverRuns(states: seq<Sim>, events: seq<Event>, react: Handlers, n: nat)
    requires Obedient(react) && IsRun(states, events, react) && n <= |events|
    ensures AllHonoured(states[n], react)
    ensures forall p :: p in Line(states[n]) ==> Accounted(p, states, events, react, n)
  {
    hide Do, Line, AllHonoured, FromFiring, AskedFor;
    RunAdds(states, events, react, n);
    if n == 0 {
      NothingAtStart();
    } else {
      var was, s := states[n - 1], states[n];
      HandlersOverRuns(states, events, react, n - 1);
      DoAdds(was, events[n - 1], react);
      forall p: Pending | p in Line(was)
        ensures Accounted(p, states, events, react, n)
      {
        assert Accounted(p, states, events, react, n - 1);
        OriginStays(was, s, react, p);
      }
    }
  }

  lemma NothingAtStart()
    ensures Line(START) == []
  {
  }

  lemma OriginStays(s: Sim, s': Sim, react: Handlers, p: Pending)
    requires Extends(s, s')
    ensures forall f :: 0 <= f < |s.fired| && FromFiring(p, s, react, f) ==> FromFiring(p, s', react, f)
  {
    hide Line, IsOneOf;
    forall f | 0 <= f < |s.fired| && FromFiring(p, s, react, f)
      ensures FromFiring(p, s', react, f)
    {
      assert s'.fired[..|s.fired|][f] == s'.fired[f];
    }
  }

  // The ticks of one kind among the first n events.
  function Ticks(events: seq<Event>, n: nat, inUser: bool): nat
    requires n <= |events|
  {
    if n == 0 then 0 else Ticks(events, n - 1, inUser) + if events[n - 1] == Tick(inUser) then 1 else 0
  }

  /** A tick is charged to the user at 1, or to the system at 10; nothing else is
      charged to either. */
  lemma {:induction false} TicksOverRuns(states: seq<Sim>, events: seq<Event>, react: Handlers, n: nat)
    requires Obedient(react) && IsRun(states, events, react) && n <= |events|
    ensures states[n].user == Ticks(events, n, true) && states[n].system == 10 * Ticks(events, n, false)
  {
    hide FiredDue;
    if n > 0 {
      TicksOverRuns(states, events, react, n - 1);
      var s := states[n - 1];
      match events[n - 1]
      case Ask(_) =>
      case Tick(inUser) => FiredDueSteady(Ticked(s, inUser), react);
      case Idle => FiredDueSteady(Jumped(s), react);
    }
  }

  // ----- the hardware -----

  datatype IntStatus = IntOff | IntOn
  datatype MachineStatus = IdleMode | SystemMode | UserMode

  class Interrupt {
    var level: IntStatus
    var pending: seq<Pending>
    var inHandler: bool
    var yieldOnReturn: bool
    var status: MachineStatus
    var halted: bool
    // kernel->stats
    var totalTicks: int
    var idleTicks: int
    var systemTicks: int
    var userTicks: int
    // the objects made so far, and the record of what has fired
    var made: nat
    var fired: seq<Firing>

    ghost function State(): Sim
      reads this
    {
      Sim(totalTicks, idleTicks, systemTicks, userTicks, pending, made, fired, yieldOnReturn)
    }

    // Outside the routines below.
    ghost predicate Valid()
      reads this
    {
      Inv(State(), 0) && !inHandler
    }

    constructor ()
      ensures Valid() && State() == START && level == IntOff && status == SystemMode && !halted
    {
      hide Inv;
      level, pending, inHandler, yieldOnReturn, status := IntOff, [], false, false, SystemMode;
      totalTicks, idleTicks, systemTicks, userTicks := 0, 0, 0, 0;
      made, fired, halted := 0, [], false;
      new;
      StartInv();
    }

    /** Interrupt::Schedule; its ASSERT is the precondition. */
    method Schedule(toCall: nat, fromNow: int)
      requires fromNow > 0
      modifies `pending, `made
      ensures State() == Scheduled(old(State()), Request(toCall, fromNow))
      ensures made == old(made) + 1 && |pending| == |old(pending)| + 1
      ensures forall p :: p in pending <==> p in old(pending) || p == Pending(old(made), totalTicks + fromNow, toCall)
    {
      hide Inserted, SpliceIn;
      PendingAfter(pending, Pending(made, totalTicks + fromNow, toCall));
      var when := totalTicks + fromNow;
      pending := Inserted(pending, Pending(made, when, toCall), ComparePending);
      made := made + 1;
    }

    // CallBack of the object that asked for the interrupt.
    method CallBack(reaction: Reaction)
      requires inHandler && AllLater(reaction.requests)
      modifies `pending, `made, `yieldOnReturn
      ensures State() == ScheduledAll(
        old(State()).(yieldOnReturn := old(yieldOnReturn) || reaction.wantsYield), reaction.requests)
    {
      if reaction.wantsYield {
        yieldOnReturn := true;
      }
      var rs := reaction.requests;
      for i := 0 to |rs|
        invariant State() == ScheduledAll(
          old(State()).(yieldOnReturn := old(yieldOnReturn) || reaction.wantsYield), rs[..i])
      {
        assert rs[..i + 1][..i] == rs[..i];
        Schedule(rs[i].toCall, rs[i].fromNow);
      }
      assert rs[..|rs|] == rs;
    }

    // pending->RemoveFront() and the call to the handler.
    method FireFront(react: Handlers)
      requires pending != [] && inHandler && Obedient(react)
      modifies `pending, `made, `yieldOnReturn, `fired
      ensures State() == FiredOne(old(State()), react)
    {
      var next, n := pending[0], |fired|;
      pending := pending[1..];
      fired := fired + [Firing(next, totalTicks)];
      CallBack(react(next, n));
    }

    /** Fires everything that is due, including what becomes due when an idle clock
        jumps, although the handlers go on scheduling. */
    method CheckIfDue(advanceClock: bool, react: Handlers) returns (any: bool)
      requires level == IntOff && !inHandler && Obedient(react)
      modifies this
      ensures State() == FiredDue(if advanceClock then Jumped(old(State())) else old(State()), react)
      ensures any <==> old(pending) != [] && (advanceClock || old(FrontDue(State())))
      ensures level == old(level) && status == old(status) && halted == old(halted) && !inHandler
    {
      hide FiredOne, DueCount, Inv;
      if pending == [] {
        return false;
      }
      if pending[0].when > totalTicks {
        if !advanceClock {
          return false;
        } else {
          idleTicks := idleTicks + (pending[0].when - totalTicks);
          totalTicks := pending[0].when;
        }
      }
      ghost var start := State();
      inHandler := true;
      var again := true;
      while again
        invariant inHandler && level == old(level) && status == old(status) && halted == old(halted)
        invariant again <==> FrontDue(State())
        invariant FiredDue(State(), react) == FiredDue(start, react)
        decreases DueCount(pending, totalTicks)
      {
        FewerDue(State(), react);
        FireFront(react);
        again := pending != [] && pending[0].when <= totalTicks;
      }
      inHandler := false;
      return true;
    }

    /** Returns whether a handler asked for the current thread to yield. */
    method OneTick(react: Handlers) returns (mustYield: bool)
      requires Valid() && Obedient(react)
      modifies this
      ensures Valid() && State() == Do(old(State()), Tick(old(status) != SystemMode), react)
      ensures mustYield <==> old(yieldOnReturn) || YieldWanted(fired, react, |old(fired)|)
      ensures !yieldOnReturn && |old(fired)| <= |fired| && idleTicks == old(idleTicks)
      ensures if old(status) == SystemMode
        then totalTicks == old(totalTicks) + 10 && systemTicks == old(systemTicks) + 10 && userTicks == old(userTicks)
        else totalTicks == old(totalTicks) + 1 && systemTicks == old(systemTicks) && userTicks == old(userTicks) + 1
      ensures level == IntOn && status == old(status) && halted == old(halted)
    {
      hide Inv, FiredDue;
      DoInv(State(), Tick(status != SystemMode), react);
      FiredDueSteady(Ticked(State(), status != SystemMode), react);
      if status == SystemMode {
        totalTicks := totalTicks + SYSTEM_TICK;
        systemTicks := systemTicks + SYSTEM_TICK;
      } else {
        totalTicks := totalTicks + USER_TICK;
        userTicks := userTicks + USER_TICK;
      }
      assert State() == Ticked(old(State()), status != SystemMode);
      level := IntOff;
      var _ := CheckIfDue(false, react);
      level := IntOn;
      mustYield := yieldOnReturn;
      if yieldOnReturn {
        yieldOnReturn := false;  // and the current thread mustYield
      }
    }

    /** Time passes exactly when interrupts go from off to on. */
    method SetLevel(now: IntStatus, react: Handlers) returns (before: IntStatus, mustYield: bool)
      requires Valid() && Obedient(react)
      modifies this
      ensures Valid() && before == old(level) && level == now && status == old(status) && halted == old(halted)
      ensures now == IntOn && before == IntOff ==>
        && State() == Do(old(State()), Tick(old(status) != SystemMode), react)
        && totalTicks == old(totalTicks) + (if status == SystemMode then 10 else 1)
        && (mustYield <==> old(yieldOnReturn) || YieldWanted(fired, react, |old(fired)|))
      ensures !(now == IntOn && before == IntOff) ==> State() == old(State()) && !mustYield
    {
      before, mustYield := level, false;
      level := now;
      if now == IntOn && before == IntOff {
        mustYield := OneTick(react);
      }
    }

    /** Runs the clock on to the next interrupt; with none pending the machine halts. */
    method Idle(react: Handlers)
      requires Valid() && level == IntOff && Obedient(react)
      modifies this
      ensures Valid() && level == IntOff
      ensures old(pending) != [] ==>
        State() == Do(old(State()), Event.Idle, react) && status == SystemMode && halted == old(halted)
        && |fired| > |old(fired)|
        && totalTicks == (if old(pending)[0].when > old(totalTicks) then old(pending)[0].when else old(totalTicks))
        && idleTicks == old(idleTicks) + (totalTicks - old(totalTicks))
        && systemTicks == old(systemTicks) && userTicks == old(userTicks)
      ensures old(pending) == [] ==> halted && State() == old(State())
    {
      hide Inv;
      DoInv(State(), Event.Idle, react);
      status := IdleMode;
      if pending != [] {
        FiredGrows(Jumped(State()), react);
        FiredDueSteady(Jumped(State()), react);
      }
      var any := CheckIfDue(true, react);
      if any {
        status := SystemMode;
        return;
      }
      halted := true;
    }
  }
}
