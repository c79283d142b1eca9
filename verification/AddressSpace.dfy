/** Address spaces over a shared physical memory (userprog/addrspace.cc): frames from a
    bitmap, one page table each.  Loading the program's segments is left out. */
module AddressSpaces {
  import opened Options
  import opened FiniteSets
  import opened Sequences
  import opened Bytes
  import opened Bitmaps
  import opened Translations

  // ----- allocation as functions -----

  function FrameSet(fs: seq<nat>): (s: set<int>)
    ensures forall f :: f in s <==> f >= 0 && f in fs
  {
    set i | 0 <= i < |fs| :: fs[i]
  }

  function NewFrames(marked: set<int>, n: nat): (fs: seq<nat>)
    ensures |fs| == n
  {
    if n == 0 then []
    else var fs := NewFrames(marked, n - 1); fs + [LeastFree(marked + FrameSet(fs), 0, NUM_PHYS_PAGES)]
  }

  ghost predicate InRange(marked: set<int>) {
    forall f :: f in marked ==> 0 <= f < NUM_PHYS_PAGES
  }

  lemma SomeFree(marked: set<int>)
    requires InRange(marked) && |marked| < NUM_PHYS_PAGES
    ensures LeastFree(marked, 0, NUM_PHYS_PAGES) < NUM_PHYS_PAGES
  {
    if LeastFree(marked, 0, NUM_PHYS_PAGES) == NUM_PHYS_PAGES {
      assert Upto(NUM_PHYS_PAGES) <= marked;
      SubsetSize(Upto(NUM_PHYS_PAGES), marked);
    }
  }

  lemma FrameSetSnoc(fs: seq<nat>, f: nat)
    ensures FrameSet(fs + [f]) == FrameSet(fs) + {f}
  {
    assert forall g: nat :: g in fs + [f] <==> g in fs || g == f;
  }

  // The frames taken, seen from the bitmap.
  ghost predicate Fresh(marked: set<int>, fs: seq<nat>) {
    && Distinct(fs)
    && (forall i :: 0 <= i < |fs| ==> fs[i] < NUM_PHYS_PAGES && fs[i] !in marked)
  }

  lemma FreshSnoc(marked: set<int>, fs: seq<nat>, f: nat)
    requires Fresh(marked, fs) && f < NUM_PHYS_PAGES && f !in marked + FrameSet(fs)
    ensures Fresh(marked, fs + [f])
  {
  }

  /** When enough frames are free, as many calls of FindAndSet give distinct free frames. */
  lemma {:induction false} NewFramesFree(marked: set<int>, n: nat)
    requires InRange(marked) && |marked| + n <= NUM_PHYS_PAGES
    ensures Fresh(marked, NewFrames(marked, n))
    ensures InRange(marked + FrameSet(NewFrames(marked, n)))
    ensures |marked + FrameSet(NewFrames(marked, n))| == |marked| + n
  {
    hide FrameSet, NewFrames, LeastFree, Fresh, InRange;
    NewFramesUnfolds(marked, n);
    if n == 0 {
      NoFrames(marked);
    } else {
      NewFramesFree(marked, n - 1);
      var fs := NewFrames(marked, n - 1);
      var used := marked + FrameSet(fs);
      SomeFree(used);
      var f := LeastFree(used, 0, NUM_PHYS_PAGES);
      FreshSnoc(marked, fs, f);
      FrameSetSnoc(fs, f);
      assert marked + FrameSet(fs + [f]) == used + {f};
      OneMore(used, f);
    }
  }

  lemma NewFramesUnfolds(marked: set<int>, n: nat)
    ensures n == 0 ==> NewFrames(marked, n) == []
    ensures n > 0 ==> var fs := NewFrames(marked, n - 1);
      NewFrames(marked, n) == fs + [LeastFree(marked + FrameSet(fs), 0, NUM_PHYS_PAGES)]
  {
  }

  lemma NoFrames(marked: set<int>)
    ensures Fresh(marked, []) && marked + FrameSet([]) == marked
  {
  }

  lemma OneMore(used: set<int>, f: nat)
    requires InRange(used) && f < NUM_PHYS_PAGES
    ensures InRange(used + {f})
  {
  }

  function NewEntry(page: nat, frame: nat): Entry
    requires page < 0x8000_0000 && frame < 0x8000_0000
  {
    Entry(page, frame, true, false, false, false)
  }

  function NewTable(fs: seq<nat>): (t: seq<Entry>)
    requires |fs| <= NUM_PHYS_PAGES && forall i :: 0 <= i < |fs| ==> fs[i] < NUM_PHYS_PAGES
    ensures |t| == |fs|
    ensures forall i :: 0 <= i < |t| ==> t[i] == NewEntry(i, fs[i])
  {
    seq(|fs|, i requires 0 <= i < |fs| => NewEntry(i, fs[i]))
  }

  // bzero on each frame.
  function Zeroed(mem: Memory, fs: seq<nat>): (m: Memory)
    ensures forall k :: 0 <= k < MEMORY_SIZE ==> m[k] == if k / PAGE_SIZE in fs then 0 else mem[k]
  {
    seq(MEMORY_SIZE, k requires 0 <= k < MEMORY_SIZE => if k / PAGE_SIZE in fs then 0 else mem[k])
  }

  // ----- the system -----

  type SpaceId = nat

  // gPhysPageBitMap, mainMemory, and the page table of each live AddrSpace.
  datatype World = World(marked: set<int>, mem: Memory, spaces: map<SpaceId, seq<Entry>>)

  function FramesOf(t: seq<Entry>): (s: set<int>)
    ensures forall i :: 0 <= i < |t| ==> t[i].physicalPage in s
    ensures forall f :: f in s ==> exists i :: 0 <= i < |t| && t[i].physicalPage == f
  {
    set i | 0 <= i < |t| :: t[i].physicalPage
  }

  datatype Event =
    | Create(id: SpaceId, pages: nat)
    | Destroy(id: SpaceId)
    | Read(id: SpaceId, addr: Word, size: nat)
    | Write(id: SpaceId, addr: Word, size: nat, value: Word)

  // Creating asserts that the program fits in memory at all.
  predicate Can(w: World, e: Event) {
    match e
    case Create(id, pages) => id !in w.spaces && pages <= NUM_PHYS_PAGES
    case Destroy(id) => id in w.spaces
    case Read(id, _, size) => id in w.spaces && AccessSize(size)
    case Write(id, _, size, _) => id in w.spaces && AccessSize(size)
  }

  function Do(w: World, e: Event): World
    requires Can(w, e)
    requires InRange(w.marked)
  {
    match e
    case Create(id, pages) =>
      if pages > NUM_PHYS_PAGES - |w.marked| then w.(spaces := w.spaces[id := []])  // not enough memory
      else
        var fs := NewFrames(w.marked, pages);
        NewFramesFree(w.marked, pages);
        World(w.marked + FrameSet(fs), Zeroed(w.mem, fs), w.spaces[id := NewTable(fs)])
    case Destroy(id) => w.(marked := w.marked - FramesOf(w.spaces[id]), spaces := w.spaces - {id})
    case Read(id, addr, size) =>
      var r := ReadMem(PageTable(w.spaces[id]), w.mem, addr, size);
      if r.Failed? then w else w.(spaces := w.spaces[id := r.mmu.entries])
    case Write(id, addr, size, value) =>
      var r := WriteMem(PageTable(w.spaces[id]), w.mem, addr, size, value);
      if r.NotStored? then w else w.(mem := r.mem, spaces := w.spaces[id := r.mmu.entries])
  }

  // ----- the invariant -----

  ghost predicate TableOk(t: seq<Entry>) {
    && (forall i :: 0 <= i < |t| ==> t[i].valid && !t[i].readOnly && 0 <= t[i].physicalPage < NUM_PHYS_PAGES)
    && (forall i, j :: 0 <= i < j < |t| ==> t[i].physicalPage != t[j].physicalPage)
  }

  // No frame has two owners, and the bitmap marks exactly the frames that have one.
  ghost predicate Inv(w: World) {
    && InRange(w.marked)
    && (forall a :: a in w.spaces ==> TableOk(w.spaces[a]) && FramesOf(w.spaces[a]) <= w.marked)
    && (forall a, b :: a in w.spaces && b in w.spaces && a != b ==> FramesOf(w.spaces[a]) !! FramesOf(w.spaces[b]))
    && (forall f :: f in w.marked ==> exists a :: a in w.spaces && f in FramesOf(w.spaces[a]))
  }

  lemma NewTableFrames(fs: seq<nat>)
    requires |fs| <= NUM_PHYS_PAGES && Fresh({}, fs)
    ensures TableOk(NewTable(fs)) && FramesOf(NewTable(fs)) == FrameSet(fs)
  {
    var t := NewTable(fs);
    forall f | f in FrameSet(fs)
      ensures f in FramesOf(t)
    {
      var i :| 0 <= i < |fs| && fs[i] == f;
      assert t[i].physicalPage == f;
    }
  }

  // A space comes to own frames that were free.
  lemma AddedInv(w: World, id: SpaceId, t: seq<Entry>, mem: Memory)
    requires Inv(w) && id !in w.spaces && TableOk(t) && FramesOf(t) !! w.marked && InRange(w.marked + FramesOf(t))
    ensures Inv(World(w.marked + FramesOf(t), mem, w.spaces[id := t]))
  {
    hide FramesOf, TableOk;
    var w' := World(w.marked + FramesOf(t), mem, w.spaces[id := t]);
    forall f | f in w'.marked
      ensures exists a :: a in w'.spaces && f in FramesOf(w'.spaces[a])
    {
      if f in FramesOf(t) {
        assert f in FramesOf(w'.spaces[id]);
      } else {
        var a :| a in w.spaces && f in FramesOf(w.spaces[a]);
        assert w'.spaces[a] == w.spaces[a];
      }
    }
  }

  lemma CreateInv(w: World, id: SpaceId, pages: nat)
    requires Inv(w) && Can(w, Create(id, pages))
    ensures Inv(Do(w, Create(id, pages)))
  {
    hide Inv, NewTable, FramesOf, TableOk, NewFrames, Zeroed, FrameSet, Fresh;
    MarkedInRange(w);
    if pages <= NUM_PHYS_PAGES - |w.marked| {
      NewFramesFree(w.marked, pages);
      GivenInv(w, id, NewFrames(w.marked, pages));
    } else {
      NoneGivenInv(w, id);
    }
  }

  lemma GivenInv(w: World, id: SpaceId, fs: seq<nat>)
    requires Inv(w) && id !in w.spaces && |fs| <= NUM_PHYS_PAGES && Fresh(w.marked, fs)
    requires InRange(w.marked + FrameSet(fs))
    ensures Inv(World(w.marked + FrameSet(fs), Zeroed(w.mem, fs), w.spaces[id := NewTable(fs)]))
  {
    hide Inv, NewTable, FramesOf, TableOk, Zeroed;
    NewTableFrames(fs);
    AddedInv(w, id, NewTable(fs), Zeroed(w.mem, fs));
  }

  lemma NoneGivenInv(w: World, id: SpaceId)
    requires Inv(w) && id !in w.spaces
    ensures Inv(w.(spaces := w.spaces[id := []]))
  {
    MarkedInRange(w);
    hide Inv;
    NoFramesOf();
    assert TableOk([]);
    assert w.marked + FramesOf([]) == w.marked;
    AddedInv(w, id, [], w.mem);
  }

  lemma DestroyInv(w: World, id: SpaceId)
    requires Inv(w) && id in w.spaces
    ensures Inv(Do(w, Destroy(id)))
  {
    hide FramesOf, TableOk;
    var w' := Do(w, Destroy(id));
    forall f | f in w'.marked
      ensures exists a :: a in w'.spaces && f in FramesOf(w'.spaces[a])
    {
      var a :| a in w.spaces && f in FramesOf(w.spaces[a]);
      assert a in w'.spaces;
    }
  }

  lemma TouchedTable(t: seq<Entry>, slot: nat, writing: bool)
    requires slot < |t|
    ensures var t' := Touched(PageTable(t), slot, writing).entries;
      FramesOf(t') == FramesOf(t) && (TableOk(t) ==> TableOk(t'))
  {
    var t' := Touched(PageTable(t), slot, writing).entries;
    assert forall i :: 0 <= i < |t| ==> t'[i].physicalPage == t[i].physicalPage;
    forall f | f in FramesOf(t)
      ensures f in FramesOf(t')
    {
      var i :| 0 <= i < |t| && t[i].physicalPage == f;
      assert t'[i].physicalPage == f;
    }
  }

  lemma AccessInv(w: World, id: SpaceId, mem: Memory, slot: nat, writing: bool)
    requires Inv(w) && id in w.spaces && slot < |w.spaces[id]|
    ensures Inv(w.(mem := mem, spaces := w.spaces[id := Touched(PageTable(w.spaces[id]), slot, writing).entries]))
  {
    TouchedTable(w.spaces[id], slot, writing);
    hide FramesOf, TableOk, Touched;
    var w' := w.(mem := mem, spaces := w.spaces[id := Touched(PageTable(w.spaces[id]), slot, writing).entries]);
    forall f | f in w'.marked
      ensures exists a :: a in w'.spaces && f in FramesOf(w'.spaces[a])
    {
      var a :| a in w.spaces && f in FramesOf(w.spaces[a]);
      assert f in FramesOf(w'.spaces[a]);
    }
  }

  lemma DoInv(w: World, e: Event)
    requires Inv(w) && Can(w, e)
    ensures Inv(Do(w, e))
  {
    hide Inv;
    assert InRange(w.marked) by { MarkedInRange(w); }
    match e
    case Create(id, pages) => CreateInv(w, id, pages);
    case Destroy(id) => DestroyInv(w, id);
    case Read(id, addr, size) =>
      hide Translated, FromBytes, Touched;
      var t := Translated(PageTable(w.spaces[id]), addr, size, false);
      if t.Mapped? { AccessInv(w, id, w.mem, t.slot, false); }
    case Write(id, addr, size, value) =>
      hide Translated, ToBytes, Touched;
      var t := Translated(PageTable(w.spaces[id]), addr, size, true);
      if t.Mapped? { AccessInv(w, id, Do(w, e).mem, t.slot, true); }
  }

  lemma MarkedInRange(w: World)
    requires Inv(w)
    ensures InRange(w.marked)
  {
  }

  // Everything free, as the kernel starts.
  function Start(mem: Memory): World { World({}, mem, map[]) }

  lemma StartInv(mem: Memory)
    ensures Inv(Start(mem))
  {
  }

  ghost predicate IsRun(states: seq<World>, events: seq<Event>) {
    && |states| == |events| + 1
    && states[0] == Start(states[0].mem)
    && forall i :: 0 <= i < |events| ==>
         Can(states[i], events[i]) && (InRange(states[i].marked) ==> states[i + 1] == Do(states[i], events[i]))
  }

  /** After any creations, deletions and accesses, no frame belongs to two spaces or
      twice to one, and the bitmap marks exactly the frames owned. */
  lemma {:induction false} RunInv(states: seq<World>, events: seq<Event>, n: nat)
    requires IsRun(states, events) && n <= |events|
    ensures Inv(states[n])
  {
    hide Inv, Do, Can;
    StartInv(states[0].mem);
    if n > 0 {
      RunInv(states, events, n - 1);
      MarkedInRange(states[n - 1]);
      DoInv(states[n - 1], events[n - 1]);
    }
  }

  // ----- what each program sees -----

  // The byte at virtual address x of a space.
  function View(w: World, id: SpaceId, x: Word): Option<Byte>
    requires id in w.spaces
  {
    VirtualByte(PageTable(w.spaces[id]), w.mem, x)
  }

  function PhysAt(t: seq<Entry>, x: Word): int
    requires x / PAGE_SIZE < |t|
  {
    t[x / PAGE_SIZE].physicalPage * PAGE_SIZE + x % PAGE_SIZE
  }

  lemma TableTranslates(t: seq<Entry>, x: Word, size: nat, writing: bool)
    requires TableOk(t) && AccessSize(size)
    ensures Translated(PageTable(t), x, size, writing).Mapped? <==>
      x / PAGE_SIZE < |t| && (size == 4 ==> x % 4 == 0) && (size == 2 ==> x % 2 == 0)
    ensures Translated(PageTable(t), x, size, writing).Mapped? ==>
      Translated(PageTable(t), x, size, writing) == Mapped(x / PAGE_SIZE, PhysAt(t, x))
      && 0 <= PhysAt(t, x) && PhysAt(t, x) + size <= MEMORY_SIZE
  {
    if Translated(PageTable(t), x, size, writing).Mapped? {
      TranslateInMemory(PageTable(t), x, size, writing);
    }
  }

  // Physical places tell the space, the page and the offset.
  lemma PlacesDiffer(w: World, a: SpaceId, b: SpaceId, x: Word, y: Word)
    requires Inv(w) && a in w.spaces && b in w.spaces
    requires x / PAGE_SIZE < |w.spaces[a]| && y / PAGE_SIZE < |w.spaces[b]|
    requires PhysAt(w.spaces[a], x) == PhysAt(w.spaces[b], y)
    ensures a == b && x == y
  {
    var s, t := w.spaces[a], w.spaces[b];
    var f: int, g: int := s[x / PAGE_SIZE].physicalPage, t[y / PAGE_SIZE].physicalPage;
    SameFrame(f, x % PAGE_SIZE, g, y % PAGE_SIZE);
    assert f in FramesOf(s) && g in FramesOf(t);
    assert x == x / PAGE_SIZE * PAGE_SIZE + x % PAGE_SIZE && y == y / PAGE_SIZE * PAGE_SIZE + y % PAGE_SIZE;
  }

  lemma SameFrame(f: int, o: nat, g: int, p: nat)
    requires f * PAGE_SIZE + o == g * PAGE_SIZE + p && o < PAGE_SIZE && p < PAGE_SIZE
    ensures f == g && o == p
  {
  }

  lemma WriteView(w: World, a: SpaceId, addr: Word, size: nat, value: Word, c: SpaceId, x: Word)
    requires Inv(w) && a in w.spaces && c in w.spaces && AccessSize(size)
    requires WriteMem(PageTable(w.spaces[a]), w.mem, addr, size, value).Stored? && InRange(w.marked)
    ensures View(Do(w, Write(a, addr, size, value)), c, x) ==
      if c == a && addr <= x < addr + size then Some(EncodeWord(value)[x - addr]) else View(w, c, x)
  {
    hide EncodeWord, ToBytes, Translated, PhysAt, TableOk, InRange;
    var t, w' := w.spaces[a], Do(w, Write(a, addr, size, value));
    assert TableOk(t) && TableOk(w.spaces[c]);
    TableTranslates(t, addr, size, true);
    TableTranslates(w.spaces[c], x, 1, false);
    TouchedTranslates(PageTable(t), addr / PAGE_SIZE, true, x, 1, false);
    if x / PAGE_SIZE < |w.spaces[c]| {
      var p, q := PhysAt(t, addr), PhysAt(w.spaces[c], x);
      WriteMemAt(PageTable(t), w.mem, addr, size, value, q);
      if p <= q < p + size {
        var y := addr + (q - p);
        SamePlace(t, addr, size, q - p);
        PlacesDiffer(w, a, c, y, x);
      } else if c == a && addr <= x < addr + size {
        SamePlace(t, addr, size, x - addr);
      }
    } else if c == a && addr <= x < addr + size {
      SamePlace(t, addr, size, x - addr);
    }
  }

  lemma SamePlace(t: seq<Entry>, addr: Word, size: nat, i: nat)
    requires AccessSize(size) && i < size && addr / PAGE_SIZE < |t|
    requires (size == 4 ==> addr % 4 == 0) && (size == 2 ==> addr % 2 == 0)
    ensures addr + i < WORD_LIMIT && (addr + i) / PAGE_SIZE < |t| && PhysAt(t, addr + i) == PhysAt(t, addr) + i
  {
    SamePage(addr, size, i);
  }

  // A place outside the frames that were zeroed keeps its byte; one inside reads 0.
  lemma ZeroedAt(mem: Memory, fs: seq<nat>, t: seq<Entry>, x: Word)
    requires TableOk(t) && x / PAGE_SIZE < |t|
    ensures 0 <= PhysAt(t, x) < MEMORY_SIZE
    ensures Zeroed(mem, fs)[PhysAt(t, x)] ==
      if t[x / PAGE_SIZE].physicalPage in FrameSet(fs) then 0 else mem[PhysAt(t, x)]
  {
    var f: int := t[x / PAGE_SIZE].physicalPage;
    Quotient(PhysAt(t, x), f, x % PAGE_SIZE);
  }

  lemma CreateView(w: World, id: SpaceId, pages: nat, c: SpaceId, x: Word)
    requires Inv(w) && Can(w, Create(id, pages)) && InRange(w.marked) && (c == id || c in w.spaces)
    ensures var w' := Do(w, Create(id, pages));
      View(w', c, x) ==
        if c != id then View(w, c, x)
        else if pages <= NUM_PHYS_PAGES - |w.marked| && x < pages * PAGE_SIZE then Some(0) else None
  {
    hide NewTable, NewFrames, Zeroed, Translated, PhysAt, InRange, FrameSet, FramesOf;
    var w' := Do(w, Create(id, pages));
    CreateInv(w, id, pages);
    assert TableOk(w'.spaces[c]) && (c != id ==> TableOk(w.spaces[c]));
    TableTranslates(w'.spaces[c], x, 1, false);
    if pages <= NUM_PHYS_PAGES - |w.marked| {
      var fs := NewFrames(w.marked, pages);
      NewFramesFree(w.marked, pages);
      NewTableFrames(fs);
      if x / PAGE_SIZE < |w'.spaces[c]| {
        ZeroedAt(w.mem, fs, w'.spaces[c], x);
        assert w'.spaces[c][x / PAGE_SIZE].physicalPage in FramesOf(w'.spaces[c]);
      }
      assert x / PAGE_SIZE < pages <==> x < pages * PAGE_SIZE;
    }
  }

  // What happens to the byte at x in space c, event by event.
  function Expected(w: World, e: Event, c: SpaceId, x: Word): Option<Byte>
    requires Can(w, e) && (c in w.spaces || (e.Create? && e.id == c)) && e != Destroy(c)
  {
    match e
    case Create(id, pages) =>
      if c != id then View(w, c, x)
      else if pages <= NUM_PHYS_PAGES - |w.marked| && x < pages * PAGE_SIZE then Some(0) else None
    case Destroy(_) => View(w, c, x)
    case Read(_, _, _) => View(w, c, x)
    case Write(id, addr, size, value) =>
      if c == id && WriteMem(PageTable(w.spaces[id]), w.mem, addr, size, value).Stored? && addr <= x < addr + size
      then Some(EncodeWord(value)[x - addr]) else View(w, c, x)
  }

  /** Each space is a private, initially zero memory: only its own writes change what it
      reads, and they change just the bytes written. */
  lemma EventView(w: World, e: Event, c: SpaceId, x: Word)
    requires Inv(w) && Can(w, e) && InRange(w.marked)
    requires (c in w.spaces || (e.Create? && e.id == c)) && e != Destroy(c)
    ensures View(Do(w, e), c, x) == Expected(w, e, c, x)
  {
    hide Inv, InRange, Translated, EncodeWord, FromBytes, ToBytes, NewFrames, NewTable, Zeroed, FramesOf;
    match e
    case Create(id, pages) => CreateView(w, id, pages, c, x);
    case Destroy(id) =>
    case Read(id, addr, size) =>
      var t := Translated(PageTable(w.spaces[id]), addr, size, false);
      if t.Mapped? { TouchedTranslates(PageTable(w.spaces[id]), t.slot, false, x, 1, false); }
    case Write(id, addr, size, value) =>
      if WriteMem(PageTable(w.spaces[id]), w.mem, addr, size, value).Stored? {
        WriteView(w, id, addr, size, value, c, x);
      }
  }

  /** A write under one page table never changes a read under another. */
  lemma Isolation(w: World, a: SpaceId, addr: Word, size: nat, value: Word, b: SpaceId, from: Word, width: nat)
    requires Inv(w) && a in w.spaces && b in w.spaces && a != b && AccessSize(size) && AccessSize(width) && InRange(w.marked)
    ensures var w' := Do(w, Write(a, addr, size, value));
      ReadMem(PageTable(w'.spaces[b]), w'.mem, from, width) == ReadMem(PageTable(w.spaces[b]), w.mem, from, width)
  {
    hide Inv, EncodeWord, FromBytes, ToBytes, Translated, TableOk, InRange, WriteMem;
    var t, w' := PageTable(w.spaces[b]), Do(w, Write(a, addr, size, value));
    var r := Translated(t, from, width, false);
    if r.Mapped? {
      TranslateInMemory(t, from, width, false);
      forall k | r.phys <= k < r.phys + width
        ensures w'.mem[k] == w.mem[k]
      {
        TranslateBytes(t, from, width, false, k - r.phys);
        EventView(w, Write(a, addr, size, value), b, from + (k - r.phys));
      }
      assert w'.mem[r.phys..r.phys + width] == w.mem[r.phys..r.phys + width];
    }
  }

  // Frames owned by some space.
  function Owned(w: World): set<int> {
    set a, f | a in w.spaces && f in FramesOf(w.spaces[a]) :: f
  }

  /** Free frames and owned frames make up all of physical memory. */
  lemma NoLeak(w: World)
    requires Inv(w)
    ensures Owned(w) == w.marked && (NUM_PHYS_PAGES - |w.marked|) + |Owned(w)| == NUM_PHYS_PAGES
    ensures |w.marked| <= NUM_PHYS_PAGES
  {
    OwnedIsMarked(w);
    SubsetSize(w.marked, Upto(NUM_PHYS_PAGES)) by { MarkedInRange(w); }
    hide Inv, Owned;
  }

  lemma OwnedIsMarked(w: World)
    requires Inv(w)
    ensures Owned(w) == w.marked
  {
    hide FramesOf, TableOk, InRange;
    forall f | f in w.marked
      ensures f in Owned(w)
    {
      var a :| a in w.spaces && f in FramesOf(w.spaces[a]);
    }
  }

  // ----- AddrSpace -----

  // FindAndSet gives the frame LeastFree names.
  lemma FoundLeast(marked: set<int>, f: int)
    requires 0 <= f < NUM_PHYS_PAGES && f !in marked && forall j :: 0 <= j < f ==> j in marked
    ensures LeastFree(marked, 0, NUM_PHYS_PAGES) == f
  {
  }

  lemma ZeroedSnoc(mem: Memory, fs: seq<nat>, f: nat, mem': Memory)
    requires f < NUM_PHYS_PAGES
    requires forall k :: 0 <= k < MEMORY_SIZE ==>
      mem'[k] == if f * PAGE_SIZE <= k < f * PAGE_SIZE + PAGE_SIZE then 0 else Zeroed(mem, fs)[k]
    ensures mem' == Zeroed(mem, fs + [f])
  {
    forall k | 0 <= k < MEMORY_SIZE
      ensures mem'[k] == Zeroed(mem, fs + [f])[k]
    {
      assert k / PAGE_SIZE == f <==> f * PAGE_SIZE <= k < f * PAGE_SIZE + PAGE_SIZE;
      assert k / PAGE_SIZE in fs + [f] <==> k / PAGE_SIZE in fs || k / PAGE_SIZE == f;
    }
  }

  method ZeroFrame(frame: nat, mainMemory: array<Byte>)
    requires frame < NUM_PHYS_PAGES && mainMemory.Length == MEMORY_SIZE
    modifies mainMemory
    ensures forall k :: 0 <= k < MEMORY_SIZE ==>
      mainMemory[k] == if frame * PAGE_SIZE <= k < frame * PAGE_SIZE + PAGE_SIZE then 0 else old(mainMemory[k])
  {
    forall k | frame * PAGE_SIZE <= k < frame * PAGE_SIZE + PAGE_SIZE {
      mainMemory[k] := 0;
    }
  }

  // One turn of the constructor's loop.
  method TakeFrame(frames: Bitmap, mainMemory: array<Byte>) returns (frame: nat)
    requires frames.Valid() && frames.numBits == NUM_PHYS_PAGES && mainMemory.Length == MEMORY_SIZE
    requires InRange(frames.Marked()) && |frames.Marked()| < NUM_PHYS_PAGES
    modifies frames.map_, mainMemory
    ensures frames.Valid() && frame == LeastFree(old(frames.Marked()), 0, NUM_PHYS_PAGES) < NUM_PHYS_PAGES
    ensures frames.Marked() == old(frames.Marked()) + {frame}
    ensures forall k :: 0 <= k < MEMORY_SIZE ==>
      mainMemory[k] == if frame * PAGE_SIZE <= k < frame * PAGE_SIZE + PAGE_SIZE then 0 else old(mainMemory[k])
  {
    hide MarkedIn, LeastFree;
    NotFull(frames.Marked());
    var found := frames.FindAndSet();
    FoundLeast(old(frames.Marked()), found);
    frame := found;
    ZeroFrame(frame, mainMemory);
  }

  // The effect of taking the frames fs.
  ghost predicate TakenWith(marked: set<int>, mem: Memory, fs: seq<nat>, marked': set<int>, mem': seq<Byte>,
          table: seq<Entry>) {
    && Fresh(marked, fs) && |fs| <= NUM_PHYS_PAGES
    && marked' == marked + FrameSet(fs)
    && mem' == Zeroed(mem, fs)
    && (FreshInRange(marked, fs); table == NewTable(fs))
  }

  ghost predicate Taken(marked: set<int>, mem: Memory, i: nat, marked': set<int>, mem': seq<Byte>, table: seq<Entry>) {
    TakenWith(marked, mem, NewFrames(marked, i), marked', mem', table)
  }

  lemma TakenNone(marked: set<int>, mem: Memory)
    ensures Taken(marked, mem, 0, marked, mem, [])
  {
    NewFramesUnfolds(marked, 0);
    NoFrames(marked);
    NothingZeroed(mem);
  }

  lemma TakenWithMore(marked: set<int>, mem: Memory, fs: seq<nat>, marked': set<int>, mem': Memory, table: seq<Entry>,
                      f: nat, mem'': Memory)
    requires TakenWith(marked, mem, fs, marked', mem', table) && Fresh(marked, fs + [f])
    requires |fs| < NUM_PHYS_PAGES && f < NUM_PHYS_PAGES
    requires forall k :: 0 <= k < MEMORY_SIZE ==>
      mem''[k] == if f * PAGE_SIZE <= k < f * PAGE_SIZE + PAGE_SIZE then 0 else mem'[k]
    ensures TakenWith(marked, mem, fs + [f], marked' + {f as int}, mem'', table + [NewEntry(|fs|, f)])
  {
    hide FrameSet, Zeroed, Fresh, NewTable, NewEntry;
    ZeroedSnoc(mem, fs, f, mem'');
    FrameSetSnoc(fs, f);
    FreshInRange(marked, fs);
    FreshInRange(marked, fs + [f]);
    NewTableSnoc(fs, f);
  }

  lemma TakenMore(marked: set<int>, mem: Memory, i: nat, marked': set<int>, mem': Memory, table: seq<Entry>,
                  f: nat, mem'': Memory)
    requires Taken(marked, mem, i, marked', mem', table) && InRange(marked) && |marked| + i < NUM_PHYS_PAGES
    requires f == LeastFree(marked', 0, NUM_PHYS_PAGES) < NUM_PHYS_PAGES
    requires forall k :: 0 <= k < MEMORY_SIZE ==>
      mem''[k] == if f * PAGE_SIZE <= k < f * PAGE_SIZE + PAGE_SIZE then 0 else mem'[k]
    ensures Taken(marked, mem, i + 1, marked' + {f as int}, mem'', table + [NewEntry(i, f)])
  {
    TakenFrames(marked, mem, i, marked', mem', table);
    hide TakenWith, FrameSet, NewFrames, LeastFree, Fresh, InRange, NewEntry;
    NewFramesFree(marked, i + 1);
    NewFramesUnfolds(marked, i + 1);
    TakenWithMore(marked, mem, NewFrames(marked, i), marked', mem', table, f, mem'');
  }

  lemma TakenFrames(marked: set<int>, mem: Memory, i: nat, marked': set<int>, mem': seq<Byte>, table: seq<Entry>)
    requires Taken(marked, mem, i, marked', mem', table)
    ensures marked' == marked + FrameSet(NewFrames(marked, i))
  {
    hide Fresh, FrameSet, NewFrames, Zeroed, NewTable;
  }

  lemma NewTableSnoc(fs: seq<nat>, f: nat)
    requires |fs| < NUM_PHYS_PAGES && f < NUM_PHYS_PAGES && forall i :: 0 <= i < |fs| ==> fs[i] < NUM_PHYS_PAGES
    ensures NewTable(fs + [f]) == NewTable(fs) + [NewEntry(|fs|, f)]
  {
  }

  // The allocation loop of the constructor.
  method TakeFrames(pages: nat, frames: Bitmap, mainMemory: array<Byte>) returns (table: seq<Entry>)
    requires frames.Valid() && frames.numBits == NUM_PHYS_PAGES && mainMemory.Length == MEMORY_SIZE
    requires InRange(frames.Marked()) && |frames.Marked()| + pages <= NUM_PHYS_PAGES
    modifies frames.map_, mainMemory
    ensures frames.Valid()
    ensures Taken(old(frames.Marked()), old(mainMemory[..]), pages, frames.Marked(), mainMemory[..], table)
  {
    hide MarkedIn, LeastFree, InRange, Taken;
    ghost var marked, mem := frames.Marked(), mainMemory[..];
    table := [];
    TakenNone(marked, mem);
    var i := 0;
    while i < pages
      invariant 0 <= i <= pages && frames.Valid()
      invariant Taken(marked, mem, i, frames.Marked(), mainMemory[..], table)
    {
      ghost var marked', mem' := frames.Marked(), mainMemory[..];
      TakenSoFar(marked, mem, i, marked', mem', table);
      var frame := TakeFrame(frames, mainMemory);
      TakenMore(marked, mem, i, marked', mem', table, frame, mainMemory[..]);
      table := table + [NewEntry(i, frame)];
      i := i + 1;
    }
  }

  lemma TakenSoFar(marked: set<int>, mem: Memory, i: nat, marked': set<int>, mem': seq<Byte>, table: seq<Entry>)
    requires Taken(marked, mem, i, marked', mem', table) && InRange(marked) && |marked| + i <= NUM_PHYS_PAGES
    ensures InRange(marked') && |marked'| == |marked| + i
  {
    NewFramesFree(marked, i);
    hide NewFrames, FrameSet, Fresh, InRange, Zeroed, NewTable;
  }

  lemma NothingZeroed(mem: Memory)
    ensures Zeroed(mem, []) == mem
  {
  }

  lemma NotFull(marked: set<int>)
    requires |marked| < NUM_PHYS_PAGES
    ensures marked != Upto(NUM_PHYS_PAGES)
  {
  }

  lemma FreshInRange(marked: set<int>, fs: seq<nat>)
    requires Fresh(marked, fs)
    ensures forall i :: 0 <= i < |fs| ==> fs[i] < NUM_PHYS_PAGES
  {
  }

  lemma TakenAll(marked: set<int>, mem: Memory, pages: nat, marked': set<int>, mem': Memory, table: seq<Entry>)
    requires Taken(marked, mem, pages, marked', mem', table) && InRange(marked) && |marked| + pages <= NUM_PHYS_PAGES
    ensures |table| == pages
    ensures Do(World(marked, mem, map[]), Create(0, pages)) == World(marked', mem', map[0 := table])
  {
    hide NewFrames, Zeroed, Fresh, FrameSet;
  }

  class AddrSpace {
    var pageTable: seq<Entry>
    var numPages: nat

    /** Takes the frames for a program of `size` bytes, stack included, or none at all
        when there are not enough. */
    constructor (size: nat, frames: Bitmap, mainMemory: array<Byte>)
      requires frames.Valid() && frames.numBits == NUM_PHYS_PAGES && mainMemory.Length == MEMORY_SIZE
      requires size <= MEMORY_SIZE  // ASSERT(numPages <= NumPhysPages)
      modifies frames.map_, mainMemory
      ensures frames.Valid() && numPages == |pageTable|
      ensures var pages := (size + PAGE_SIZE - 1) / PAGE_SIZE;
        var w := World(old(frames.Marked()), old(mainMemory[..]), map[]);
        InRange(w.marked) && pages <= NUM_PHYS_PAGES
        && World(frames.Marked(), mainMemory[..], map[0 := pageTable]) == Do(w, Create(0, pages))
    {
      hide NewFrames, Zeroed, Fresh, NewTable, FrameSet, MarkedIn, Taken;
      var pages := size / PAGE_SIZE + (if size % PAGE_SIZE > 0 then 1 else 0);
      numPages := pages;
      pageTable := [];
      new;
      var free := frames.NumClear();
      if numPages > free {
        numPages := 0;
      } else {
        ghost var marked, mem := frames.Marked(), mainMemory[..];
        pageTable := TakeFrames(pages, frames, mainMemory);
        TakenAll(marked, mem, pages, frames.Marked(), mainMemory[..], pageTable);
      }
    }

    /** Gives every frame back. */
    method Delete(frames: Bitmap)
      requires frames.Valid() && frames.numBits == NUM_PHYS_PAGES && numPages == |pageTable| && TableOk(pageTable)
      modifies frames.map_
      ensures frames.Valid() && frames.Marked() == old(frames.Marked()) - FramesOf(pageTable)
    {
      hide FramesOf;
      var i := 0;
      NoFramesOf();
      assert pageTable[..0] == [];
      while i < numPages
        invariant 0 <= i <= numPages && frames.Valid()
        invariant frames.Marked() == old(frames.Marked()) - FramesOf(pageTable[..i])
      {
        frames.Clear(pageTable[i].physicalPage);
        FramesOfSnoc(pageTable[..i], pageTable[i]);
        assert pageTable[..i + 1] == pageTable[..i] + [pageTable[i]];
        i := i + 1;
      }
      assert pageTable[..numPages] == pageTable;
    }
  }

  lemma NoFramesOf()
    ensures FramesOf([]) == {}
  {
  }

  lemma FramesOfSnoc(t: seq<Entry>, e: Entry)
    ensures FramesOf(t + [e]) == FramesOf(t) + {e.physicalPage as int}
  {
    var u := t + [e];
    forall f | f in FramesOf(t) + {e.physicalPage as int}
      ensures f in FramesOf(u)
    {
      if f in FramesOf(t) {
        var i :| 0 <= i < |t| && t[i].physicalPage == f;
        assert u[i].physicalPage == f;
      } else {
        assert u[|t|].physicalPage == f;
      }
    }
  }
}
