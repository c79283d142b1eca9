/** Address translation and memory access (machine/translate.cc). */
module Translations {
  import opened Options
  import opened Bytes

  const PAGE_SIZE := 128
  const NUM_PHYS_PAGES := 128
  const MEMORY_SIZE := 16384  // NUM_PHYS_PAGES pages

  // TranslationEntry; valid entries only ever name pages as non-negative numbers, but
  // nothing in the hardware relies on that.
  datatype Entry = Entry(virtualPage: Int32, physicalPage: Int32, valid: bool, readOnly: bool, use: bool, dirty: bool)

  // The machine has a linear page table or a TLB, not both.
  datatype Mmu = PageTable(entries: seq<Entry>) | Tlb(entries: seq<Entry>)

  datatype Exception = AddressErrorException | PageFaultException | ReadOnlyException | BusErrorException

  datatype Translation = Mapped(slot: nat, phys: nat) | Fault(e: Exception)

  predicate AccessSize(size: nat) { size == 1 || size == 2 || size == 4 }

  // The first valid TLB entry for a virtual page.
  function FindTlb(entries: seq<Entry>, vpn: nat, from: nat): (r: Option<nat>)
    requires from <= |entries|
    ensures r.Some? ==> from <= r.value < |entries|
    decreases |entries| - from
  {
    if from == |entries| then None
    else if entries[from].valid && entries[from].virtualPage == vpn then Some(from)
    else FindTlb(entries, vpn, from + 1)
  }

  function Translated(mmu: Mmu, addr: Word, size: nat, writing: bool): (t: Translation)
    ensures t.Mapped? ==> t.slot < |mmu.entries|
  {
    if (size == 4 && addr % 4 != 0) || (size == 2 && addr % 2 != 0) then Fault(AddressErrorException)
    else
      var vpn := addr / PAGE_SIZE;
      if mmu.PageTable? && vpn >= |mmu.entries| then Fault(AddressErrorException)
      else
        var slot := if mmu.PageTable? then (if mmu.entries[vpn].valid then Some(vpn) else None)
                    else FindTlb(mmu.entries, vpn, 0);
        if slot.None? then Fault(PageFaultException)
        else if mmu.entries[slot.value].readOnly && writing then Fault(ReadOnlyException)
        else if ToWord(mmu.entries[slot.value].physicalPage) >= NUM_PHYS_PAGES then Fault(BusErrorException)
        else Mapped(slot.value, mmu.entries[slot.value].physicalPage * PAGE_SIZE + addr % PAGE_SIZE)
  }

  // The entry that maps a virtual page: its own in a page table, the first valid one
  // that carries its number in a TLB.
  ghost predicate Maps(mmu: Mmu, slot: nat, vpn: nat) {
    && slot < |mmu.entries| && mmu.entries[slot].valid
    && (mmu.PageTable? ==> slot == vpn)
    && (mmu.Tlb? ==> mmu.entries[slot].virtualPage == vpn)
    && (mmu.Tlb? ==> forall j :: 0 <= j < slot && mmu.entries[j].valid ==> mmu.entries[j].virtualPage != vpn)
  }

  lemma {:induction false} FindTlbFirst(entries: seq<Entry>, vpn: nat, from: nat)
    requires from <= |entries|
    requires forall j :: 0 <= j < from && entries[j].valid ==> entries[j].virtualPage != vpn
    ensures var r := FindTlb(entries, vpn, from);
      if r.Some? then Maps(Tlb(entries), r.value, vpn)
      else forall j :: 0 <= j < |entries| && entries[j].valid ==> entries[j].virtualPage != vpn
    decreases |entries| - from
  {
    if from < |entries| && !(entries[from].valid && entries[from].virtualPage == vpn) {
      FindTlbFirst(entries, vpn, from + 1);
    }
  }

  predicate Misaligned(addr: Word, size: nat) {
    (size == 4 && addr % 4 != 0) || (size == 2 && addr % 2 != 0)
  }

  predicate PastTable(mmu: Mmu, vpn: nat) { mmu.PageTable? && vpn >= |mmu.entries| }

  predicate Refused(e: Entry, writing: bool) { writing && e.readOnly }

  predicate InMemory(e: Entry) { 0 <= e.physicalPage < NUM_PHYS_PAGES }

  // At most one entry maps a page.
  lemma MapsOnce(mmu: Mmu, a: nat, b: nat, vpn: nat)
    requires Maps(mmu, a, vpn) && Maps(mmu, b, vpn)
    ensures a == b
  {
  }

  // The code's search finds the entry that maps the page.
  lemma FoundMaps(mmu: Mmu, vpn: nat, found: Option<nat>)
    requires !PastTable(mmu, vpn)
    requires found == if mmu.PageTable? then (if mmu.entries[vpn].valid then Some(vpn) else None)
                      else FindTlb(mmu.entries, vpn, 0)
    ensures forall slot: nat :: Maps(mmu, slot, vpn) <==> found == Some(slot)
  {
    FindTlbFirst(mmu.entries, vpn, 0);
    hide FindTlb;
    forall slot: nat
      ensures Maps(mmu, slot, vpn) <==> found == Some(slot)
    {
      if Maps(mmu, slot, vpn) && found.Some? { MapsOnce(mmu, slot, found.value, vpn); }
    }
  }

  /** Exactly when a translation succeeds, through which entry and to where, and exactly
      what each exception means. */
  lemma TranslateMeans(mmu: Mmu, addr: Word, size: nat, writing: bool)
    ensures var t, vpn := Translated(mmu, addr, size, writing), addr / PAGE_SIZE;
      && (t == Fault(AddressErrorException) <==> Misaligned(addr, size) || PastTable(mmu, vpn))
      && (t == Fault(PageFaultException) <==>
          !Misaligned(addr, size) && !PastTable(mmu, vpn) && forall slot: nat :: !Maps(mmu, slot, vpn))
      && (t == Fault(ReadOnlyException) <==>
          !Misaligned(addr, size) && exists slot: nat :: Maps(mmu, slot, vpn) && Refused(mmu.entries[slot], writing))
      && (t == Fault(BusErrorException) <==>
          !Misaligned(addr, size) && exists slot: nat ::
            Maps(mmu, slot, vpn) && !Refused(mmu.entries[slot], writing) && !InMemory(mmu.entries[slot]))
      && forall slot: nat, phys: nat :: t == Mapped(slot, phys) <==>
          !Misaligned(addr, size) && Maps(mmu, slot, vpn)
          && !Refused(mmu.entries[slot], writing) && InMemory(mmu.entries[slot])
          && phys == PAGE_SIZE * mmu.entries[slot].physicalPage + addr % PAGE_SIZE
  {
    var vpn := addr / PAGE_SIZE;
    if !Misaligned(addr, size) && !PastTable(mmu, vpn) {
      var found := if mmu.PageTable? then (if mmu.entries[vpn].valid then Some(vpn) else None)
                   else FindTlb(mmu.entries, vpn, 0);
      FoundMaps(mmu, vpn, found);
      hide FindTlb, Maps;
      if found.Some? { assert Maps(mmu, found.value, vpn); }
    }
  }

  // The use and dirty bits.
  function Touched(mmu: Mmu, slot: nat, writing: bool): Mmu
    requires slot < |mmu.entries|
  {
    var e := mmu.entries[slot];
    mmu.(entries := mmu.entries[slot := e.(use := true, dirty := e.dirty || writing)])
  }

  lemma TouchedBits(mmu: Mmu, slot: nat, writing: bool, i: nat)
    requires slot < |mmu.entries| && i < |mmu.entries|
    ensures var was, now := mmu.entries[i], Touched(mmu, slot, writing).entries[i];
      && |Touched(mmu, slot, writing).entries| == |mmu.entries|
      && now == was.(use := was.use || i == slot, dirty := was.dirty || (i == slot && writing))
  {
  }

  datatype Touch = Touch(slot: nat, writing: bool)

  // After a number of successful translations.
  function TouchedBy(mmu: Mmu, touches: seq<Touch>): (r: Mmu)
    requires forall k :: 0 <= k < |touches| ==> touches[k].slot < |mmu.entries|
    ensures |r.entries| == |mmu.entries|
  {
    if touches == [] then mmu
    else
      var n := |touches| - 1;
      Touched(TouchedBy(mmu, touches[..n]), touches[n].slot, touches[n].writing)
  }

  /** After any accesses an entry is marked as used if and only if it was or some access
      went through it, and as dirty if and only if it was or some write did; nothing else
      in it has changed. */
  lemma {:induction false} BitsOverRuns(mmu: Mmu, touches: seq<Touch>, i: nat)
    requires forall k :: 0 <= k < |touches| ==> touches[k].slot < |mmu.entries|
    requires i < |mmu.entries|
    ensures var was, now := mmu.entries[i], TouchedBy(mmu, touches).entries[i];
      && (now.use <==> was.use || exists k :: 0 <= k < |touches| && touches[k].slot == i)
      && (now.dirty <==> was.dirty || exists k :: 0 <= k < |touches| && touches[k] == Touch(i, true))
      && now == was.(use := now.use, dirty := now.dirty)
  {
    if touches != [] {
      var n := |touches| - 1;
      BitsOverRuns(mmu, touches[..n], i);
      TouchedBits(TouchedBy(mmu, touches[..n]), touches[n].slot, touches[n].writing, i);
      hide Touched;
      assert forall k :: 0 <= k < n ==> touches[..n][k] == touches[k];
      assert touches[n] == Touch(touches[n].slot, touches[n].writing);
    }
  }

  lemma {:induction false} FindTlbTouched(mmu: Mmu, slot: nat, writing: bool, vpn: nat, from: nat)
    requires slot < |mmu.entries| && from <= |mmu.entries|
    ensures FindTlb(Touched(mmu, slot, writing).entries, vpn, from) == FindTlb(mmu.entries, vpn, from)
    decreases |mmu.entries| - from
  {
    if from < |mmu.entries| {
      FindTlbTouched(mmu, slot, writing, vpn, from + 1);
    }
  }

  // The bits play no part in translation.
  lemma TouchedTranslates(mmu: Mmu, slot: nat, touched: bool, addr: Word, size: nat, writing: bool)
    requires slot < |mmu.entries|
    ensures Translated(Touched(mmu, slot, touched), addr, size, writing) == Translated(mmu, addr, size, writing)
  {
    if mmu.Tlb? {
      FindTlbTouched(mmu, slot, touched, addr / PAGE_SIZE, 0);
    }
  }

  // Aligned accesses stay inside a page.
  lemma SamePage(addr: nat, size: nat, i: nat)
    requires addr < WORD_LIMIT && AccessSize(size) && i < size
    requires (size == 4 ==> addr % 4 == 0) && (size == 2 ==> addr % 2 == 0)
    ensures addr % PAGE_SIZE + size <= PAGE_SIZE
    ensures addr + i < WORD_LIMIT
    ensures (addr + i) / PAGE_SIZE == addr / PAGE_SIZE && (addr + i) % PAGE_SIZE == addr % PAGE_SIZE + i
  {
    var p, o := addr / PAGE_SIZE, addr % PAGE_SIZE;
    assert addr == p * PAGE_SIZE + o;
    if size == 4 {
      assert o == 4 * (addr / 4 - 32 * p);
    } else if size == 2 {
      assert o == 2 * (addr / 2 - 64 * p);
    }
    Quotient(addr + i, p, o + i);
  }

  lemma Quotient(a: nat, p: nat, o: nat)
    requires a == p * PAGE_SIZE + o && o < PAGE_SIZE
    ensures a / PAGE_SIZE == p && a % PAGE_SIZE == o
  {
  }

  /** Translate's final ASSERT never fails, whatever is in the page table or the TLB. */
  lemma TranslateInMemory(mmu: Mmu, addr: Word, size: nat, writing: bool)
    requires AccessSize(size) && Translated(mmu, addr, size, writing).Mapped?
    ensures Translated(mmu, addr, size, writing).phys + size <= MEMORY_SIZE
    ensures Translated(mmu, addr, size, writing).phys % PAGE_SIZE == addr % PAGE_SIZE
  {
    SamePage(addr, size, 0);
    hide FindTlb;
    var t := Translated(mmu, addr, size, writing);
    var frame: int := mmu.entries[t.slot].physicalPage;
    assert 0 <= frame < NUM_PHYS_PAGES;
    Quotient(t.phys, frame, addr % PAGE_SIZE);
  }

  // An access never crosses a page: its bytes translate one by one.
  lemma TranslateBytes(mmu: Mmu, addr: Word, size: nat, writing: bool, i: nat)
    requires AccessSize(size) && i < size && Translated(mmu, addr, size, writing).Mapped?
    ensures addr + i < WORD_LIMIT
    ensures var t := Translated(mmu, addr, size, writing);
      Translated(mmu, addr + i, 1, writing) == Mapped(t.slot, t.phys + i)
  {
    SamePage(addr, size, i);
    hide FindTlb;
    var a: Word := addr + i;
    assert a / PAGE_SIZE == addr / PAGE_SIZE && a % PAGE_SIZE == addr % PAGE_SIZE + i;
  }

  // An aligned word is mapped when any byte of it is.
  lemma ByteMapped(mmu: Mmu, addr: Word, writing: bool, i: nat)
    requires addr % 4 == 0 && i < 4 && addr + i < WORD_LIMIT
    ensures Translated(mmu, addr + i, 1, writing).Mapped? <==> Translated(mmu, addr, 4, writing).Mapped?
  {
    SamePage(addr, 4, i);
    hide FindTlb;
    var a: Word := addr + i;
    assert a / PAGE_SIZE == addr / PAGE_SIZE;
  }

  // What can be written can be read, at the same place.
  lemma WritableIsReadable(mmu: Mmu, addr: Word, size: nat)
    requires Translated(mmu, addr, size, true).Mapped?
    ensures Translated(mmu, addr, size, false) == Translated(mmu, addr, size, true)
  {
  }

  // ----- memory -----

  type Memory = m: seq<Byte> | |m| == 16384 witness seq(16384, _ => 0)

  // The register image of the bytes read; a single `char` is sign-extended.
  function FromBytes(bs: seq<Byte>): (w: Word)
    requires AccessSize(|bs|)
  {
    var b0: int, b1: int := bs[0], if |bs| > 1 then bs[1] else 0;
    if |bs| == 4 then DecodeWord(bs, 0)
    else if |bs| == 2 then b0 + 256 * b1
    else if b0 < 128 then b0 else b0 + 0xFFFF_FF00
  }

  // The low bytes of a register.
  function ToBytes(value: Word, size: nat): (bs: seq<Byte>)
    requires AccessSize(size)
    ensures |bs| == size
  {
    EncodeWord(value)[..size]
  }

  datatype Access = Value(v: Word, mmu: Mmu) | Failed(e: Exception)
  datatype Store = Stored(mem: Memory, mmu: Mmu) | NotStored(e: Exception)

  function ReadMem(mmu: Mmu, mem: Memory, addr: Word, size: nat): Access
    requires AccessSize(size)
  {
    var t := Translated(mmu, addr, size, false);
    if t.Fault? then Failed(t.e)
    else
      TranslateInMemory(mmu, addr, size, false);
      Value(FromBytes(mem[t.phys..t.phys + size]), Touched(mmu, t.slot, false))
  }

  function WriteMem(mmu: Mmu, mem: Memory, addr: Word, size: nat, value: Word): Store
    requires AccessSize(size)
  {
    var t := Translated(mmu, addr, size, true);
    if t.Fault? then NotStored(t.e)
    else
      TranslateInMemory(mmu, addr, size, true);
      Stored(mem[..t.phys] + ToBytes(value, size) + mem[t.phys + size..], Touched(mmu, t.slot, true))
  }

  // A program's view of memory, a byte at a time.
  function VirtualByte(mmu: Mmu, mem: Memory, addr: Word): Option<Byte> {
    var t := Translated(mmu, addr, 1, false);
    if t.Fault? then None
    else
      TranslateInMemory(mmu, addr, 1, false);
      Some(mem[t.phys])
  }

  // Where byte i of an access is.
  lemma WriteMemAt(mmu: Mmu, mem: Memory, addr: Word, size: nat, value: Word, k: nat)
    requires AccessSize(size) && k < MEMORY_SIZE && Translated(mmu, addr, size, true).Mapped?
    ensures var p := Translated(mmu, addr, size, true).phys;
      WriteMem(mmu, mem, addr, size, value).mem[k] == if p <= k < p + size then EncodeWord(value)[k - p] else mem[k]
  {
    TranslateInMemory(mmu, addr, size, true);
  }

  lemma ReadMemWord(mmu: Mmu, mem: Memory, addr: Word)
    requires Translated(mmu, addr, 4, false).Mapped?
    ensures var p := Translated(mmu, addr, 4, false).phys;
      p + 4 <= MEMORY_SIZE && EncodeWord(ReadMem(mmu, mem, addr, 4).v) == mem[p..p + 4]
  {
    TranslateInMemory(mmu, addr, 4, false);
    var p := Translated(mmu, addr, 4, false).phys;
    EncodeDecodeWord(mem[p..p + 4]);
  }

  // A byte of memory as a program sees it.
  predicate SeesByte(mmu: Mmu, mem: Memory, addr: nat, b: int) {
    addr < WORD_LIMIT && VirtualByte(mmu, mem, addr).Some? && VirtualByte(mmu, mem, addr).value == b
  }

  lemma AccessByte(mmu: Mmu, mem: Memory, addr: Word, size: nat, i: nat)
    requires AccessSize(size) && i < size && Translated(mmu, addr, size, false).Mapped?
    ensures var p := Translated(mmu, addr, size, false).phys;
      p + size <= MEMORY_SIZE && SeesByte(mmu, mem, addr + i, mem[p + i])
  {
    TranslateBytes(mmu, addr, size, false, i);
    TranslateInMemory(mmu, addr, size, false);
    hide Translated;
  }

  // The program sees these bytes from addr on.
  ghost predicate SeesBytes(mmu: Mmu, mem: Memory, addr: nat, bs: seq<Byte>) {
    forall i :: 0 <= i < |bs| ==> SeesByte(mmu, mem, addr + i, bs[i])
  }

  // What a register makes of one, two or four bytes, the low one first; a single one has
  // its sign extended.
  ghost predicate Reads(bs: seq<int>, v: int) {
    && (|bs| == 4 ==> v == bs[0] + 0x100 * bs[1] + 0x1_0000 * bs[2] + 0x100_0000 * bs[3])
    && (|bs| == 2 ==> v == bs[0] + 0x100 * bs[1])
    && (|bs| == 1 ==> v == if bs[0] < 0x80 then bs[0] else bs[0] + 0xFFFF_FF00)
  }

  /** ReadMem reads the bytes the program sees at the address; it fails exactly when the
      access does not translate, and with that exception. */
  lemma ReadIsBytes(mmu: Mmu, mem: Memory, addr: Word, size: nat) returns (bs: seq<Byte>)
    requires AccessSize(size)
    ensures var r := ReadMem(mmu, mem, addr, size);
      if r.Value? then |bs| == size && SeesBytes(mmu, mem, addr, bs) && Reads(bs, r.v)
      else Translated(mmu, addr, size, false) == Fault(r.e)
    ensures Translated(mmu, addr, size, false).Mapped? ==> ReadMem(mmu, mem, addr, size).Value?
  {
    bs := [];
    var t := Translated(mmu, addr, size, false);
    if t.Mapped? {
      TranslateInMemory(mmu, addr, size, false);
      bs := mem[t.phys..t.phys + size];
      forall i | 0 <= i < size
        ensures SeesByte(mmu, mem, addr + i, bs[i])
      {
        AccessByte(mmu, mem, addr, size, i);
      }
    }
    hide Translated, SeesByte;
  }

  // Byte i of a word, the low one first.
  function ByteOf(value: Word, i: nat): (b: int)
    requires i < 4
    ensures i == 0 ==> b == value % 0x100
    ensures i == 1 ==> b == value / 0x100 % 0x100
    ensures i == 2 ==> b == value / 0x1_0000 % 0x100
    ensures i == 3 ==> b == value / 0x100_0000
  {
    if i == 0 then value % 0x100 else if i == 1 then value / 0x100 % 0x100
    else if i == 2 then value / 0x1_0000 % 0x100 else value / 0x100_0000
  }

  lemma EncodedByte(value: Word, i: nat)
    requires i < 4
    ensures EncodeWord(value)[i] == ByteOf(value, i)
  {
  }

  /** WriteMem puts the low bytes of the value at the address, the lowest first, and
      changes no other byte of memory; it fails exactly when the access does not
      translate for writing, and with that exception. */
  lemma WriteIsBytes(mmu: Mmu, mem: Memory, addr: Word, size: nat, value: Word)
    requires AccessSize(size)
    ensures var w, t := WriteMem(mmu, mem, addr, size, value), Translated(mmu, addr, size, true);
      && (w.Stored? <==> t.Mapped?) && (w.NotStored? ==> t == Fault(w.e))
      && (w.Stored? ==> forall i :: 0 <= i < size ==> SeesByte(w.mmu, w.mem, addr + i, ByteOf(value, i)))
      && (w.Stored? ==> forall k :: 0 <= k < MEMORY_SIZE && !(t.phys <= k < t.phys + size) ==> w.mem[k] == mem[k])
  {
    var t := Translated(mmu, addr, size, true);
    if t.Mapped? {
      var w := WriteMem(mmu, mem, addr, size, value);
      TouchedTranslates(mmu, t.slot, true, addr, size, false);
      WritableIsReadable(mmu, addr, size);
      hide Translated;
      forall i | 0 <= i < size
        ensures SeesByte(w.mmu, w.mem, addr + i, ByteOf(value, i))
      {
        AccessByte(w.mmu, w.mem, addr, size, i);
        WriteMemAt(mmu, mem, addr, size, value, t.phys + i);
        EncodedByte(value, i);
      }
      forall k | 0 <= k < MEMORY_SIZE && !(t.phys <= k < t.phys + size)
        ensures w.mem[k] == mem[k]
      {
        WriteMemAt(mmu, mem, addr, size, value, k);
      }
    }
  }

  /** What is written is read back, at every size, as far as the size goes; a byte with
      its sign extended. */
  lemma ReadAfterWrite(mmu: Mmu, mem: Memory, addr: Word, size: nat, value: Word)
    requires AccessSize(size) && WriteMem(mmu, mem, addr, size, value).Stored?
    ensures var w := WriteMem(mmu, mem, addr, size, value);
      var r := ReadMem(w.mmu, w.mem, addr, size);
      && r.Value?
      && (size == 4 ==> r.v == value)
      && (size == 2 ==> r.v == value % 0x1_0000)
      && (size == 1 ==> r.v == if value % 0x100 < 0x80 then value % 0x100 else value % 0x100 + 0xFFFF_FF00)
  {
    var t := Translated(mmu, addr, size, true);
    var w := WriteMem(mmu, mem, addr, size, value);
    TranslateInMemory(mmu, addr, size, true);
    TouchedTranslates(mmu, t.slot, true, addr, size, false);
    WritableIsReadable(mmu, addr, size);
    assert w.mem[t.phys..t.phys + size] == ToBytes(value, size);
    DecodeEncodeWord(value);
    assert size == 4 ==> ToBytes(value, size) == EncodeWord(value);
    assert value == value / 0x1_0000 * 0x1_0000 + value / 0x100 % 0x100 * 0x100 + value % 0x100;
  }
}
