/** Unaligned loads and stores and the load delay slot (machine/mipssim.cc, with
    SIM_FIX), over the memory of translate.cc.

    A register is its 32-bit pattern. */
module Machines {
  import opened Options
  import opened Bytes
  import opened Translations

  // machine/machine.h
  const NUM_GP_REGS := 32
  const PC_REG := 34
  const NEXT_PC_REG := 35
  const PREV_PC_REG := 36
  const LOAD_REG := 37
  const LOAD_VALUE_REG := 38
  const BAD_VADDR_REG := 39
  const NUM_TOTAL_REGS := 40

  // ----- merging words -----

  // A 32-bit left shift drops the bits it pushes out, so `value << 8` is
  // value % 0x100_0000 * 0x100, and so on.

  // LWL: keep the low n bytes, shift the memory word in above them.
  function LoadLeft(reg: Word, value: Word, n: nat): Word
    requires n < 4
  {
    match n
    case 0 => value
    case 1 => reg % 0x100 + value % 0x100_0000 * 0x100
    case 2 => reg % 0x1_0000 + value % 0x1_0000 * 0x1_0000
    case _ => reg % 0x100_0000 + value % 0x100 * 0x100_0000
  }

  // LWR: shift the memory word down over the low n + 1 bytes.
  function LoadRight(reg: Word, value: Word, n: nat): Word
    requires n < 4
  {
    match n
    case 0 => reg - reg % 0x100 + value / 0x100_0000
    case 1 => reg - reg % 0x1_0000 + value / 0x1_0000
    case 2 => reg - reg % 0x100_0000 + value / 0x100
    case _ => value
  }

  // SWL and SWR, on the word in memory.
  function StoreLeft(value: Word, reg: Word, n: nat): Word
    requires n < 4
  {
    match n
    case 0 => reg
    case 1 => value - value % 0x100_0000 + reg / 0x100
    case 2 => value - value % 0x1_0000 + reg / 0x1_0000
    case _ => value - value % 0x100 + reg / 0x100_0000
  }

  function StoreRight(value: Word, reg: Word, n: nat): Word
    requires n < 4
  {
    match n
    case 0 => value % 0x100_0000 + reg % 0x100 * 0x100_0000
    case 1 => value % 0x1_0000 + reg % 0x1_0000 * 0x1_0000
    case 2 => value % 0x100 + reg % 0x100_0000 * 0x100
    case _ => reg
  }

  // A word and its bytes, low byte first.
  predicate Spells(w: Word, b0: nat, b1: nat, b2: nat, b3: nat) {
    && b0 < 256 && b1 < 256 && b2 < 256 && b3 < 256
    && w == b0 + 256 * b1 + 65536 * b2 + 16777216 * b3
  }

  lemma SpellsBytes(w: Word, b0: nat, b1: nat, b2: nat, b3: nat)
    requires Spells(w, b0, b1, b2, b3)
    ensures EncodeWord(w) == [b0, b1, b2, b3]
  {
    var bs: seq<Byte> := [b0, b1, b2, b3];
    assert DecodeWord(bs, 0) == w;
    hide EncodeWord;
    EncodeDecodeWord(bs);
  }

  lemma BytesSpell(w: Word)
    ensures var e := EncodeWord(w); Spells(w, e[0], e[1], e[2], e[3])
  {
    DecodeEncodeWord(w);
  }

  // The parts of a word the masks and shifts take.
  lemma Parts(w: Word, b0: nat, b1: nat, b2: nat, b3: nat)
    requires Spells(w, b0, b1, b2, b3)
    ensures w % 0x100 == b0 && w / 0x100 == b1 + 256 * b2 + 65536 * b3
    ensures w % 0x1_0000 == b0 + 256 * b1 && w / 0x1_0000 == b2 + 256 * b3
    ensures w % 0x100_0000 == b0 + 256 * b1 + 65536 * b2 && w / 0x100_0000 == b3
  {
    Divided(w, 0x100, b1 + 256 * b2 + 65536 * b3, b0);
    Divided(w, 0x1_0000, b2 + 256 * b3, b0 + 256 * b1);
    Divided(w, 0x100_0000, b3, b0 + 256 * b1 + 65536 * b2);
  }

  // The bytes each merge leaves where.
  lemma MergedBytes(reg: Word, value: Word, n: nat)
    requires n < 4
    ensures var r, v := EncodeWord(reg), EncodeWord(value);
      && EncodeWord(LoadLeft(reg, value, n)) == r[..n] + v[..4 - n]
      && EncodeWord(LoadRight(reg, value, n)) == v[3 - n..] + r[n + 1..]
      && EncodeWord(StoreLeft(value, reg, n)) == r[n..] + v[4 - n..]
      && EncodeWord(StoreRight(value, reg, n)) == v[..3 - n] + r[..n + 1]
  {
    var r, v := EncodeWord(reg), EncodeWord(value);
    BytesSpell(reg);
    BytesSpell(value);
    hide EncodeWord;
    Parts(reg, r[0], r[1], r[2], r[3]);
    Parts(value, v[0], v[1], v[2], v[3]);
    match n
    case 0 =>
      SpellsBytes(LoadRight(reg, value, 0), v[3], r[1], r[2], r[3]);
      SpellsBytes(StoreRight(value, reg, 0), v[0], v[1], v[2], r[0]);
    case 1 =>
      SpellsBytes(LoadLeft(reg, value, 1), r[0], v[0], v[1], v[2]);
      SpellsBytes(LoadRight(reg, value, 1), v[2], v[3], r[2], r[3]);
      SpellsBytes(StoreLeft(value, reg, 1), r[1], r[2], r[3], v[3]);
      SpellsBytes(StoreRight(value, reg, 1), v[0], v[1], r[0], r[1]);
    case 2 =>
      SpellsBytes(LoadLeft(reg, value, 2), r[0], r[1], v[0], v[1]);
      SpellsBytes(LoadRight(reg, value, 2), v[1], v[2], v[3], r[3]);
      SpellsBytes(StoreLeft(value, reg, 2), r[2], r[3], v[2], v[3]);
      SpellsBytes(StoreRight(value, reg, 2), v[0], r[0], r[1], r[2]);
    case _ =>
      SpellsBytes(LoadLeft(reg, value, 3), r[0], r[1], r[2], v[0]);
      SpellsBytes(StoreLeft(value, reg, 3), r[3], v[1], v[2], v[3]);
  }

  // ----- the processor -----

  datatype Cpu = Cpu(regs: seq<Word>, mem: Memory, mmu: Mmu)

  predicate RegsOk(regs: seq<Word>) {
    |regs| == NUM_TOTAL_REGS && regs[LOAD_REG] < NUM_GP_REGS && regs[0] == 0
  }

  // Machine::DelayedLoad.
  function DelayedLoaded(regs: seq<Word>, nextReg: Word, nextValue: Word): (r: seq<Word>)
    requires RegsOk(regs) && nextReg < NUM_GP_REGS
    ensures RegsOk(r)
  {
    regs[regs[LOAD_REG] := regs[LOAD_VALUE_REG]][LOAD_REG := nextReg][LOAD_VALUE_REG := nextValue][0 := 0]
  }

  // The general registers, once the load in progress is done.
  function Settled(regs: seq<Word>, r: nat): Word
    requires RegsOk(regs) && r < NUM_GP_REGS
  {
    if r == 0 then 0 else if regs[LOAD_REG] == r then regs[LOAD_VALUE_REG] else regs[r]
  }

  // The end of OneInstruction.
  function Completed(regs: seq<Word>, nextReg: Word, nextValue: Word): (r: seq<Word>)
    requires RegsOk(regs) && nextReg < NUM_GP_REGS
    ensures RegsOk(r)
  {
    var pcAfter := (regs[NEXT_PC_REG] + 4) % WORD_LIMIT;
    DelayedLoaded(regs, nextReg, nextValue)[PREV_PC_REG := regs[PC_REG]][PC_REG := regs[NEXT_PC_REG]][NEXT_PC_REG := pcAfter]
  }

  datatype Step = Done(cpu: Cpu) | Trapped(cpu: Cpu, e: Exception)

  // RaiseException, up to the call of the handler.
  function Trap(s: Cpu, addr: Word, e: Exception): Step
    requires RegsOk(s.regs)
  {
    Trapped(s.(regs := DelayedLoaded(s.regs[BAD_VADDR_REG := addr], 0, 0)), e)
  }

  // An interrupt between two instructions applies the load in progress.
  function Flushed(s: Cpu): Cpu
    requires RegsOk(s.regs)
  {
    s.(regs := DelayedLoaded(s.regs, 0, 0))
  }

  function Address(regs: seq<Word>, rs: nat, extra: int): Word
    requires RegsOk(regs) && rs < NUM_GP_REGS
  {
    (regs[rs] + extra) % WORD_LIMIT
  }

  // LWL when left, LWR otherwise.
  function LoadPart(s: Cpu, rs: nat, rt: nat, extra: int, left: bool): (r: Step)
    requires RegsOk(s.regs) && rs < NUM_GP_REGS && rt < NUM_GP_REGS
    ensures RegsOk(r.cpu.regs)
  {
    var tmp := Address(s.regs, rs, extra);
    var byte := tmp % 4;
    var read := ReadMem(s.mmu, s.mem, tmp - byte, 4);
    if read.Failed? then Trap(s, tmp - byte, read.e)
    else
      var before := if s.regs[LOAD_REG] == rt then s.regs[LOAD_VALUE_REG] else s.regs[rt];
      var after := if left then LoadLeft(before, read.v, 3 - byte) else LoadRight(before, read.v, 3 - byte);
      Done(s.(regs := Completed(s.regs, rt, after), mmu := read.mmu))
  }

  // SWL when left, SWR otherwise.
  function StorePart(s: Cpu, rs: nat, rt: nat, extra: int, left: bool): (r: Step)
    requires RegsOk(s.regs) && rs < NUM_GP_REGS && rt < NUM_GP_REGS
    ensures RegsOk(r.cpu.regs)
  {
    var tmp := Address(s.regs, rs, extra);
    var byte := tmp % 4;
    var read := ReadMem(s.mmu, s.mem, tmp - byte, 4);
    if read.Failed? then Trap(s, tmp - byte, read.e)
    else
      var value := if left then StoreLeft(read.v, s.regs[rt], 3 - byte) else StoreRight(read.v, s.regs[rt], 3 - byte);
      var write := WriteMem(read.mmu, s.mem, tmp - byte, 4, value);
      if write.NotStored? then Trap(s.(mmu := read.mmu), tmp - byte, write.e)
      else Done(Cpu(Completed(s.regs, 0, 0), write.mem, write.mmu))
  }

  // The pair of instructions an assembler writes for an unaligned access at
  // extra(rs), with or without an interrupt between the two.
  function LoadPair(s: Cpu, rs: nat, rt: nat, extra: int, interrupted: bool): (r: Step)
    requires RegsOk(s.regs) && rs < NUM_GP_REGS && rt < NUM_GP_REGS
    ensures RegsOk(r.cpu.regs)
  {
    var first := LoadPart(s, rs, rt, extra + 3, true);
    if first.Trapped? then first
    else LoadPart(if interrupted then Flushed(first.cpu) else first.cpu, rs, rt, extra, false)
  }

  function StorePair(s: Cpu, rs: nat, rt: nat, extra: int, interrupted: bool): (r: Step)
    requires RegsOk(s.regs) && rs < NUM_GP_REGS && rt < NUM_GP_REGS
    ensures RegsOk(r.cpu.regs)
  {
    var first := StorePart(s, rs, rt, extra + 3, true);
    if first.Trapped? then first
    else StorePart(if interrupted then Flushed(first.cpu) else first.cpu, rs, rt, extra, false)
  }

  // The four bytes of the unaligned word at b.
  function Place(b: Word, i: nat): Word { (b + i) % WORD_LIMIT }

  // Where a program expects byte i of the word at extra(base).
  function ByteAddress(base: Word, extra: int, i: nat): (a: Word)
    ensures a == (base + extra + i) % 0x1_0000_0000
  {
    (base + extra + i) % 0x1_0000_0000
  }

  lemma PlaceIsSum(regs: seq<Word>, rs: nat, extra: int, i: nat)
    requires RegsOk(regs) && rs < NUM_GP_REGS
    ensures Place(Address(regs, rs, extra), i) == ByteAddress(regs[rs], extra, i)
  {
    var x := regs[rs] + extra;
    assert x == x / WORD_LIMIT * WORD_LIMIT + x % WORD_LIMIT;
    SameRemainder(x % WORD_LIMIT + i, x / WORD_LIMIT);
  }

  lemma SameRemainder(y: int, q: int)
    ensures (y + q * WORD_LIMIT) % WORD_LIMIT == y % WORD_LIMIT
  {
    var a, b := (y + q * WORD_LIMIT) / WORD_LIMIT, y / WORD_LIMIT;
    assert (a - b - q) * WORD_LIMIT == y % WORD_LIMIT - (y + q * WORD_LIMIT) % WORD_LIMIT;
  }

  // ----- loads -----

  // An aligned word and its bytes.
  lemma WordBytes(mmu: Mmu, mem: Memory, addr: Word, j: nat)
    requires j < 4 && ReadMem(mmu, mem, addr, 4).Value?
    ensures addr + j < WORD_LIMIT
    ensures VirtualByte(mmu, mem, addr + j) == Some(EncodeWord(ReadMem(mmu, mem, addr, 4).v)[j])
  {
    ReadMemWord(mmu, mem, addr);
    TranslateBytes(mmu, addr, 4, false, j);
    TranslateInMemory(mmu, addr, 4, false);
    hide Translated, EncodeWord;
  }

  // Byte i of the word at b lies in the aligned word that holds b + 3.
  predicate InHigh(b: Word, i: nat) { b % 4 == 0 || b % 4 + i >= 4 }

  // Where the left instruction finds the aligned word: byte i of the unaligned word
  // is its byte i - n, where n is the shift in bytes.
  lemma HighWord(base: Word, extra: int, i: nat)
    requires i < 4
    ensures var b := (base + extra) % WORD_LIMIT;
      var tmp := (base + (extra + 3)) % WORD_LIMIT;
      var n := 3 - tmp % 4;
      (InHigh(b, i) <==> i >= n) && (i >= n ==> tmp - tmp % 4 + (i - n) == Place(b, i))
  {
    var b := (base + extra) % WORD_LIMIT;
    var tmp := (base + (extra + 3)) % WORD_LIMIT;
    assert tmp == if b + 3 < WORD_LIMIT then b + 3 else b + 3 - WORD_LIMIT;
    assert b == 4 * (b / 4) + b % 4;
    var m := if b + 3 < WORD_LIMIT then b / 4 else b / 4 - 0x4000_0000;
    if b % 4 == 0 {
      Divided(tmp, 4, m, 3);
    } else {
      Divided(tmp, 4, m + 1, b % 4 - 1);
    }
  }

  // The right instruction's aligned word.
  lemma LowWord(b: Word, i: nat)
    requires i < 4
    ensures b % 4 + i < 4 ==> b - b % 4 + (b % 4 + i) == Place(b, i)
  {
    assert b == 4 * (b / 4) + b % 4;
  }

  ghost predicate SameView(mmu: Mmu, mmu': Mmu) {
    forall a: Word, size: nat, w: bool {:trigger Translated(mmu', a, size, w)} ::
      Translated(mmu', a, size, w) == Translated(mmu, a, size, w)
  }

  lemma TouchedView(mmu: Mmu, slot: nat, writing: bool)
    requires slot < |mmu.entries|
    ensures SameView(mmu, Touched(mmu, slot, writing))
  {
    forall a: Word, size: nat, w: bool
      ensures Translated(Touched(mmu, slot, writing), a, size, w) == Translated(mmu, a, size, w)
    {
      TouchedTranslates(mmu, slot, writing, a, size, w);
    }
  }

  // Everything a load leaves alone.
  ghost predicate LoadFrame(s: Cpu, s': Cpu, rt: nat)
    requires RegsOk(s.regs) && RegsOk(s'.regs)
  {
    && s'.mem == s.mem && SameView(s.mmu, s'.mmu)
    && (forall r :: 0 <= r < NUM_GP_REGS && r != rt ==> Settled(s'.regs, r) == Settled(s.regs, r))
  }

  lemma LoadPartFrame(s: Cpu, rs: nat, rt: nat, extra: int, left: bool)
    requires RegsOk(s.regs) && rs < NUM_GP_REGS && 0 < rt < NUM_GP_REGS
    requires LoadPart(s, rs, rt, extra, left).Done?
    ensures LoadFrame(s, LoadPart(s, rs, rt, extra, left).cpu, rt)
    ensures LoadPart(s, rs, rt, extra, left).cpu.regs[LOAD_REG] == rt
    ensures forall r :: 0 <= r < NUM_GP_REGS ==> LoadPart(s, rs, rt, extra, left).cpu.regs[r] == Settled(s.regs, r)
  {
    hide Translated, FromBytes, LoadLeft, LoadRight, SameView;
    var tmp := Address(s.regs, rs, extra);
    var t := Translated(s.mmu, tmp - tmp % 4, 4, false);
    TouchedView(s.mmu, t.slot, false);
  }

  // What the left instruction has assembled.
  lemma LoadPartLeft(s: Cpu, rs: nat, rt: nat, extra: int, i: nat)
    requires RegsOk(s.regs) && rs < NUM_GP_REGS && 0 < rt < NUM_GP_REGS && i < 4
    requires LoadPart(s, rs, rt, extra + 3, true).Done?
    ensures var w := EncodeWord(LoadPart(s, rs, rt, extra + 3, true).cpu.regs[LOAD_VALUE_REG]);
      var b := Address(s.regs, rs, extra);
      if InHigh(b, i) then VirtualByte(s.mmu, s.mem, Place(b, i)) == Some(w[i])
      else w[i] == EncodeWord(Settled(s.regs, rt))[i]
  {
    hide Translated, FromBytes, LoadLeft, EncodeWord, VirtualByte, Place, InHigh, ReadMem;
    var tmp := Address(s.regs, rs, extra + 3);
    var n := 3 - tmp % 4;
    var v := ReadMem(s.mmu, s.mem, tmp - tmp % 4, 4).v;
    HighWord(s.regs[rs], extra, i);
    MergedBytes(Settled(s.regs, rt), v, n);
    if i >= n {
      WordBytes(s.mmu, s.mem, tmp - tmp % 4, i - n);
    }
  }

  lemma LoadPartRight(s: Cpu, rs: nat, rt: nat, extra: int, i: nat)
    requires RegsOk(s.regs) && rs < NUM_GP_REGS && 0 < rt < NUM_GP_REGS && i < 4
    requires LoadPart(s, rs, rt, extra, false).Done?
    ensures var w := EncodeWord(LoadPart(s, rs, rt, extra, false).cpu.regs[LOAD_VALUE_REG]);
      var b := Address(s.regs, rs, extra);
      if b % 4 + i < 4 then VirtualByte(s.mmu, s.mem, Place(b, i)) == Some(w[i])
      else w[i] == EncodeWord(Settled(s.regs, rt))[i]
  {
    hide Translated, FromBytes, LoadRight, EncodeWord, VirtualByte, Place, ReadMem;
    var b := Address(s.regs, rs, extra);
    var n := 3 - b % 4;
    var v := ReadMem(s.mmu, s.mem, b - b % 4, 4).v;
    LowWord(b, i);
    MergedBytes(Settled(s.regs, rt), v, n);
    if b % 4 + i < 4 {
      WordBytes(s.mmu, s.mem, b - b % 4, b % 4 + i);
    }
  }

  lemma FlushedFacts(s: Cpu)
    requires RegsOk(s.regs)
    ensures forall r :: 0 <= r < NUM_GP_REGS ==> Settled(Flushed(s).regs, r) == Settled(s.regs, r)
    ensures forall r :: 0 <= r < NUM_GP_REGS ==> Flushed(s).regs[r] == Settled(s.regs, r)
  {
  }

  // The state between the two instructions of a pair of loads.
  lemma LoadMiddle(s: Cpu, rs: nat, rt: nat, extra: int, interrupted: bool) returns (m: Cpu)
    requires RegsOk(s.regs) && rs < NUM_GP_REGS && 0 < rt < NUM_GP_REGS && (interrupted ==> rs != rt)
    requires Settled(s.regs, rs) == s.regs[rs] && LoadPart(s, rs, rt, extra + 3, true).Done?
    ensures RegsOk(m.regs) && LoadPair(s, rs, rt, extra, interrupted) == LoadPart(m, rs, rt, extra, false)
    ensures LoadFrame(s, m, rt) && m.regs[rs] == s.regs[rs]
    ensures Settled(m.regs, rt) == LoadPart(s, rs, rt, extra + 3, true).cpu.regs[LOAD_VALUE_REG]
  {
    hide LoadPart, SameView, DelayedLoaded;
    LoadPartFrame(s, rs, rt, extra + 3, true);
    var f := LoadPart(s, rs, rt, extra + 3, true).cpu;
    FlushedFacts(f);
    m := if interrupted then Flushed(f) else f;
    assert m.mem == f.mem && m.mmu == f.mmu;
  }

  lemma SameBytes(mmu: Mmu, mmu': Mmu, mem: Memory, addr: Word)
    requires SameView(mmu, mmu')
    ensures VirtualByte(mmu', mem, addr) == VirtualByte(mmu, mem, addr)
  {
    assert Translated(mmu', addr, 1, false) == Translated(mmu, addr, 1, false);
  }

  lemma LoadPairByte(s: Cpu, rs: nat, rt: nat, extra: int, interrupted: bool, i: nat)
    requires RegsOk(s.regs) && rs < NUM_GP_REGS && 0 < rt < NUM_GP_REGS && (interrupted ==> rs != rt) && i < 4
    requires Settled(s.regs, rs) == s.regs[rs] && LoadPair(s, rs, rt, extra, interrupted).Done?
    ensures VirtualByte(s.mmu, s.mem, Place(Address(s.regs, rs, extra), i))
      == Some(EncodeWord(LoadPair(s, rs, rt, extra, interrupted).cpu.regs[LOAD_VALUE_REG])[i])
  {
    var b := Address(s.regs, rs, extra);
    hide LoadPart, LoadPair, SameView, EncodeWord, VirtualByte, Settled, Translated, Place, LoadLeft, LoadRight,
            FromBytes;
    var m := LoadMiddle(s, rs, rt, extra, interrupted);
    assert Address(m.regs, rs, extra) == b && (b % 4 + i >= 4 ==> InHigh(b, i));
    hide Address, InHigh;
    LoadPartLeft(s, rs, rt, extra, i);
    LoadPartRight(m, rs, rt, extra, i);
    SameBytes(s.mmu, m.mmu, s.mem, Place(b, i));
  }

  /** LWL rt, extra+3(rs) and LWR rt, extra(rs) load the little-endian word at
      extra(rs), wherever it lies, with or without an interrupt in between; nothing
      else changes. */
  lemma LoadPairLoads(s: Cpu, rs: nat, rt: nat, extra: int, interrupted: bool)
    requires RegsOk(s.regs) && rs < NUM_GP_REGS && 0 < rt < NUM_GP_REGS && (interrupted ==> rs != rt)
    requires Settled(s.regs, rs) == s.regs[rs] && LoadPair(s, rs, rt, extra, interrupted).Done?
    ensures var s' := LoadPair(s, rs, rt, extra, interrupted).cpu;
      && LoadFrame(s, s', rt)
      && s'.regs[LOAD_REG] == rt
      && forall i :: 0 <= i < 4 ==>
           VirtualByte(s.mmu, s.mem, ByteAddress(s.regs[rs], extra, i))
             == Some(EncodeWord(Settled(s'.regs, rt))[i])
  {
    var m := LoadMiddle(s, rs, rt, extra, interrupted);
    var s' := LoadPair(s, rs, rt, extra, interrupted).cpu;
    LoadPartFrame(m, rs, rt, extra, false);
    hide LoadPart, LoadPair, EncodeWord, VirtualByte, Address, Place, ByteAddress;
    forall i | 0 <= i < 4
      ensures VirtualByte(s.mmu, s.mem, ByteAddress(s.regs[rs], extra, i))
           == Some(EncodeWord(Settled(s'.regs, rt))[i])
    {
      PlaceIsSum(s.regs, rs, extra, i);
      LoadPairByte(s, rs, rt, extra, interrupted, i);
    }
  }

  // A trap means a byte that cannot be read.
  lemma LeftTraps(s: Cpu, rs: nat, rt: nat, extra: int)
    requires RegsOk(s.regs) && rs < NUM_GP_REGS && rt < NUM_GP_REGS
    requires LoadPart(s, rs, rt, extra + 3, true).Trapped?
    ensures VirtualByte(s.mmu, s.mem, Place(Address(s.regs, rs, extra), 3)).None?
  {
    hide Translated, Place, FromBytes, LoadLeft;
    var tmp := Address(s.regs, rs, extra + 3);
    HighWord(s.regs[rs], extra, 3);
    ByteMapped(s.mmu, tmp - tmp % 4, false, tmp % 4);
  }

  lemma RightTraps(s: Cpu, rs: nat, rt: nat, extra: int)
    requires RegsOk(s.regs) && rs < NUM_GP_REGS && rt < NUM_GP_REGS
    requires LoadPart(s, rs, rt, extra, false).Trapped?
    ensures VirtualByte(s.mmu, s.mem, Place(Address(s.regs, rs, extra), 0)).None?
  {
    hide Translated, Place, FromBytes, LoadRight;
    var b := Address(s.regs, rs, extra);
    LowWord(b, 0);
    ByteMapped(s.mmu, b - b % 4, false, b % 4);
  }

  /** ... and the pair completes exactly when all four bytes can be read. */
  lemma LoadPairCompletes(s: Cpu, rs: nat, rt: nat, extra: int, interrupted: bool)
    requires RegsOk(s.regs) && rs < NUM_GP_REGS && 0 < rt < NUM_GP_REGS && (interrupted ==> rs != rt)
    requires Settled(s.regs, rs) == s.regs[rs]
    ensures LoadPair(s, rs, rt, extra, interrupted).Done? <==>
      forall i :: 0 <= i < 4 ==> VirtualByte(s.mmu, s.mem, ByteAddress(s.regs[rs], extra, i)).Some?
  {
    hide Translated, Place, VirtualByte, EncodeWord, Address, Settled, SameView;
    hide ByteAddress;
    PlaceIsSum(s.regs, rs, extra, 0);
    PlaceIsSum(s.regs, rs, extra, 3);
    if LoadPair(s, rs, rt, extra, interrupted).Done? {
      LoadPairLoads(s, rs, rt, extra, interrupted);
    } else if LoadPart(s, rs, rt, extra + 3, true).Trapped? {
      LeftTraps(s, rs, rt, extra);
    } else {
      var m := LoadMiddle(s, rs, rt, extra, interrupted);
      hide LoadPart, LoadPair;
      RightTraps(m, rs, rt, extra);
      SameAddress(s.regs, m.regs, rs, extra);
      SameBytes(s.mmu, m.mmu, s.mem, Place(Address(s.regs, rs, extra), 0));
    }
  }

  lemma SameAddress(regs: seq<Word>, regs': seq<Word>, rs: nat, extra: int)
    requires RegsOk(regs) && RegsOk(regs') && rs < NUM_GP_REGS && regs'[rs] == regs[rs]
    ensures Address(regs', rs, extra) == Address(regs, rs, extra)
  {
  }

  // ----- stores -----

  // The physical place a program's byte is written to.
  function Spot(mmu: Mmu, addr: Word): Option<nat> {
    var t := Translated(mmu, addr, 1, true);
    if t.Mapped? then Some(t.phys) else None
  }

  // The bytes each instruction of the pair is for.
  predicate InPart(b: Word, i: nat, left: bool) {
    if left then InHigh(b, i) else b % 4 + i < 4
  }

  // The bytes of reg in that part of the word at b are in memory; nothing else moved.
  ghost predicate PartStored(mmu: Mmu, mem: Memory, mem': Memory, b: Word, reg: Word, left: bool) {
    && (forall i :: 0 <= i < 4 && InPart(b, i, left) ==>
         var p := Spot(mmu, Place(b, i)); p.Some? && p.value < MEMORY_SIZE && mem'[p.value] == EncodeWord(reg)[i])
    && (forall k :: 0 <= k < MEMORY_SIZE && (forall i :: 0 <= i < 4 && InPart(b, i, left) ==> Spot(mmu, Place(b, i)) != Some(k)) ==>
         mem'[k] == mem[k])
  }

  // The aligned word at addr is at p; value is replaced there by value'.
  ghost predicate WordReplaced(mmu: Mmu, mem: Memory, mem': Memory, addr: Word, p: nat, value: Word, value': Word) {
    && p + 4 <= MEMORY_SIZE && addr + 3 < WORD_LIMIT
    && (forall j :: 0 <= j < 4 ==> Spot(mmu, Place(addr, j)) == Some(p + j))
    && (forall k :: 0 <= k < MEMORY_SIZE ==>
         if p <= k < p + 4 then mem[k] == EncodeWord(value)[k - p] && mem'[k] == EncodeWord(value')[k - p]
         else mem'[k] == mem[k])
  }

  lemma WordSpots(mmu: Mmu, addr: Word)
    requires Translated(mmu, addr, 4, true).Mapped?
    ensures addr + 3 < WORD_LIMIT
    ensures forall j :: 0 <= j < 4 ==> Spot(mmu, Place(addr, j)) == Some(Translated(mmu, addr, 4, true).phys + j)
  {
    hide Translated;
    TranslateBytes(mmu, addr, 4, true, 0);
    TranslateBytes(mmu, addr, 4, true, 1);
    TranslateBytes(mmu, addr, 4, true, 2);
    TranslateBytes(mmu, addr, 4, true, 3);
  }

  lemma WordWritten(mmu: Mmu, mmu1: Mmu, mem: Memory, addr: Word, value': Word)
    requires Translated(mmu, addr, 4, false).Mapped? && SameView(mmu, mmu1)
    requires WriteMem(mmu1, mem, addr, 4, value').Stored?
    ensures WordReplaced(mmu, mem, WriteMem(mmu1, mem, addr, 4, value').mem, addr,
                         Translated(mmu, addr, 4, false).phys, ReadMem(mmu, mem, addr, 4).v, value')
  {
    hide EncodeWord, Translated, FromBytes, ToBytes, Spot, Place;
    var t := Translated(mmu, addr, 4, true);
    assert Translated(mmu1, addr, 4, true) == t;
    var mem' := WriteMem(mmu1, mem, addr, 4, value').mem;
    var v := ReadMem(mmu, mem, addr, 4).v;
    WritableIsReadable(mmu, addr, 4);
    ReadMemWord(mmu, mem, addr);
    WordSpots(mmu, addr);
    hide SameView, WriteMem, ReadMem;
    forall k | 0 <= k < MEMORY_SIZE
      ensures mem'[k] == if t.phys <= k < t.phys + 4 then EncodeWord(value')[k - t.phys] else mem[k]
      ensures t.phys <= k < t.phys + 4 ==> mem[k] == EncodeWord(v)[k - t.phys]
    {
      WriteMemAt(mmu1, mem, addr, 4, value', k);
      assert t.phys <= k < t.phys + 4 ==> mem[k] == mem[t.phys..t.phys + 4][k - t.phys];
    }
  }

  // Byte j of the aligned word is byte j + shift of the unaligned one.
  ghost predicate Lined(b: Word, addr: Word, left: bool, shift: int) {
    && addr + 3 < WORD_LIMIT
    && (forall i :: 0 <= i < 4 ==> (InPart(b, i, left) <==> 0 <= i - shift < 4))
    && (forall i :: 0 <= i < 4 && InPart(b, i, left) ==> Place(b, i) == Place(addr, i - shift))
  }

  ghost predicate Shifted(value: Word, reg: Word, value': Word, shift: int) {
    forall j :: 0 <= j < 4 ==>
      EncodeWord(value')[j] == if 0 <= j + shift < 4 then EncodeWord(reg)[j + shift] else EncodeWord(value)[j]
  }

  lemma PartFromWord(mmu: Mmu, mem: Memory, mem': Memory, b: Word, addr: Word, p: nat, value: Word, value': Word,
          reg: Word,
                     left: bool, shift: int)
    requires WordReplaced(mmu, mem, mem', addr, p, value, value')
    requires Lined(b, addr, left, shift) && Shifted(value, reg, value', shift)
    ensures PartStored(mmu, mem, mem', b, reg, left)
  {
    hide EncodeWord, InPart, Place, Spot;
    forall i | 0 <= i < 4 && InPart(b, i, left)
      ensures Spot(mmu, Place(b, i)) == Some(p + (i - shift)) && mem'[p + (i - shift)] == EncodeWord(reg)[i]
    {
      var j := i - shift;
      assert EncodeWord(value')[j] == EncodeWord(reg)[j + shift];
    }
    forall k: nat | k < MEMORY_SIZE && mem'[k] != mem[k]
      ensures exists i :: 0 <= i < 4 && InPart(b, i, left) && Spot(mmu, Place(b, i)) == Some(k)
    {
      var i := k - p + shift;
      assert mem[k] == EncodeWord(value)[k - p] && mem'[k] == EncodeWord(value')[k - p];
      assert InPart(b, i, left);
    }
  }

  lemma StoreShifts(value: Word, reg: Word, n: nat)
    requires n < 4
    ensures Shifted(value, reg, StoreLeft(value, reg, n), n)
    ensures Shifted(value, reg, StoreRight(value, reg, n), n - 3)
  {
    MergedBytes(reg, value, n);
    hide EncodeWord, StoreLeft, StoreRight;
  }

  lemma StoreLines(base: Word, extra: int, left: bool)
    ensures var tmp := (base + (if left then extra + 3 else extra)) % WORD_LIMIT;
      Lined((base + extra) % WORD_LIMIT, tmp - tmp % 4, left, if left then 3 - tmp % 4 else -(tmp % 4))
  {
    hide InPart, Place;
    var b: Word := (base + extra) % WORD_LIMIT;
    var tmp: Word := (base + (if left then extra + 3 else extra)) % WORD_LIMIT;
    var addr: Word, shift: int := tmp - tmp % 4, if left then 3 - tmp % 4 else -(tmp % 4);
    PlaceSmall(tmp, 3);
    forall i | 0 <= i < 4
      ensures InPart(b, i, left) <==> 0 <= i - shift < 4
      ensures InPart(b, i, left) ==> Place(b, i) == Place(addr, i - shift)
    {
      if left { LineLeft(base, extra, i); } else { LineRight(base, extra, i); }
    }
  }

  lemma LineLeft(base: Word, extra: int, i: nat)
    requires i < 4
    ensures var b, tmp := (base + extra) % WORD_LIMIT, (base + (extra + 3)) % WORD_LIMIT;
      && (InPart(b, i, true) <==> 0 <= i - (3 - tmp % 4) < 4)
      && (InPart(b, i, true) ==> Place(b, i) == Place(tmp - tmp % 4, i - (3 - tmp % 4)))
  {
    HighWord(base, extra, i);
    var tmp := (base + (extra + 3)) % WORD_LIMIT;
    PlaceSmall(tmp, i - (3 - tmp % 4));
    hide InHigh, Place;
  }

  lemma LineRight(base: Word, extra: int, i: nat)
    requires i < 4
    ensures var b := (base + extra) % WORD_LIMIT;
      && (InPart(b, i, false) <==> 0 <= i + b % 4 < 4)
      && (InPart(b, i, false) ==> Place(b, i) == Place(b - b % 4, i + b % 4))
  {
    var b := (base + extra) % WORD_LIMIT;
    LowWord(b, i);
    PlaceSmall(b, i + b % 4);
    hide Place;
  }

  // Nothing wraps around inside an aligned word.
  lemma PlaceSmall(a: Word, j: int)
    ensures a - a % 4 + 3 < WORD_LIMIT && (0 <= j < 4 ==> Place(a - a % 4, j) == a - a % 4 + j)
  {
    assert a == 4 * (a / 4) + a % 4;
  }

  // What a completed store consists of.
  lemma StorePartIs(s: Cpu, rs: nat, rt: nat, extra: int, left: bool) returns (addr: Word, n: nat, value: Word)
    requires RegsOk(s.regs) && rs < NUM_GP_REGS && rt < NUM_GP_REGS
    requires StorePart(s, rs, rt, if left then extra + 3 else extra, left).Done?
    ensures var tmp := Address(s.regs, rs, if left then extra + 3 else extra);
      addr == tmp - tmp % 4 && n == 3 - tmp % 4
    ensures var read := ReadMem(s.mmu, s.mem, addr, 4);
      && read.Value?
      && value == (if left then StoreLeft(read.v, s.regs[rt], n) else StoreRight(read.v, s.regs[rt], n))
      && WriteMem(read.mmu, s.mem, addr, 4, value).Stored?
      && StorePart(s, rs, rt, if left then extra + 3 else extra, left).cpu
         == Cpu(Completed(s.regs, 0, 0), WriteMem(read.mmu, s.mem, addr, 4, value).mem,
                WriteMem(read.mmu, s.mem, addr, 4, value).mmu)
  {
    hide ReadMem, WriteMem, StoreLeft, StoreRight, Completed;
    var tmp := Address(s.regs, rs, if left then extra + 3 else extra);
    addr, n := tmp - tmp % 4, 3 - tmp % 4;
    var read := ReadMem(s.mmu, s.mem, addr, 4);
    value := if left then StoreLeft(read.v, s.regs[rt], n) else StoreRight(read.v, s.regs[rt], n);
  }

  lemma ReadView(mmu: Mmu, mem: Memory, addr: Word)
    requires ReadMem(mmu, mem, addr, 4).Value?
    ensures SameView(mmu, ReadMem(mmu, mem, addr, 4).mmu)
    ensures Translated(mmu, addr, 4, false).Mapped?
  {
    hide Translated, FromBytes;
    TouchedView(mmu, Translated(mmu, addr, 4, false).slot, false);
  }

  lemma WriteView(mmu: Mmu, mem: Memory, addr: Word, value: Word)
    requires WriteMem(mmu, mem, addr, 4, value).Stored?
    ensures SameView(mmu, WriteMem(mmu, mem, addr, 4, value).mmu)
  {
    hide Translated, ToBytes;
    TouchedView(mmu, Translated(mmu, addr, 4, true).slot, true);
  }

  lemma CompletedSettles(regs: seq<Word>)
    requires RegsOk(regs)
    ensures forall r :: 0 <= r < NUM_GP_REGS ==> Settled(Completed(regs, 0, 0), r) == Completed(regs, 0, 0)[r] == Settled(regs, r)
  {
  }

  lemma StorePartStores(s: Cpu, rs: nat, rt: nat, extra: int, left: bool)
    requires RegsOk(s.regs) && rs < NUM_GP_REGS && rt < NUM_GP_REGS
    requires StorePart(s, rs, rt, if left then extra + 3 else extra, left).Done?
    ensures var s' := StorePart(s, rs, rt, if left then extra + 3 else extra, left).cpu;
      && PartStored(s.mmu, s.mem, s'.mem, Address(s.regs, rs, extra), s.regs[rt], left)
      && SameView(s.mmu, s'.mmu)
      && (forall r :: 0 <= r < NUM_GP_REGS ==> Settled(s'.regs, r) == s'.regs[r] == Settled(s.regs, r))
  {
    hide StorePart, ReadMem, WriteMem, Translated, EncodeWord, StoreLeft, StoreRight, Place, InHigh, Shifted, Lined,
      WordReplaced, PartStored, SameView, Completed, Settled;
    var addr, n, value := StorePartIs(s, rs, rt, extra, left);
    var read := ReadMem(s.mmu, s.mem, addr, 4);
    ReadView(s.mmu, s.mem, addr);
    WordWritten(s.mmu, read.mmu, s.mem, addr, value);
    StoreShifts(read.v, s.regs[rt], n);
    StoreLines(s.regs[rs], extra, left);
    var write := WriteMem(read.mmu, s.mem, addr, 4, value);
    var p: nat, shift: int := Translated(s.mmu, addr, 4, false).phys, if left then n else n as int - 3;
    PartFromWord(s.mmu, s.mem, write.mem, Address(s.regs, rs, extra), addr, p, read.v, value, s.regs[rt], left, shift);
    WriteView(read.mmu, s.mem, addr, value);
    ViewTransitive(s.mmu, read.mmu, write.mmu);
    CompletedSettles(s.regs);
  }

  lemma ViewTransitive(m0: Mmu, m1: Mmu, m2: Mmu)
    requires SameView(m0, m1) && SameView(m1, m2)
    ensures SameView(m0, m2)
  {
  }

  // The four bytes of the unaligned word have places of their own, even if two pages
  // share a frame.
  lemma SpotsDiffer(mmu: Mmu, b: Word, i: nat, j: nat)
    requires i < 4 && j < 4 && i != j && Spot(mmu, Place(b, i)).Some?
    ensures Spot(mmu, Place(b, i)) != Spot(mmu, Place(b, j))
  {
    hide Translated;
    PlaceInPage(b, i);
    PlaceInPage(b, j);
    if Spot(mmu, Place(b, j)).Some? {
      TranslateInMemory(mmu, Place(b, i), 1, true);
      TranslateInMemory(mmu, Place(b, j), 1, true);
    }
  }

  lemma PlaceInPage(b: Word, i: nat)
    requires i < 4
    ensures Place(b, i) % PAGE_SIZE == if b % PAGE_SIZE + i < PAGE_SIZE then b % PAGE_SIZE + i else b % PAGE_SIZE + i - PAGE_SIZE
  {
    var o := b % PAGE_SIZE;
    assert b == b / PAGE_SIZE * PAGE_SIZE + o;
    assert Place(b, i) == if b + i < WORD_LIMIT then b + i else b + i - WORD_LIMIT;
    var q: int := b / PAGE_SIZE + (if o + i < PAGE_SIZE then 0 else 1) - (if b + i < WORD_LIMIT then 0 else 0x200_0000);
    var r := if o + i < PAGE_SIZE then o + i else o + i - PAGE_SIZE;
    assert Place(b, i) == q * PAGE_SIZE + r;
    Quotient(Place(b, i), q, r);
  }

  // The little-endian word reg is at b; nothing else moved.
  ghost predicate AllStored(mmu: Mmu, mem: Memory, mem': Memory, b: Word, reg: Word) {
    && (forall i :: 0 <= i < 4 ==>
         var p := Spot(mmu, Place(b, i)); p.Some? && p.value < MEMORY_SIZE && mem'[p.value] == EncodeWord(reg)[i])
    && (forall k :: 0 <= k < MEMORY_SIZE && (forall i :: 0 <= i < 4 ==> Spot(mmu, Place(b, i)) != Some(k)) ==>
         mem'[k] == mem[k])
  }

  // The same with the four places written out, from the sum of base and extra.
  ghost predicate StoredAt(mmu: Mmu, mem: Memory, mem': Memory, base: Word, extra: int, reg: Word) {
    && (forall i :: 0 <= i < 4 ==>
         var p := Spot(mmu, ByteAddress(base, extra, i));
         p.Some? && p.value < MEMORY_SIZE && mem'[p.value] == EncodeWord(reg)[i])
    && (forall k :: 0 <= k < MEMORY_SIZE && (forall i :: 0 <= i < 4 ==> Spot(mmu, ByteAddress(base, extra, i)) != Some(k)) ==>
         mem'[k] == mem[k])
  }

  lemma StoredThere(mmu: Mmu, mem: Memory, mem': Memory, regs: seq<Word>, rs: nat, extra: int, reg: Word)
    requires RegsOk(regs) && rs < NUM_GP_REGS
    ensures AllStored(mmu, mem, mem', Address(regs, rs, extra), reg) <==> StoredAt(mmu, mem, mem', regs[rs], extra, reg)
  {
    hide Address, Place, Spot, EncodeWord, ByteAddress;
    PlaceIsSum(regs, rs, extra, 0);
    PlaceIsSum(regs, rs, extra, 1);
    PlaceIsSum(regs, rs, extra, 2);
    PlaceIsSum(regs, rs, extra, 3);
  }

  lemma PartsMakeAll(mmu: Mmu, mmu1: Mmu, mem: Memory, mem1: Memory, mem2: Memory, b: Word, reg: Word)
    requires PartStored(mmu, mem, mem1, b, reg, true)
    requires SameView(mmu, mmu1) && PartStored(mmu1, mem1, mem2, b, reg, false)
    ensures AllStored(mmu, mem, mem2, b, reg)
  {
    hide EncodeWord, Place;
    forall i | 0 <= i < 4
      ensures Spot(mmu1, Place(b, i)) == Spot(mmu, Place(b, i))
    {
      assert Translated(mmu1, Place(b, i), 1, true) == Translated(mmu, Place(b, i), 1, true);
    }
    hide Spot, SameView;
    forall i | 0 <= i < 4
      ensures var p := Spot(mmu, Place(b, i)); p.Some? && p.value < MEMORY_SIZE && mem2[p.value] == EncodeWord(reg)[i]
    {
      if !InPart(b, i, false) {
        assert InPart(b, i, true);
        forall j | 0 <= j < 4 && InPart(b, j, false)
          ensures Spot(mmu1, Place(b, j)) != Spot(mmu, Place(b, i))
        {
          SpotsDiffer(mmu, b, i, j);
        }
      }
    }
  }

  /** SWL rt, extra+3(rs) and SWR rt, extra(rs), with no load in progress on either
      register, write exactly the four bytes at extra(rs), wherever they lie. */
  lemma StorePairStores(s: Cpu, rs: nat, rt: nat, extra: int, interrupted: bool)
    requires RegsOk(s.regs) && rs < NUM_GP_REGS && rt < NUM_GP_REGS
    requires Settled(s.regs, rs) == s.regs[rs] && Settled(s.regs, rt) == s.regs[rt]
    requires StorePair(s, rs, rt, extra, interrupted).Done?
    ensures var s' := StorePair(s, rs, rt, extra, interrupted).cpu;
      && StoredAt(s.mmu, s.mem, s'.mem, s.regs[rs], extra, s.regs[rt])
      && SameView(s.mmu, s'.mmu)
      && (forall r :: 0 <= r < NUM_GP_REGS ==> Settled(s'.regs, r) == s'.regs[r] == Settled(s.regs, r))
  {
    hide StorePart, PartStored, AllStored, SameView, Settled, StoredAt, Address;
    var f := StorePart(s, rs, rt, extra + 3, true).cpu;
    StorePartStores(s, rs, rt, extra, true);
    FlushedFacts(f);
    var m := if interrupted then Flushed(f) else f;
    assert m.mem == f.mem && m.mmu == f.mmu;
    forall r | 0 <= r < NUM_GP_REGS
      ensures m.regs[r] == Settled(m.regs, r) == Settled(s.regs, r)
    {
      assert Settled(f.regs, r) == Settled(s.regs, r);
      assert interrupted ==> Settled(Flushed(f).regs, r) == Settled(f.regs, r);
    }
    var s' := StorePart(m, rs, rt, extra, false).cpu;
    StorePartStores(m, rs, rt, extra, false);
    SameAddress(s.regs, m.regs, rs, extra);
    PartsMakeAll(s.mmu, m.mmu, s.mem, m.mem, s'.mem, Address(s.regs, rs, extra), s.regs[rt]);
    StoredThere(s.mmu, s.mem, s'.mem, s.regs, rs, extra, s.regs[rt]);
    ViewTransitive(s.mmu, m.mmu, s'.mmu);
    forall r | 0 <= r < NUM_GP_REGS
      ensures Settled(s'.regs, r) == s'.regs[r] == Settled(s.regs, r)
    {
      assert Settled(s'.regs, r) == Settled(m.regs, r);
    }
  }

  lemma StoredBytesRead(mmu: Mmu, mem: Memory, mem': Memory, mmu': Mmu, base: Word, extra: int, reg: Word, i: nat)
    requires StoredAt(mmu, mem, mem', base, extra, reg) && SameView(mmu, mmu') && i < 4
    ensures VirtualByte(mmu', mem', ByteAddress(base, extra, i)) == Some(EncodeWord(reg)[i])
  {
    hide EncodeWord, ByteAddress;
    var a := ByteAddress(base, extra, i);
    assert Spot(mmu, a).Some? && mem'[Spot(mmu, a).value] == EncodeWord(reg)[i];
    assert Translated(mmu', a, 1, false) == Translated(mmu, a, 1, false);
    WritableIsReadable(mmu, a, 1);
    hide Translated;
  }

  lemma SameWord(v: Word, w: Word)
    requires forall i :: 0 <= i < 4 ==> EncodeWord(v)[i] == EncodeWord(w)[i]
    ensures v == w
  {
    DecodeEncodeWord(v);
    DecodeEncodeWord(w);
    hide EncodeWord;
    assert EncodeWord(v) == EncodeWord(w);
  }

  /** An unaligned store followed by an unaligned load of the same place, into any
      register, gives the register stored. */
  lemma StoreLoadRoundTrip(s: Cpu, rs: nat, rt: nat, extra: int, to: nat, storeInterrupted: bool, loadInterrupted: bool)
    requires RegsOk(s.regs) && rs < NUM_GP_REGS && rt < NUM_GP_REGS && 0 < to < NUM_GP_REGS && (loadInterrupted ==> rs != to)
    requires Settled(s.regs, rs) == s.regs[rs] && Settled(s.regs, rt) == s.regs[rt]
    requires StorePair(s, rs, rt, extra, storeInterrupted).Done?
    ensures var l := LoadPair(StorePair(s, rs, rt, extra, storeInterrupted).cpu, rs, to, extra, loadInterrupted);
      l.Done? && Settled(l.cpu.regs, to) == s.regs[rt]
  {
    hide StorePair, LoadPair, StoredAt, SameView, Settled, EncodeWord, VirtualByte, LoadFrame, ByteAddress;
    var m := StorePair(s, rs, rt, extra, storeInterrupted).cpu;
    StorePairStores(s, rs, rt, extra, storeInterrupted);
    forall i | 0 <= i < 4
      ensures VirtualByte(m.mmu, m.mem, ByteAddress(m.regs[rs], extra, i)) == Some(EncodeWord(s.regs[rt])[i])
    {
      StoredBytesRead(s.mmu, s.mem, m.mem, m.mmu, s.regs[rs], extra, s.regs[rt], i);
    }
    LoadPairCompletes(m, rs, to, extra, loadInterrupted);
    LoadPairLoads(m, rs, to, extra, loadInterrupted);
    SameWord(Settled(LoadPair(m, rs, to, extra, loadInterrupted).cpu.regs, to), s.regs[rt]);
  }

  // ----- one instruction -----

  /** LWL takes the bytes up to its address into the top of the register, LWR those from
      its address on into the bottom, as far as the aligned word goes; the other bytes of
      the register stay. */
  lemma LoadPartMeans(s: Cpu, rs: nat, rt: nat, extra: int, left: bool, i: nat)
    requires RegsOk(s.regs) && rs < NUM_GP_REGS && rt < NUM_GP_REGS && i < 4
    requires LoadPart(s, rs, rt, extra, left).Done?
    ensures var a := (s.regs[rs] + extra) % 0x1_0000_0000;
      var s' := LoadPart(s, rs, rt, extra, left).cpu;
      var w := EncodeWord(s'.regs[LOAD_VALUE_REG]);
      && s'.regs[LOAD_REG] == rt
      && if left && a % 4 + i >= 3 then VirtualByte(s.mmu, s.mem, a - 3 + i) == Some(w[i])
         else if !left && a % 4 + i < 4 then a + i < WORD_LIMIT && VirtualByte(s.mmu, s.mem, a + i) == Some(w[i])
         else w[i] == EncodeWord(if s.regs[LOAD_REG] == rt then s.regs[LOAD_VALUE_REG] else s.regs[rt])[i]
  {
    hide Translated, FromBytes, LoadLeft, LoadRight, EncodeWord, VirtualByte, ReadMem;
    var a := (s.regs[rs] + extra) % 0x1_0000_0000;
    var v := ReadMem(s.mmu, s.mem, a - a % 4, 4).v;
    MergedBytes(if s.regs[LOAD_REG] == rt then s.regs[LOAD_VALUE_REG] else s.regs[rt], v, 3 - a % 4);
    if left && a % 4 + i >= 3 {
      WordBytes(s.mmu, s.mem, a - a % 4, a % 4 + i - 3);
    } else if !left && a % 4 + i < 4 {
      WordBytes(s.mmu, s.mem, a - a % 4, a % 4 + i);
    }
  }

  /** SWL puts the top of the register into the bytes up to its address, SWR the bottom
      into those from its address on, within the aligned word; nothing else is written. */
  lemma StorePartMeans(s: Cpu, rs: nat, rt: nat, extra: int, left: bool)
    requires RegsOk(s.regs) && rs < NUM_GP_REGS && rt < NUM_GP_REGS
    requires StorePart(s, rs, rt, extra, left).Done?
    ensures var a := (s.regs[rs] + extra) % 0x1_0000_0000;
      var mem' := StorePart(s, rs, rt, extra, left).cpu.mem;
      var shift := if left then 3 - a % 4 else -(a % 4);
      Spot(s.mmu, a - a % 4).Some? && AlignedStore(s.mmu, s.mem, mem', a - a % 4, s.regs[rt], shift)
  {
    hide ReadMem, WriteMem, Translated, EncodeWord, StoreLeft, StoreRight, Completed;
    var a: Word := (s.regs[rs] + extra) % 0x1_0000_0000;
    var addr, n := a - a % 4, 3 - a % 4;
    var read := ReadMem(s.mmu, s.mem, addr, 4);
    var value := if left then StoreLeft(read.v, s.regs[rt], n) else StoreRight(read.v, s.regs[rt], n);
    ReadView(s.mmu, s.mem, addr);
    WordWritten(s.mmu, read.mmu, s.mem, addr, value);
    StoreShifts(read.v, s.regs[rt], n);
    hide Shifted, WordReplaced, SameView;
    AlignedStoreIs(s.mmu, s.mem, StorePart(s, rs, rt, extra, left).cpu.mem, addr,
                   Translated(s.mmu, addr, 4, false).phys, read.v, value, s.regs[rt], if left then n else n as int - 3);
  }

  // In the aligned word at addr, byte j is now byte j + shift of reg if there is one.
  ghost predicate AlignedStore(mmu: Mmu, mem: Memory, mem': Memory, addr: Word, reg: Word, shift: int)
    requires Spot(mmu, addr).Some?
  {
    var p := Spot(mmu, addr).value;
    && p + 4 <= MEMORY_SIZE && addr + 3 < WORD_LIMIT
    && forall k :: 0 <= k < MEMORY_SIZE ==>
         mem'[k] == if p <= k < p + 4 && 0 <= k - p + shift < 4 then EncodeWord(reg)[k - p + shift] else mem[k]
  }

  lemma AlignedStoreIs(mmu: Mmu, mem: Memory, mem': Memory, addr: Word, p: nat, value: Word, value': Word, reg: Word,
          shift: int)
    requires WordReplaced(mmu, mem, mem', addr, p, value, value') && Shifted(value, reg, value', shift)
    ensures Spot(mmu, addr) == Some(p) && AlignedStore(mmu, mem, mem', addr, reg, shift)
  {
    hide EncodeWord, Spot;
    assert Place(addr, 0) == addr;
    forall k | 0 <= k < MEMORY_SIZE
      ensures mem'[k] == if p <= k < p + 4 && 0 <= k - p + shift < 4 then EncodeWord(reg)[k - p + shift] else mem[k]
    {
      var j := k - p;
      if 0 <= j < 4 {
        assert EncodeWord(value')[j] == if 0 <= j + shift < 4 then EncodeWord(reg)[j + shift] else EncodeWord(value)[j];
      }
    }
  }

  // The program goes on at the next instruction, and after that in sequence.
  ghost predicate GoesOn(regs: seq<Word>, regs': seq<Word>)
    requires |regs| == |regs'| == NUM_TOTAL_REGS
  {
    && regs'[PREV_PC_REG] == regs[PC_REG] && regs'[PC_REG] == regs[NEXT_PC_REG]
    && regs'[NEXT_PC_REG] == (regs[NEXT_PC_REG] as int + 4) % 0x1_0000_0000
    && regs'[BAD_VADDR_REG] == regs[BAD_VADDR_REG]
  }

  // The program stays at the instruction that failed, at that address; the load in
  // progress is done.
  ghost predicate Stays(regs: seq<Word>, regs': seq<Word>, badAddr: Word)
    requires RegsOk(regs) && RegsOk(regs')
  {
    && regs'[PREV_PC_REG] == regs[PREV_PC_REG] && regs'[PC_REG] == regs[PC_REG]
    && regs'[NEXT_PC_REG] == regs[NEXT_PC_REG]
    && regs'[BAD_VADDR_REG] == badAddr && regs'[LOAD_REG] == 0
    && forall r :: 0 <= r < NUM_GP_REGS ==> regs'[r] == Settled(regs, r)
  }

  /** A completed load or store goes on to the next instruction; one that traps stays,
      with the aligned address it could not use, the exception the translation of that
      address gives, and memory as it was. */
  lemma PartEnds(s: Cpu, rs: nat, rt: nat, extra: int, left: bool, storing: bool)
    requires RegsOk(s.regs) && rs < NUM_GP_REGS && rt < NUM_GP_REGS
    ensures var r := if storing then StorePart(s, rs, rt, extra, left) else LoadPart(s, rs, rt, extra, left);
      var a := (s.regs[rs] + extra) % 0x1_0000_0000;
      var reading, writing := Translated(s.mmu, a - a % 4, 4, false), Translated(s.mmu, a - a % 4, 4, true);
      && (r.Done? <==> reading.Mapped? && (storing ==> writing.Mapped?))
      && (r.Done? ==> GoesOn(s.regs, r.cpu.regs))
      && (r.Trapped? ==> Stays(s.regs, r.cpu.regs, a - a % 4) && r.cpu.mem == s.mem)
      && (r.Trapped? ==> Fault(r.e) == if reading.Fault? then reading else writing)
  {
    hide Translated, FromBytes, ToBytes, LoadLeft, LoadRight, StoreLeft, StoreRight;
    var a: Word := (s.regs[rs] + extra) % 0x1_0000_0000;
    if storing && Translated(s.mmu, a - a % 4, 4, false).Mapped? {
      TouchedTranslates(s.mmu, Translated(s.mmu, a - a % 4, 4, false).slot, false, a - a % 4, 4, true);
    }
  }

  // ----- the machine itself -----

  class Machine {
    const registers: array<Word>
    const mainMemory: array<Byte>
    var mmu: Mmu

    ghost predicate Valid()
      reads this, registers, mainMemory
    {
      && registers.Length == NUM_TOTAL_REGS && mainMemory.Length == MEMORY_SIZE
      && RegsOk(registers[..])
    }

    ghost function State(): Cpu
      requires Valid()
      reads this, registers, mainMemory
    {
      Cpu(registers[..], mainMemory[..], mmu)
    }

    constructor (tables: Mmu)
      ensures Valid() && State() == Cpu(seq(NUM_TOTAL_REGS, _ => 0), seq(MEMORY_SIZE, _ => 0), tables)
      ensures fresh(registers) && fresh(mainMemory)
    {
      registers := new Word[NUM_TOTAL_REGS](_ => 0);
      mainMemory := new Byte[MEMORY_SIZE](_ => 0);
      mmu := tables;
      new;
      assert registers[..] == seq(NUM_TOTAL_REGS, _ => 0);
      assert mainMemory[..] == seq(MEMORY_SIZE, _ => 0);
    }

    method Translate(virtAddr: Word, size: nat, writing: bool) returns (t: Translation)
      requires AccessSize(size)
      modifies `mmu
      ensures t == Translated(old(mmu), virtAddr, size, writing)
      ensures mmu == if t.Mapped? then Touched(old(mmu), t.slot, writing) else old(mmu)
    {
      if (size == 4 && virtAddr % 4 != 0) || (size == 2 && virtAddr % 2 != 0) {
        return Fault(AddressErrorException);
      }
      var vpn, offset := virtAddr / PAGE_SIZE, virtAddr % PAGE_SIZE;
      var entry: nat;
      if mmu.PageTable? {
        if vpn >= |mmu.entries| {
          return Fault(AddressErrorException);
        } else if !mmu.entries[vpn].valid {
          return Fault(PageFaultException);
        }
        entry := vpn;
      } else {
        var i := 0;
        while i < |mmu.entries| && !(mmu.entries[i].valid && mmu.entries[i].virtualPage == vpn)
          invariant i <= |mmu.entries|
          invariant FindTlb(mmu.entries, vpn, 0) == FindTlb(mmu.entries, vpn, i)
        {
          i := i + 1;
        }
        if i == |mmu.entries| {
          return Fault(PageFaultException);
        }
        entry := i;
      }
      if mmu.entries[entry].readOnly && writing {
        return Fault(ReadOnlyException);
      }
      var pageFrame := ToWord(mmu.entries[entry].physicalPage);
      if pageFrame >= NUM_PHYS_PAGES {
        return Fault(BusErrorException);
      }
      TranslateInMemory(mmu, virtAddr, size, writing);
      mmu := Touched(mmu, entry, writing);
      var physAddr := pageFrame * PAGE_SIZE + offset;
      assert physAddr >= 0 && physAddr + size <= MEMORY_SIZE;
      return Mapped(entry, physAddr);
    }

    method DelayedLoad(nextReg: Word, nextValue: Word)
      requires Valid() && nextReg < NUM_GP_REGS
      modifies registers
      ensures Valid() && registers[..] == DelayedLoaded(old(registers[..]), nextReg, nextValue)
    {
      registers[registers[LOAD_REG]] := registers[LOAD_VALUE_REG];
      registers[LOAD_REG] := nextReg;
      registers[LOAD_VALUE_REG] := nextValue;
      registers[0] := 0;
    }

    // Up to the call of the exception handler.
    method RaiseException(badVAddr: Word, e: Exception)
      requires Valid()
      modifies registers
      ensures Valid() && State() == Trap(old(State()), badVAddr, e).cpu
    {
      registers[BAD_VADDR_REG] := badVAddr;
      DelayedLoad(0, 0);
    }

    method Read(addr: Word, size: nat) returns (ok: bool, value: Word)
      requires Valid() && AccessSize(size)
      modifies `mmu, registers
      ensures Valid()
      ensures var r := ReadMem(old(mmu), old(mainMemory[..]), addr, size);
        && ok == r.Value?
        && (ok ==> value == r.v && mmu == r.mmu && registers[..] == old(registers[..]))
        && (!ok ==> State() == Trap(old(State()), addr, r.e).cpu)
    {
      var t := Translate(addr, size, false);
      if t.Fault? {
        RaiseException(addr, t.e);
        return false, 0;
      }
      TranslateInMemory(old(mmu), addr, size, false);
      value := FromBytes(mainMemory[t.phys..t.phys + size]);
      assert mainMemory[t.phys..t.phys + size] == mainMemory[..][t.phys..t.phys + size];
      return true, value;
    }

    method Write(addr: Word, size: nat, value: Word) returns (ok: bool)
      requires Valid() && AccessSize(size)
      modifies `mmu, registers, mainMemory
      ensures Valid()
      ensures var w := WriteMem(old(mmu), old(mainMemory[..]), addr, size, value);
        && ok == w.Stored?
        && (ok ==> mainMemory[..] == w.mem && mmu == w.mmu && registers[..] == old(registers[..]))
        && (!ok ==> State() == Trap(old(State()), addr, w.e).cpu)
    {
      var t := Translate(addr, size, true);
      if t.Fault? {
        RaiseException(addr, t.e);
        return false;
      }
      TranslateInMemory(old(mmu), addr, size, true);
      var bs := ToBytes(value, size);
      forall i | 0 <= i < size {
        mainMemory[t.phys + i] := bs[i];
      }
      assert mainMemory[..] == old(mainMemory[..])[..t.phys] + bs + old(mainMemory[..])[t.phys + size..];
      return true;
    }

    method Complete(nextReg: Word, nextValue: Word)
      requires Valid() && nextReg < NUM_GP_REGS
      modifies registers
      ensures Valid() && registers[..] == Completed(old(registers[..]), nextReg, nextValue)
    {
      var pcAfter := (registers[NEXT_PC_REG] + 4) % WORD_LIMIT;
      DelayedLoad(nextReg, nextValue);
      registers[PREV_PC_REG] := registers[PC_REG];
      registers[PC_REG] := registers[NEXT_PC_REG];
      registers[NEXT_PC_REG] := pcAfter;
    }

    /** LWL (left) and LWR. */
    method LoadUnaligned(rs: nat, rt: nat, extra: int, left: bool) returns (ok: bool)
      requires Valid() && rs < NUM_GP_REGS && rt < NUM_GP_REGS
      modifies this, registers
      ensures Valid() && State() == LoadPart(old(State()), rs, rt, extra, left).cpu
      ensures ok == LoadPart(old(State()), rs, rt, extra, left).Done?
    {
      hide ReadMem, LoadLeft, LoadRight, Completed;
      var tmp: Word := (registers[rs] + extra) % WORD_LIMIT;
      var byte := tmp % 4;
      var value: Word;
      ok, value := Read(tmp - byte, 4);
      if !ok {
        return;
      }
      var nextLoadValue := if registers[LOAD_REG] == rt then registers[LOAD_VALUE_REG] else registers[rt];
      nextLoadValue := if left then LoadLeft(nextLoadValue, value, 3 - byte) else LoadRight(nextLoadValue, value, 3 - byte);
      Complete(rt, nextLoadValue);
    }

    /** SWL (left) and SWR. */
    method StoreUnaligned(rs: nat, rt: nat, extra: int, left: bool) returns (ok: bool)
      requires Valid() && rs < NUM_GP_REGS && rt < NUM_GP_REGS
      modifies this, registers, mainMemory
      ensures Valid() && State() == StorePart(old(State()), rs, rt, extra, left).cpu
      ensures ok == StorePart(old(State()), rs, rt, extra, left).Done?
    {
      hide ReadMem, WriteMem, StoreLeft, StoreRight, Completed;
      var tmp: Word := (registers[rs] + extra) % WORD_LIMIT;
      var byte := tmp % 4;
      var value: Word;
      ok, value := Read(tmp - byte, 4);
      if !ok {
        return;
      }
      value := if left then StoreLeft(value, registers[rt], 3 - byte) else StoreRight(value, registers[rt], 3 - byte);
      ok := Write(tmp - byte, 4, value);
      if !ok {
        return;
      }
      Complete(0, 0);
    }
  }
}
