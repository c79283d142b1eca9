/** Whole runs of the file system, from a disk with unknown contents. */
module FileSystemRuns {
  import opened Options
  import opened Bytes
  import opened Bitmaps
  import opened Storage
  import opened FileHeaders
  import opened OpenFiles
  import opened Directories
  import opened Volumes
  import opened FileSystems

  datatype Op =
    | Create(name: CString, size: Int32)
    | Remove(name: CString)
    | Write(name: CString, from: seq<Byte>, position: nat)
    | Read(name: CString, numBytes: nat, position: nat)

  const EMPTY_SLOTS: seq<Slot> := seq(NUM_DIR_ENTRIES, _ => Unused)

  // Create takes its caller's word that a header can describe the file.
  predicate Legal(slots: seq<Slot>, op: Op) {
    op.Create? ==> !CannotDescribe(slots, Key(op.name), op.size)
  }

  function SpecStep(slots: seq<Slot>, op: Op): (seq<Slot>, bool) {
    match op
    case Create(name, size) => SpecCreate(slots, Key(name), size)
    case Remove(name) => SpecRemove(slots, Key(name))
    case Write(name, _, _) => (slots, SpecFind(slots, Key(name)) < |slots|)
    case Read(name, _, _) => (slots, SpecFind(slots, Key(name)) < |slots|)
  }

  function SpecRun(slots: seq<Slot>, ops: seq<Op>): (seq<Slot>, seq<bool>) {
    if |ops| == 0 then (slots, [])
    else
      var (before, results) := SpecRun(slots, ops[..|ops| - 1]);
      var (after, ok) := SpecStep(before, ops[|ops| - 1]);
      (after, results + [ok])
  }

  // ----- the contents of the files -----

  type Files = map<CString, seq<Byte>>

  // The disk holds these files and no others.
  ghost predicate Holds(sectors: seq<Sector>, files: Files)
    requires Consistent(sectors)
  {
    forall k: CString :: Lookup(sectors, k) == if k in files then Some(files[k]) else None
  }

  // A file after a write at position: every byte the write covers is new, and no other.
  function Written(was: seq<Byte>, from: seq<Byte>, position: nat): seq<Byte> {
    seq(|was|, i requires 0 <= i < |was| => if position <= i < position + |from| then from[i - position] else was[i])
  }

  // That is what WriteAt does with the n bytes that fit.
  lemma WrittenIs(was: seq<Byte>, from: seq<Byte>, position: nat, n: nat)
    requires |from| == 0 || position >= |was| ==> n == 0
    requires |from| > 0 && position < |was| ==> n == if |from| <= |was| - position then |from| else |was| - position
    ensures Written(was, from, position) == if n > 0 then Splice(was, position, from[..n]) else was
  {
  }

  // The bytes of a file from position on, numBytes of them if there are that many.
  function Slice(was: seq<Byte>, numBytes: nat, position: nat): seq<Byte> {
    if position >= |was| then []
    else if numBytes <= |was| - position then was[position..position + numBytes]
    else was[position..]
  }

  // What an operation does to the files.  A new file's bytes are whatever its sectors
  // held, so they are a parameter.
  function FilesStep(files: Files, op: Op, ok: bool, newBytes: seq<Byte>): Files {
    if !ok then files
    else match op
      case Create(name, _) => files[Key(name) := newBytes]
      case Remove(name) => files - {Key(name)}
      case Write(name, from, position) =>
        if Key(name) in files then files[Key(name) := Written(files[Key(name)], from, position)] else files
      case Read(_, _, _) => files
  }

  // What a read answers.
  function FilesRead(files: Files, op: Op): seq<Byte> {
    if op.Read? && Key(op.name) in files then Slice(files[Key(op.name)], op.numBytes, op.position) else []
  }

  function FilesRun(ops: seq<Op>, results: seq<bool>, newBytes: seq<seq<Byte>>): Files
    requires |ops| == |results| == |newBytes|
  {
    if ops == [] then map[]
    else
      var n := |ops| - 1;
      FilesStep(FilesRun(ops[..n], results[..n], newBytes[..n]), ops[n], results[n], newBytes[n])
  }

  // A key is in some slot exactly when a file can be looked up under it.
  lemma ListedIsFound(sectors: seq<Sector>, k: CString)
    requires Consistent(sectors)
    ensures SpecFind(SlotsOf(sectors), k) < |SlotsOf(sectors)| <==> Lookup(sectors, k).Some?
  {
    hide SpecFind, SlotsOf, FileBytes, DecodeTable, IndexOf, DecodeHeader, MarkedIn;
    SlotsMatchTable(sectors, k);
  }

  // Open a file by its name and write to it.
  method WriteNamed(fs: FileSystem, name: CString, from: seq<Byte>, position: nat, undefined: Table)
    returns (ok: bool)
    requires fs.Valid() && |undefined| == NUM_DIR_ENTRIES
    modifies fs.disk
    ensures fs.Valid() && SlotsOf(fs.disk.sectors) == old(SlotsOf(fs.disk.sectors))
    ensures ok <==> old(Lookup(fs.disk.sectors, Key(name)).Some?)
    ensures ok ==>
      Lookup(fs.disk.sectors, Key(name)) == Some(Written(old(Lookup(fs.disk.sectors, Key(name)).value), from, position))
    ensures forall k: CString :: k != Key(name) || !ok ==>
      Lookup(fs.disk.sectors, k) == old(Lookup(fs.disk.sectors, k))
  {
    hide Consistent, SlotsOf, Key, FileBytes, MarkedIn, DecodeTable, Lookup, MarkedOf, IsHeaderOf, Written, Splice;
    var file := fs.Open(name, undefined);
    ok := file != null;
    if file != null {
      ghost var was := Lookup(fs.disk.sectors, Key(name)).value;
      var n := fs.WriteOpened(file, name, from, |from|, position);
      WrittenIs(was, from, position, n);
    }
  }

  // Open a file by its name and read from it.
  method ReadNamed(fs: FileSystem, name: CString, numBytes: nat, position: nat, undefined: Table)
    returns (ok: bool, bytes: seq<Byte>)
    requires fs.Valid() && |undefined| == NUM_DIR_ENTRIES
    ensures ok <==> Lookup(fs.disk.sectors, Key(name)).Some?
    ensures bytes == if ok then Slice(Lookup(fs.disk.sectors, Key(name)).value, numBytes, position) else []
  {
    hide Consistent, Key, FileBytes, MarkedIn, DecodeTable, Lookup, IsHeaderOf;
    var file := fs.Open(name, undefined);
    ok, bytes := file != null, [];
    if file != null {
      var into := new Byte[numBytes](_ => 0);
      var n := file.ReadAt(into, 0, numBytes, position);
      bytes := into[..n];
    }
  }

  method Apply(fs: FileSystem, op: Op, undefined: Table, ghost files: Files)
    returns (ok: bool, bytes: seq<Byte>, ghost newBytes: seq<Byte>)
    requires fs.Valid() && Legal(SlotsOf(fs.disk.sectors), op) && |undefined| == NUM_DIR_ENTRIES
    requires Holds(fs.disk.sectors, files)
    modifies fs.disk
    ensures fs.Valid()
    ensures (SlotsOf(fs.disk.sectors), ok) == SpecStep(old(SlotsOf(fs.disk.sectors)), op)
    ensures Holds(fs.disk.sectors, FilesStep(files, op, ok, newBytes))
    ensures bytes == FilesRead(files, op)
    ensures op.Create? && ok ==> |newBytes| == Size(op.size)
  {
    hide Consistent, SlotsOf, SpecCreate, SpecRemove, SpecFind, Key, FileBytes, MarkedIn, DecodeTable;
    hide Lookup, Written, Slice, MarkedOf, OwnedBy;
    bytes, newBytes := [], [];
    ListedIsFound(fs.disk.sectors, Key(op.name));
    match op {
      case Create(name, size) =>
        ok := fs.Create(name, size, undefined);
        if ok { newBytes := Lookup(fs.disk.sectors, Key(name)).value; }
      case Remove(name) =>
        ok := fs.Remove(name, undefined);
      case Write(name, from, position) =>
        ok := WriteNamed(fs, name, from, position, undefined);
      case Read(name, numBytes, position) =>
        ok, bytes := ReadNamed(fs, name, numBytes, position, undefined);
    }
  }

  lemma EmptyHolds(sectors: seq<Sector>)
    requires Consistent(sectors) && SlotsOf(sectors) == EMPTY_SLOTS
    ensures Holds(sectors, map[])
  {
    hide Consistent, SlotsOf, Lookup;
    forall k: CString
      ensures Lookup(sectors, k).None?
    {
      ListedIsFound(sectors, k);
    }
  }

  // What the reads of a run answered, and how long its new files are.
  ghost predicate Answered(ops: seq<Op>, results: seq<bool>, newBytes: seq<seq<Byte>>, answers: seq<seq<Byte>>) {
    && |ops| == |results| == |newBytes| == |answers|
    && (forall i :: 0 <= i < |ops| ==> answers[i] == FilesRead(FilesRun(ops[..i], results[..i], newBytes[..i]), ops[i]))
    && (forall i :: 0 <= i < |ops| && ops[i].Create? && results[i] ==> |newBytes[i]| == Size(ops[i].size))
  }

  lemma FilesRunMore(ops: seq<Op>, results: seq<bool>, newBytes: seq<seq<Byte>>, op: Op, ok: bool, created: seq<Byte>)
    requires |ops| == |results| == |newBytes|
    ensures FilesRun(ops + [op], results + [ok], newBytes + [created])
         == FilesStep(FilesRun(ops, results, newBytes), op, ok, created)
  {
    hide FilesStep;
    var n := |ops|;
    assert (ops + [op])[..n] == ops && (results + [ok])[..n] == results && (newBytes + [created])[..n] == newBytes;
  }

  lemma AnsweredMore(ops: seq<Op>, results: seq<bool>, newBytes: seq<seq<Byte>>, answers: seq<seq<Byte>>,
                     op: Op, ok: bool, created: seq<Byte>, bytes: seq<Byte>)
    requires Answered(ops, results, newBytes, answers)
    requires bytes == FilesRead(FilesRun(ops, results, newBytes), op)
    requires op.Create? && ok ==> |created| == Size(op.size)
    ensures Answered(ops + [op], results + [ok], newBytes + [created], answers + [bytes])
  {
    hide FilesRead, FilesRun;
    var ops', results', newBytes' := ops + [op], results + [ok], newBytes + [created];
    forall i | 0 <= i < |ops'|
      ensures (answers + [bytes])[i] == FilesRead(FilesRun(ops'[..i], results'[..i], newBytes'[..i]), ops'[i])
    {
      assert ops'[..i] == ops[..i] && results'[..i] == results[..i] && newBytes'[..i] == newBytes[..i];
      if i == |ops| {
        assert ops[..i] == ops && results[..i] == results && newBytes[..i] == newBytes;
      }
    }
  }

  /** Formatting and then any sequence of operations: the volume is consistent at the
      end; which operations succeed is exactly what the table of slots says; every read
      answers what the writes before it left in the file, and so do the files at the end. */
  method Replay(store: SectorStore, ops: seq<Op>, undefined: Table)
    returns (fs: FileSystem, results: seq<bool>, answers: seq<seq<Byte>>, ghost newBytes: seq<seq<Byte>>)
    requires store.Valid() && |undefined| == NUM_DIR_ENTRIES
    requires forall i :: 0 <= i < |ops| ==> Legal(SpecRun(EMPTY_SLOTS, ops[..i]).0, ops[i])
    modifies store
    ensures fs.Valid() && fs.disk == store
    ensures (SlotsOf(store.sectors), results) == SpecRun(EMPTY_SLOTS, ops)
    ensures |MarkedOf(store.sectors)| == 5 + Used(SpecRun(EMPTY_SLOTS, ops).0)
    ensures Answered(ops, results, newBytes, answers)
    ensures Holds(store.sectors, FilesRun(ops, results, newBytes))
  {
    hide Consistent, SlotsOf, SpecStep, Used, FileBytes, MarkedIn, DecodeTable, Holds, Answered, FilesRun, FilesStep;
    fs := new FileSystem.Format(store, undefined);
    results, answers, newBytes := [], [], [];
    EmptyHolds(store.sectors);
    NothingYet();
    for i := 0 to |ops|
      invariant fs.Valid() && fs.disk == store
      invariant (SlotsOf(store.sectors), results) == SpecRun(EMPTY_SLOTS, ops[..i])
      invariant Answered(ops[..i], results, newBytes, answers)
      invariant |results| == |newBytes| == i
      invariant Holds(store.sectors, FilesRun(ops[..i], results, newBytes))
    {
      assert ops[..i + 1] == ops[..i] + [ops[i]] && ops[..i + 1][..i] == ops[..i];
      var ok, bytes;
      ghost var created;
      ok, bytes, created := Apply(fs, ops[i], undefined, FilesRun(ops[..i], results, newBytes));
      FilesRunMore(ops[..i], results, newBytes, ops[i], ok, created);
      AnsweredMore(ops[..i], results, newBytes, answers, ops[i], ok, created, bytes);
      results, answers, newBytes := results + [ok], answers + [bytes], newBytes + [created];
    }
    assert ops[..|ops|] == ops;
    MarkedCount(store.sectors);
  }

  lemma NothingYet()
    ensures Answered([], [], [], []) && FilesRun([], [], []) == map[]
  {
  }

  /** Create followed by Remove of the same name restores the free-sector set and
      everything that can be looked up. */
  method CreateThenRemove(fs: FileSystem, name: CString, size: Int32, undefined: Table) returns (created: bool)
    requires fs.Valid() && |undefined| == NUM_DIR_ENTRIES
    requires !CannotDescribe(SlotsOf(fs.disk.sectors), Key(name), size)
    modifies fs.disk
    ensures fs.Valid()
    ensures created ==> Lookup(old(fs.disk.sectors), Key(name)).None?
    ensures MarkedOf(fs.disk.sectors) == old(MarkedOf(fs.disk.sectors))
    ensures SlotsOf(fs.disk.sectors) == old(SlotsOf(fs.disk.sectors))
    ensures forall k: CString :: Lookup(fs.disk.sectors, k) == old(Lookup(fs.disk.sectors, k))
  {
    hide Consistent, SlotsOf, SpecFind, SpecFree, Used, FileBytes, MarkedIn, DecodeTable, Key, Lookup, OwnedBy;
    ghost var slots := SlotsOf(fs.disk.sectors);
    created := fs.Create(name, size, undefined);
    if created {
      CreateRemoveSlots(slots, Key(name), size);
      var removed := fs.Remove(name, undefined);
    }
  }

  lemma CreateRemoveSlots(slots: seq<Slot>, k: CString, size: int)
    requires SpecCreate(slots, k, size).1
    ensures SpecRemove(SpecCreate(slots, k, size).0, k) == (slots, true)
  {
    hide SpecFind, SpecFree, Used;
    var i := SpecFree(slots);
    var after := slots[i := Named(k, size)];
    assert after[i].key == k;
    assert forall j :: 0 <= j < |slots| && j != i ==> after[j] == slots[j];
    assert SpecFind(after, k) == i;
    assert slots[i] == Unused && after[i := Unused] == slots;
  }

  // The budget is never overdrawn.
  lemma {:induction false} BudgetKept(ops: seq<Op>)
    ensures |SpecRun(EMPTY_SLOTS, ops).0| == NUM_DIR_ENTRIES
    ensures Used(SpecRun(EMPTY_SLOTS, ops).0) <= BUDGET
  {
    if |ops| == 0 {
      NothingUsed(EMPTY_SLOTS);
    } else {
      var before := ops[..|ops| - 1];
      BudgetKept(before);
      var slots, op := SpecRun(EMPTY_SLOTS, before).0, ops[|ops| - 1];
      if op.Create? && SpecFree(slots) < |slots| {
        UsedAfter(slots, SpecFree(slots), Named(Key(op.name), op.size));
      }
      if op.Remove? && SpecFind(slots, Key(op.name)) < |slots| {
        UsedAfter(slots, SpecFind(slots, Key(op.name)), Unused);
      }
    }
  }

  lemma {:induction false} NothingUsed(slots: seq<Slot>)
    requires forall i :: 0 <= i < |slots| ==> slots[i].Unused?
    ensures Used(slots) == 0
  {
    if |slots| > 0 { NothingUsed(slots[..|slots| - 1]); }
  }
}
