/** filesys/directory.cc: the table of file names, kept on disk as an ordinary
    file that holds the raw bytes of the table. */
module Directories {
  import opened Bytes
  import opened Storage
  import opened FileHeaders
  import opened OpenFiles

  const FILE_NAME_MAX_LEN := 9
  const ENTRY_SIZE := 20  // sizeof(DirectoryEntry): bool, 3 pad, int, char[10], 2 pad

  // A C string without its terminating zero.
  type CString = s: seq<Byte> | forall i :: 0 <= i < |s| ==> s[i] != 0

  function CharAt(s: seq<Byte>, i: nat): Byte {
    if i < |s| then s[i] else 0
  }

  // strncmp(a, b, n) == 0, looking at the characters from index i on.
  predicate StrnEqual(a: seq<Byte>, b: seq<Byte>, i: nat, n: nat)
    decreases n - i
  {
    i >= n || (CharAt(a, i) == CharAt(b, i) && (CharAt(a, i) == 0 || StrnEqual(a, b, i + 1, n)))
  }

  // strncpy(old, name, 9) into a char[10]: pads with zeros, never touches byte 9.
  function StrnCopy(old_: seq<Byte>, name: CString): (r: seq<Byte>)
    requires |old_| == FILE_NAME_MAX_LEN + 1
    ensures |r| == |old_|
  {
    seq(FILE_NAME_MAX_LEN, i requires 0 <= i < FILE_NAME_MAX_LEN => CharAt(name, i)) + [old_[9]]
  }

  // The part of a file name that the directory can tell apart.
  function Key(name: CString): (k: CString) {
    if |name| <= FILE_NAME_MAX_LEN then name else name[..FILE_NAME_MAX_LEN]
  }

  // The characters before the first zero, at most n of them.
  function CutAtZero(a: seq<Byte>, n: nat): (k: CString)
    ensures |k| <= n
  {
    if n == 0 || |a| == 0 || a[0] == 0 then [] else [a[0]] + CutAtZero(a[1..], n - 1)
  }

  lemma {:induction false} StrnEqualIsCut(a: seq<Byte>, name: CString, i: nat)
    requires i <= |Key(name)| && FILE_NAME_MAX_LEN <= |a|
    ensures StrnEqual(a, name, i, FILE_NAME_MAX_LEN)
       <==> CutAtZero(a[i..], FILE_NAME_MAX_LEN - i) == Key(name)[i..]
    decreases FILE_NAME_MAX_LEN - i
  {
    var cut := CutAtZero(a[i..], FILE_NAME_MAX_LEN - i);
    if i < FILE_NAME_MAX_LEN {
      var equal := StrnEqual(a, name, i, FILE_NAME_MAX_LEN);
      assert i < |Key(name)| <==> i < |name|;
      if a[i] == 0 {
        assert cut == [] && (equal <==> i >= |name|);
      } else {
        assert a[i..][1..] == a[i + 1..];
        assert cut == [a[i]] + CutAtZero(a[i + 1..], FILE_NAME_MAX_LEN - i - 1);
        if a[i] == CharAt(name, i) {
          StrnEqualIsCut(a, name, i + 1);
          assert equal <==> StrnEqual(a, name, i + 1, FILE_NAME_MAX_LEN);
          assert Key(name)[i..] == [Key(name)[i]] + Key(name)[i + 1..];
        } else {
          assert !equal && (i < |Key(name)| ==> cut[0] != Key(name)[i..][0]);
        }
      }
    }
  }

  lemma {:induction false} CutOfCopy(old_: seq<Byte>, name: CString, i: nat)
    requires |old_| == FILE_NAME_MAX_LEN + 1 && i <= |Key(name)|
    ensures CutAtZero(StrnCopy(old_, name)[i..], FILE_NAME_MAX_LEN - i) == Key(name)[i..]
    decreases FILE_NAME_MAX_LEN - i
  {
    var a := StrnCopy(old_, name);
    if i < |Key(name)| {
      CutOfCopy(old_, name, i + 1);
      assert a[i..][1..] == a[i + 1..] && a[i] == Key(name)[i];
      assert Key(name)[i..] == [Key(name)[i]] + Key(name)[i + 1..];
    }
  }

  datatype DirectoryEntry = DirectoryEntry(inUse: bool, sector: Int32, name: seq<Byte>)

  predicate WellSized(e: DirectoryEntry) { |e.name| == FILE_NAME_MAX_LEN + 1 }

  function KeyOf(e: DirectoryEntry): CString { CutAtZero(e.name, FILE_NAME_MAX_LEN) }

  // The directory's comparison looks at keys only, and Add stores the key.
  lemma NamesMatch(e: DirectoryEntry, name: CString)
    requires WellSized(e)
    ensures StrnEqual(e.name, name, 0, FILE_NAME_MAX_LEN) <==> KeyOf(e) == Key(name)
  {
    StrnEqualIsCut(e.name, name, 0);
    assert e.name[0..] == e.name && Key(name)[0..] == Key(name);
  }

  lemma CopiedName(e: DirectoryEntry, sector: Int32, name: CString)
    requires WellSized(e)
    ensures KeyOf(DirectoryEntry(true, sector, StrnCopy(e.name, name))) == Key(name)
  {
    var copy := StrnCopy(e.name, name);
    CutOfCopy(e.name, name, 0);
    assert copy[0..] == copy && Key(name)[0..] == Key(name);
  }

  type Table = t: seq<DirectoryEntry> | forall i :: 0 <= i < |t| ==> WellSized(t[i])

  // The memory image of an entry; the padding bytes are written as zeros.
  function EncodeEntry(e: DirectoryEntry): (bs: seq<Byte>)
    requires WellSized(e)
    ensures |bs| == ENTRY_SIZE
  {
    [if e.inUse then 1 else 0, 0, 0, 0] + EncodeWord(ToWord(e.sector)) + e.name + [0, 0]
  }

  function DecodeEntry(bs: seq<Byte>): (e: DirectoryEntry)
    requires |bs| == ENTRY_SIZE
    ensures WellSized(e)
  {
    DirectoryEntry(bs[0] != 0, ToInt32(DecodeWord(bs, 4)), bs[8..18])
  }

  lemma DecodeEncodeEntry(e: DirectoryEntry)
    requires WellSized(e)
    ensures DecodeEntry(EncodeEntry(e)) == e
    ensures (EncodeEntry(e)[0] == if e.inUse then 1 else 0) && DecodeWord(EncodeEntry(e), 4) == ToWord(e.sector)
    ensures EncodeEntry(e)[8..18] == e.name
  {
    var bs, w := EncodeEntry(e), EncodeWord(ToWord(e.sector));
    DecodeEncodeWord(ToWord(e.sector));
    assert bs[4] == w[0] && bs[5] == w[1] && bs[6] == w[2] && bs[7] == w[3];
    assert bs[8..18] == e.name;
  }

  function EncodeTable(t: Table): (bs: seq<Byte>)
    ensures |bs| == ENTRY_SIZE * |t|
  {
    if |t| == 0 then [] else EncodeEntry(t[0]) + EncodeTable(t[1..])
  }

  function DecodeTable(bs: seq<Byte>): (t: Table)
    ensures |t| == |bs| / ENTRY_SIZE
  {
    if |bs| < ENTRY_SIZE then [] else [DecodeEntry(bs[..ENTRY_SIZE])] + DecodeTable(bs[ENTRY_SIZE..])
  }

  lemma {:induction false} DecodeEncodeTable(t: Table)
    ensures DecodeTable(EncodeTable(t)) == t
  {
    if |t| > 0 {
      var bs := EncodeTable(t);
      assert bs[..ENTRY_SIZE] == EncodeEntry(t[0]);
      assert bs[ENTRY_SIZE..] == EncodeTable(t[1..]);
      DecodeEncodeEntry(t[0]);
      DecodeEncodeTable(t[1..]);
    }
  }

  // The first live entry with this key, and the first unused entry; |t| if none.
  function IndexOf(t: seq<DirectoryEntry>, k: CString): (i: nat)
    ensures i <= |t|
    ensures i < |t| ==> t[i].inUse && KeyOf(t[i]) == k
    ensures forall j :: 0 <= j < i ==> !(t[j].inUse && KeyOf(t[j]) == k)
  {
    if |t| == 0 || (t[0].inUse && KeyOf(t[0]) == k) then 0 else 1 + IndexOf(t[1..], k)
  }

  function FreeSlot(t: seq<DirectoryEntry>): (i: nat)
    ensures i <= |t|
    ensures i < |t| ==> !t[i].inUse
    ensures forall j :: 0 <= j < i ==> t[j].inUse
  {
    if |t| == 0 || !t[0].inUse then 0 else 1 + FreeSlot(t[1..])
  }

  class Directory {
    var table: Table

    constructor (size: nat, undefined: Table)
      requires |undefined| == size
      ensures |table| == size
      ensures forall i :: 0 <= i < size ==> table[i] == undefined[i].(inUse := false)
    {
      table := seq(size, i requires 0 <= i < size => undefined[i].(inUse := false));
    }

    method FetchFrom(file: OpenFile)
      requires file.Valid() && file.hdr.numBytes == ENTRY_SIZE * |table|
      modifies this
      ensures table == DecodeTable(file.Contents())
    {
      hide FileBytes, DecodeTable;
      var image := new Byte[ENTRY_SIZE * |table|](_ => 0);
      var n := file.ReadAt(image, 0, ENTRY_SIZE * |table|, 0);
      assert image[..] == file.Contents();
      table := DecodeTable(image[..]);
    }

    method WriteBack(file: OpenFile)
      requires file.Valid() && file.hdr.numBytes == ENTRY_SIZE * |table|
      modifies file.disk
      ensures file.Valid() && DecodeTable(file.Contents()) == table
      ensures forall s :: 0 <= s < NUM_SECTORS && s !in DataSet(file.hdr.Value()) ==>
        file.disk.sectors[s] == old(file.disk.sectors[s])
    {
      hide FileBytes, DecodeTable, EncodeTable;
      var image := EncodeTable(table);
      DecodeEncodeTable(table);
      var n := file.WriteAt(image, |image|, 0);
      assert image[..|image|] == image;
      assert file.Contents() == image;
    }

    method FindIndex(name: CString) returns (r: int)
      ensures IndexOf(table, Key(name)) == |table| ==> r == -1
      ensures IndexOf(table, Key(name)) < |table| ==> r == IndexOf(table, Key(name))
    {
      hide CutAtZero, StrnEqual, IndexOf;
      for i := 0 to |table|
        invariant i <= IndexOf(table, Key(name))
      {
        NamesMatch(table[i], name);
        if table[i].inUse && StrnEqual(table[i].name, name, 0, FILE_NAME_MAX_LEN) {
          return i;
        }
      }
      r := -1;
    }

    method Find(name: CString) returns (sector: int)
      ensures IndexOf(table, Key(name)) == |table| ==> sector == -1
      ensures IndexOf(table, Key(name)) < |table| ==> sector == table[IndexOf(table, Key(name))].sector
    {
      hide CutAtZero, IndexOf, Key;
      var i := FindIndex(name);
      sector := if i != -1 then table[i].sector else -1;
    }

    method Add(name: CString, newSector: Int32) returns (ok: bool)
      modifies this
      ensures ok <==> IndexOf(old(table), Key(name)) == |old(table)| && FreeSlot(old(table)) < |old(table)|
      ensures !ok ==> table == old(table)
      ensures |table| == |old(table)|
      ensures ok ==> var i := FreeSlot(old(table));
        table == old(table)[i := DirectoryEntry(true, newSector, table[i].name)] && KeyOf(table[i]) == Key(name)
    {
      hide CutAtZero, StrnCopy, IndexOf, FreeSlot, Key;
      var found := FindIndex(name);
      if found != -1 {
        return false;
      }
      for i := 0 to |table|
        invariant table == old(table) && i <= FreeSlot(table)
      {
        if !table[i].inUse {
          var copy := StrnCopy(table[i].name, name);
          CopiedName(table[i], newSector, name);
          table := table[i := DirectoryEntry(true, newSector, copy)];
          return true;
        }
      }
      ok := false;
    }

    method Remove(name: CString) returns (ok: bool)
      modifies this
      ensures ok <==> IndexOf(old(table), Key(name)) < |old(table)|
      ensures !ok ==> table == old(table)
      ensures ok ==> var i := IndexOf(old(table), Key(name));
        table == old(table)[i := old(table)[i].(inUse := false)]
    {
      hide CutAtZero, IndexOf, Key;
      var i := FindIndex(name);
      if i == -1 {
        return false;
      }
      table := table[i := table[i].(inUse := false)];
      ok := true;
    }
  }
}
