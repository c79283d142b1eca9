/** What a NachOS disk means: which files it holds, which sectors each one owns,
    and what makes the whole consistent. */
module Volumes {
  import opened Options
  import opened Bytes
  import opened Bitmaps
  import opened Storage
  import opened FileHeaders
  import opened OpenFiles
  import opened Directories

  const FREE_MAP_SECTOR := 0
  const DIRECTORY_SECTOR := 1
  const FREE_MAP_FILE_SIZE := 128    // NumSectors / BitsInByte
  const NUM_DIR_ENTRIES := 10
  const DIRECTORY_FILE_SIZE := 200   // sizeof(DirectoryEntry) * NumDirEntries

  // ----- ownership of sectors -----

  // A file: its header's sector and the header.  Slots 0 and 1 of a layout are the
  // free map and the directory, slot 2+i is entry i of the directory.
  datatype FileSlot = Vacant | Live(sector: int, hdr: Header)

  ghost predicate SoundSlot(f: FileSlot) {
    f.Live? ==> 0 <= f.sector < NUM_SECTORS && Sound(f.hdr) && f.sector !in DataSet(f.hdr)
  }

  ghost function Owned(f: FileSlot): set<int>
    requires SoundSlot(f)
  {
    if f.Vacant? then {} else {f.sector} + DataSet(f.hdr)
  }

  ghost predicate Separate(l: seq<FileSlot>) {
    && (forall k :: 0 <= k < |l| ==> SoundSlot(l[k]))
    && (forall j, k :: 0 <= j < k < |l| ==> Owned(l[j]) !! Owned(l[k]))
  }

  ghost function AllOwned(l: seq<FileSlot>): (s: set<int>)
    requires forall k :: 0 <= k < |l| ==> SoundSlot(l[k])
    ensures forall x :: x in s <==> exists k :: 0 <= k < |l| && x in Owned(l[k])
  {
    set k, x | 0 <= k < |l| && x in Owned(l[k]) :: x
  }

  lemma SeparateFill(l: seq<FileSlot>, k: nat, f: FileSlot)
    requires Separate(l) && k < |l| && l[k].Vacant?
    requires SoundSlot(f) && Owned(f) !! AllOwned(l)
    ensures Separate(l[k := f])
    ensures AllOwned(l[k := f]) == AllOwned(l) + Owned(f)
  {
    VacantOwnsNothing(l[k]);
    hide AllOwned, Owned, SoundSlot;
    var l' := l[k := f];
    forall j | 0 <= j < |l| && j != k
      ensures Owned(l[j]) !! Owned(f)
    {
      assert forall x :: x in Owned(l[j]) ==> x in AllOwned(l);
    }
    forall x
      ensures x in AllOwned(l') <==> x in AllOwned(l) + Owned(f)
    {
      if x in Owned(f) { assert x in Owned(l'[k]); }
      if j :| 0 <= j < |l| && x in Owned(l[j]) { assert x in Owned(l'[j]); }
    }
  }

  lemma VacantOwnsNothing(f: FileSlot)
    requires f.Vacant?
    ensures SoundSlot(f) && Owned(f) == {}
  {
  }

  lemma SeparateVacate(l: seq<FileSlot>, k: nat)
    requires Separate(l) && k < |l|
    ensures Separate(l[k := Vacant])
    ensures AllOwned(l[k := Vacant]) == AllOwned(l) - Owned(l[k])
  {
    hide AllOwned;
    var l' := l[k := Vacant];
    forall x
      ensures x in AllOwned(l') <==> x in AllOwned(l) - Owned(l[k])
    {
      if j :| 0 <= j < |l| && j != k && x in Owned(l[j]) { assert x in Owned(l'[j]); }
    }
  }

  // Sectors a file of this size takes, header included.
  function Cost(numBytes: int): (n: nat) { 1 + Size(DivRoundUp(numBytes, SECTOR_SIZE)) }

  function SlotCost(f: FileSlot): nat {
    if f.Live? then Cost(f.hdr.numBytes) else 0
  }

  function LayoutCost(l: seq<FileSlot>): nat {
    if |l| == 0 then 0 else LayoutCost(l[..|l| - 1]) + SlotCost(l[|l| - 1])
  }

  lemma OwnedSize(f: FileSlot)
    requires SoundSlot(f)
    ensures |Owned(f)| == SlotCost(f)
  {
    if f.Live? { EntriesSize(f.hdr.dataSectors, Size(f.hdr.numSectors)); }
  }

  // Conservation: with no sector shared, the number of sectors in use is the sum
  // of what the files cost.
  lemma {:induction false} OwnedCount(l: seq<FileSlot>)
    requires Separate(l)
    ensures |AllOwned(l)| == LayoutCost(l)
  {
    hide AllOwned, Owned, SoundSlot, SlotCost;
    if |l| > 0 {
      var n := |l| - 1;
      var shorter := l[..n];
      assert Separate(shorter);
      OwnedCount(shorter);
      OwnedSize(l[n]);
      assert AllOwned(shorter) !! Owned(l[n]);
      assert AllOwned(l) == AllOwned(shorter) + Owned(l[n]) by {
        forall x | x in AllOwned(l)
          ensures x in AllOwned(shorter) + Owned(l[n])
        {
          var k :| 0 <= k < |l| && x in Owned(l[k]);
          if k < n { assert x in Owned(shorter[k]); }
        }
      }
    }
  }

  // ----- reading a disk -----

  function HeaderAt(sectors: seq<Sector>, s: int): (h: Header)
    requires 0 <= s < |sectors|
    ensures |h.dataSectors| == NUM_DIRECT
  {
    DecodeHeader(sectors[s])
  }

  // The two well-known headers are in place.
  ghost predicate Mounted(sectors: seq<Sector>) {
    && |sectors| == NUM_SECTORS
    && Sound(HeaderAt(sectors, FREE_MAP_SECTOR)) && HeaderAt(sectors, FREE_MAP_SECTOR).numBytes == FREE_MAP_FILE_SIZE
    && Sound(HeaderAt(sectors, DIRECTORY_SECTOR)) && HeaderAt(sectors, DIRECTORY_SECTOR).numBytes == DIRECTORY_FILE_SIZE
  }

  // The directory and the free map as the files on the disk say.
  ghost function TableOf(sectors: seq<Sector>): (t: Table)
    requires Mounted(sectors)
    ensures |t| == NUM_DIR_ENTRIES
  {
    DecodeTable(FileBytes(sectors, HeaderAt(sectors, DIRECTORY_SECTOR)))
  }

  ghost function MarkedOf(sectors: seq<Sector>): (s: set<int>)
    requires Mounted(sectors)
  {
    MarkedIn(DecodeWords(FileBytes(sectors, HeaderAt(sectors, FREE_MAP_SECTOR))), NUM_SECTORS)
  }

  ghost predicate InRange(t: Table) {
    forall i :: 0 <= i < |t| && t[i].inUse ==> 0 <= t[i].sector < NUM_SECTORS
  }

  ghost predicate DistinctKeys(t: Table) {
    forall i, j :: 0 <= i < j < |t| && t[i].inUse && t[j].inUse ==> KeyOf(t[i]) != KeyOf(t[j])
  }

  ghost function SlotAt(sectors: seq<Sector>, t: Table, k: nat): FileSlot
    requires |sectors| == NUM_SECTORS && InRange(t) && k < 2 + |t|
  {
    if k < 2 then Live(k, HeaderAt(sectors, k))
    else if t[k - 2].inUse then Live(t[k - 2].sector, HeaderAt(sectors, t[k - 2].sector))
    else Vacant
  }

  ghost function Layout(sectors: seq<Sector>, t: Table): (l: seq<FileSlot>)
    requires |sectors| == NUM_SECTORS && InRange(t)
    ensures |l| == 2 + |t|
    ensures forall k :: 0 <= k < |l| ==> l[k] == SlotAt(sectors, t, k)
  {
    seq(2 + |t|, k requires 0 <= k < 2 + |t| => SlotAt(sectors, t, k))
  }

  /** The disk invariant: the marked bits of the on-disk free map are exactly the
      sectors owned by the two metadata files and by each listed file, and no
      sector has two owners. */
  ghost predicate Consistent(sectors: seq<Sector>) {
    && Mounted(sectors)
    && InRange(TableOf(sectors))
    && DistinctKeys(TableOf(sectors))
    && Separate(Layout(sectors, TableOf(sectors)))
    && MarkedOf(sectors) == AllOwned(Layout(sectors, TableOf(sectors)))
  }

  // The bytes of the file with this key, if there is one.
  ghost function Lookup(sectors: seq<Sector>, k: CString): Option<seq<Byte>>
    requires Consistent(sectors)
  {
    var t := TableOf(sectors);
    var i := IndexOf(t, k);
    if i < |t| then
      assert Layout(sectors, t)[2 + i].Live?;
      Some(FileBytes(sectors, HeaderAt(sectors, t[i].sector)))
    else None
  }

  // The sectors of the file with this key.
  ghost function OwnedBy(sectors: seq<Sector>, k: CString): set<int>
    requires Consistent(sectors)
  {
    var t := TableOf(sectors);
    var i := IndexOf(t, k);
    if i < |t| then Owned(Layout(sectors, t)[2 + i]) else {}
  }

  // ----- what an update of the metadata leaves alone -----

  // `now` differs from `was` only in the metadata files' data and in sector s,
  // which no file owns (s may also be no sector at all).
  ghost predicate MetadataWrite(was: seq<Sector>, now: seq<Sector>, s: int)
    requires Consistent(was)
  {
    && |now| == NUM_SECTORS
    && s !in AllOwned(Layout(was, TableOf(was)))
    && forall x :: 0 <= x < NUM_SECTORS && x != s && x !in DataSet(HeaderAt(was, 0)) && x !in DataSet(HeaderAt(was, 1))
         ==> now[x] == was[x]
  }

  lemma SlotSectorKept(was: seq<Sector>, now: seq<Sector>, s: int, k: nat, x: int)
    requires Consistent(was) && MetadataWrite(was, now, s)
    requires k < 2 + NUM_DIR_ENTRIES
    requires var f := Layout(was, TableOf(was))[k];
      f.Live? && (x == f.sector || (k >= 2 && x in DataSet(f.hdr)))
    ensures 0 <= x < NUM_SECTORS && now[x] == was[x]
  {
    hide DecodeTable, DecodeHeader, FileBytes, MarkedIn, AllOwned;
    var l := Layout(was, TableOf(was));
    assert x in Owned(l[k]);
    assert x in AllOwned(l);
    assert SoundSlot(l[0]) && SoundSlot(l[1]);
    if k != 0 { assert Owned(l[0]) !! Owned(l[k]); }
    if k > 1 { assert Owned(l[1]) !! Owned(l[k]); }
    if k == 0 { assert Owned(l[0]) !! Owned(l[1]); }
  }

  // Every file keeps its header, and every file but the two metadata files its bytes.
  lemma SlotKept(was: seq<Sector>, now: seq<Sector>, s: int, k: nat)
    requires Consistent(was) && MetadataWrite(was, now, s)
    requires k < 2 + NUM_DIR_ENTRIES
    requires Layout(was, TableOf(was))[k].Live?
    ensures var f := Layout(was, TableOf(was))[k];
      0 <= f.sector < NUM_SECTORS && HeaderAt(now, f.sector) == f.hdr
      && (k >= 2 ==> Sound(f.hdr) && FileBytes(now, f.hdr) == FileBytes(was, f.hdr))
  {
    var f := Layout(was, TableOf(was))[k];
    SlotSectorKept(was, now, s, k, f.sector);
    if k >= 2 {
      forall x | x in DataSet(f.hdr)
        ensures 0 <= x < NUM_SECTORS && now[x] == was[x]
      {
        SlotSectorKept(was, now, s, k, x);
      }
      OtherFileUnchanged(now, was, f.hdr);
    }
  }

  // The layout after a file was put into entry i of the directory ...
  lemma LayoutFilled(was: seq<Sector>, now: seq<Sector>, s: int, i: nat, h: Header, t: Table, t': Table)
    requires Consistent(was) && MetadataWrite(was, now, s) && t == TableOf(was)
    requires i < |t| == |t'| && !t[i].inUse && t' == t[i := t'[i]] && t'[i].inUse && t'[i].sector == s
    requires 0 <= s < NUM_SECTORS && HeaderAt(now, s) == h
    ensures InRange(t) && InRange(t') && Layout(now, t') == Layout(was, t)[2 + i := Live(s, h)]
  {
    hide DecodeTable, DecodeHeader, FileBytes, MarkedIn, KeyOf, Entries, Sound, Separate, AllOwned, Owned;
    forall k | 0 <= k < 2 + NUM_DIR_ENTRIES && k != 2 + i
      ensures SlotAt(now, t', k) == SlotAt(was, t, k)
    {
      if Layout(was, t)[k].Live? { SlotKept(was, now, s, k); }
    }
  }

  // ... and after entry i was vacated.
  lemma LayoutVacated(was: seq<Sector>, now: seq<Sector>, i: nat)
    requires Consistent(was) && MetadataWrite(was, now, -1)
    requires i < NUM_DIR_ENTRIES
    ensures var t := TableOf(was);
      InRange(t[i := t[i].(inUse := false)])
      && Layout(now, t[i := t[i].(inUse := false)]) == Layout(was, t)[2 + i := Vacant]
  {
    hide DecodeTable, DecodeHeader, FileBytes, MarkedIn, KeyOf, Entries, Sound, Separate, AllOwned, Owned;
    var t := TableOf(was);
    var t' := t[i := t[i].(inUse := false)];
    forall k | 0 <= k < 2 + NUM_DIR_ENTRIES && k != 2 + i
      ensures SlotAt(now, t', k) == SlotAt(was, t, k)
    {
      if Layout(was, t)[k].Live? { SlotKept(was, now, -1, k); }
    }
  }

  // The metadata files stay mounted.
  lemma StillMounted(was: seq<Sector>, now: seq<Sector>, s: int)
    requires Consistent(was) && MetadataWrite(was, now, s)
    ensures HeaderAt(now, 0) == HeaderAt(was, 0) && HeaderAt(now, 1) == HeaderAt(was, 1)
    ensures Mounted(now)
  {
    SlotKept(was, now, s, 0);
    SlotKept(was, now, s, 1);
  }

  // Live entries are found under their own key.
  lemma IndexOfLive(t: Table, i: nat)
    requires DistinctKeys(t) && i < |t| && t[i].inUse
    ensures IndexOf(t, KeyOf(t[i])) == i
  {
  }

  lemma IndexOfElsewhere(t: Table, i: nat, e: DirectoryEntry, k: CString)
    requires i < |t| && WellSized(e)
    requires t[i].inUse ==> KeyOf(t[i]) != k
    requires e.inUse ==> KeyOf(e) != k
    ensures IndexOf(t[i := e], k) == IndexOf(t, k)
  {
    hide IndexOf;
    var a, b := IndexOf(t, k), IndexOf(t[i := e], k);
    assert a < |t| ==> t[i := e][a] == t[a];
    assert b < |t| ==> t[i := e][b] == t[b];
  }

  lemma LookupKept(was: seq<Sector>, now: seq<Sector>, s: int, i: nat, e: DirectoryEntry, k: CString)
    requires Consistent(was) && MetadataWrite(was, now, s) && Consistent(now)
    requires i < NUM_DIR_ENTRIES && WellSized(e) && TableOf(now) == TableOf(was)[i := e]
    requires TableOf(was)[i].inUse ==> KeyOf(TableOf(was)[i]) != k
    requires e.inUse ==> KeyOf(e) != k
    ensures Lookup(now, k) == Lookup(was, k)
    ensures OwnedBy(now, k) == OwnedBy(was, k)
  {
    hide DecodeTable, DecodeHeader, FileBytes, MarkedIn, KeyOf, Entries, AllOwned, IndexOf, Separate, Owned;
    var t := TableOf(was);
    IndexOfElsewhere(t, i, e, k);
    var j := IndexOf(t, k);
    if j < |t| {
      assert j != i;
      assert Layout(was, t)[2 + j].Live?;
      SlotKept(was, now, s, 2 + j);
    }
  }

  /** Filling entry i with a new file keeps the disk consistent. */
  lemma ConsistentAfterFill(was: seq<Sector>, now: seq<Sector>, s: int, i: nat, e: DirectoryEntry, h: Header)
    requires Consistent(was) && MetadataWrite(was, now, s)
    requires i < NUM_DIR_ENTRIES && !TableOf(was)[i].inUse
    requires e.inUse && e.sector == s && WellSized(e)
    requires IndexOf(TableOf(was), KeyOf(e)) == NUM_DIR_ENTRIES
    requires SoundSlot(Live(s, h)) && HeaderAt(now, s) == h
    requires Owned(Live(s, h)) !! MarkedOf(was)
    requires Mounted(now) && TableOf(now) == TableOf(was)[i := e]
    requires MarkedOf(now) == MarkedOf(was) + Owned(Live(s, h))
    ensures Consistent(now)
    ensures Lookup(now, KeyOf(e)) == Some(FileBytes(now, h))
    ensures OwnedBy(now, KeyOf(e)) == Owned(Live(s, h))
    ensures forall k: CString :: k != KeyOf(e) ==> Lookup(now, k) == Lookup(was, k)
  {
    hide DecodeTable, DecodeHeader, FileBytes, MarkedIn, KeyOf, Entries, AllOwned, IndexOf, Separate, Owned, Sound;
    var t := TableOf(was);
    LayoutFilled(was, now, s, i, h, t, TableOf(now));
    SeparateFill(Layout(was, t), 2 + i, Live(s, h));
    assert Consistent(now);
    IndexOfLive(TableOf(now), i);
    forall k: CString | k != KeyOf(e)
      ensures Lookup(now, k) == Lookup(was, k)
    {
      LookupKept(was, now, s, i, e, k);
    }
  }

  /** So does vacating entry i. */
  lemma ConsistentAfterVacate(was: seq<Sector>, now: seq<Sector>, i: nat)
    requires Consistent(was) && MetadataWrite(was, now, -1)
    requires i < NUM_DIR_ENTRIES && TableOf(was)[i].inUse
    requires Mounted(now) && TableOf(now) == TableOf(was)[i := TableOf(was)[i].(inUse := false)]
    requires MarkedOf(now) == MarkedOf(was) - Owned(Layout(was, TableOf(was))[2 + i])
    ensures Consistent(now)
    ensures Lookup(now, KeyOf(TableOf(was)[i])).None?
    ensures forall k: CString :: k != KeyOf(TableOf(was)[i]) ==> Lookup(now, k) == Lookup(was, k)
  {
    hide DecodeTable, DecodeHeader, FileBytes, MarkedIn, KeyOf, Entries, AllOwned, IndexOf, Separate, Owned, Sound;
    var t := TableOf(was);
    LayoutVacated(was, now, i);
    SeparateVacate(Layout(was, t), 2 + i);
    assert Consistent(now);
    forall k: CString | k != KeyOf(t[i])
      ensures Lookup(now, k) == Lookup(was, k)
    {
      LookupKept(was, now, -1, i, t[i].(inUse := false), k);
    }
  }
}
