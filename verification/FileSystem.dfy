/** filesys/filesys.cc: formatting, Create, Open and Remove, as a refinement of a
    table of ten (name, size) slots with a budget of 1019 sectors. */
module FileSystems {
  import opened Options
  import opened Bytes
  import opened Bitmaps
  import opened Storage
  import opened FileHeaders
  import opened OpenFiles
  import opened Directories
  import opened Volumes
  import PersistentBitmaps

  // ----- the specification -----

  datatype Slot = Unused | Named(key: CString, size: int)

  // Sectors left once the two metadata files have theirs.
  const BUDGET := 1019

  ghost function SlotsOf(sectors: seq<Sector>): (slots: seq<Slot>)
    requires Consistent(sectors)
    ensures |slots| == NUM_DIR_ENTRIES
  {
    var t := TableOf(sectors);
    seq(NUM_DIR_ENTRIES, i requires 0 <= i < NUM_DIR_ENTRIES => SlotView(Layout(sectors, t)[2 + i], t[i]))
  }

  function SlotView(f: FileSlot, e: DirectoryEntry): Slot {
    if f.Live? then Named(KeyOf(e), f.hdr.numBytes) else Unused
  }

  function SpecFind(slots: seq<Slot>, k: CString): (i: nat)
    ensures i <= |slots|
    ensures i < |slots| ==> slots[i].Named? && slots[i].key == k
    ensures forall j :: 0 <= j < i ==> !(slots[j].Named? && slots[j].key == k)
  {
    if |slots| == 0 || (slots[0].Named? && slots[0].key == k) then 0 else 1 + SpecFind(slots[1..], k)
  }

  function SpecFree(slots: seq<Slot>): (i: nat)
    ensures i <= |slots|
    ensures i < |slots| ==> slots[i].Unused?
    ensures forall j :: 0 <= j < i ==> slots[j].Named?
  {
    if |slots| == 0 || slots[0].Unused? then 0 else 1 + SpecFree(slots[1..])
  }

  function SlotSectors(s: Slot): nat { if s.Named? then Cost(s.size) else 0 }

  function Used(slots: seq<Slot>): nat {
    if |slots| == 0 then 0 else Used(slots[..|slots| - 1]) + SlotSectors(slots[|slots| - 1])
  }

  // Create succeeds exactly when the key is new, a slot is free and the budget
  // still covers the header and the data.
  function SpecCreate(slots: seq<Slot>, k: CString, size: int): (r: (seq<Slot>, bool))
    ensures r.1 <==>
      && (forall i :: 0 <= i < |slots| && slots[i].Named? ==> slots[i].key != k)
      && (exists i :: 0 <= i < |slots| && slots[i].Unused?)
      && Used(slots) + Cost(size) <= BUDGET
    ensures r.1 ==> exists i :: 0 <= i < |slots| && slots[i].Unused? && r.0 == slots[i := Named(k, size)]
    ensures !r.1 ==> r.0 == slots
  {
    if SpecFind(slots, k) == |slots| && SpecFree(slots) < |slots| && Used(slots) + Cost(size) <= BUDGET
    then (slots[SpecFree(slots) := Named(k, size)], true)
    else (slots, false)
  }

  // Create would go ahead although the file has more sectors than a header can list:
  // Allocate would then write past the end of its table.
  predicate CannotDescribe(slots: seq<Slot>, k: CString, size: int) {
    size > MAX_FILE_SIZE && SpecCreate(slots, k, size).1
  }

  function SpecRemove(slots: seq<Slot>, k: CString): (r: (seq<Slot>, bool))
    ensures r.1 <==> exists i :: 0 <= i < |slots| && slots[i].Named? && slots[i].key == k
    ensures r.1 ==> exists i :: 0 <= i < |slots| && slots[i].Named? && slots[i].key == k && r.0 == slots[i := Unused]
    ensures !r.1 ==> r.0 == slots
  {
    if SpecFind(slots, k) < |slots| then (slots[SpecFind(slots, k) := Unused], true) else (slots, false)
  }

  // ----- the disk and the specification agree -----

  lemma SlotsMatchTable(sectors: seq<Sector>, k: CString)
    requires Consistent(sectors)
    ensures SpecFind(SlotsOf(sectors), k) == IndexOf(TableOf(sectors), k)
    ensures SpecFree(SlotsOf(sectors)) == FreeSlot(TableOf(sectors))
  {
    hide IndexOf, SpecFind, FreeSlot, SpecFree, DecodeTable, DecodeHeader, FileBytes, MarkedIn, KeyOf, Entries,
            AllOwned, Owned;
    var t, slots := TableOf(sectors), SlotsOf(sectors);
    forall i | 0 <= i < NUM_DIR_ENTRIES
      ensures slots[i].Named? <==> t[i].inUse
      ensures slots[i].Named? ==> slots[i].key == KeyOf(t[i])
    {
      assert SoundSlot(Layout(sectors, t)[2 + i]);
    }
  }

  lemma CostOfMetadata(l: seq<FileSlot>)
    requires |l| >= 2 && l[0].Live? && l[1].Live?
    requires l[0].hdr.numBytes == FREE_MAP_FILE_SIZE && l[1].hdr.numBytes == DIRECTORY_FILE_SIZE
    ensures LayoutCost(l[..2]) == 5
  {
    assert l[..2][..1] == l[..1] && l[..1][..0] == [];
    assert LayoutCost(l[..1]) == SlotCost(l[0]) && LayoutCost(l[..2]) == LayoutCost(l[..1]) + SlotCost(l[1]);
    assert SlotCost(l[0]) == Cost(128) && SlotCost(l[1]) == Cost(200);
  }

  lemma {:induction false} CostOfPrefix(l: seq<FileSlot>, slots: seq<Slot>, n: nat)
    requires |l| == 2 + |slots| && n <= |slots|
    requires LayoutCost(l[..2]) == 5
    requires forall i :: 0 <= i < |slots| ==> SlotSectors(slots[i]) == SlotCost(l[2 + i])
    ensures LayoutCost(l[..2 + n]) == 5 + Used(slots[..n])
  {
    hide SlotSectors, SlotCost;
    if n > 0 {
      assert l[..2 + n][..1 + n] == l[..1 + n] && slots[..n][..n - 1] == slots[..n - 1];
      CostOfPrefix(l, slots, n - 1);
    }
  }

  /** Conservation: the number of marked sectors is 5 plus what the listed files cost. */
  lemma MarkedCount(sectors: seq<Sector>)
    requires Consistent(sectors)
    ensures |MarkedOf(sectors)| == 5 + Used(SlotsOf(sectors))
  {
    var l, slots := Layout(sectors, TableOf(sectors)), SlotsOf(sectors);
    OwnedCount(l);
    CostOfMetadata(l);
    CostOfPrefix(l, slots, NUM_DIR_ENTRIES);
    assert l[..2 + NUM_DIR_ENTRIES] == l && slots[..NUM_DIR_ENTRIES] == slots;
  }

  // Replacing one slot changes what is used by the difference.
  lemma {:induction false} UsedAfter(slots: seq<Slot>, i: nat, s: Slot)
    requires i < |slots|
    ensures Used(slots[i := s]) == Used(slots) - SlotSectors(slots[i]) + SlotSectors(s)
  {
    var n := |slots| - 1;
    if i == n {
      assert slots[i := s][..n] == slots[..n];
    } else {
      UsedAfter(slots[..n], i, s);
      assert slots[i := s][..n] == slots[..n][i := s];
    }
  }

  // Disks that differ only in the data of one file.
  ghost predicate SameOutside(now: seq<Sector>, was: seq<Sector>, h: Header)
    requires h.numSectors <= |h.dataSectors|
  {
    && |now| == |was| == NUM_SECTORS
    && forall s :: 0 <= s < NUM_SECTORS && s !in DataSet(h) ==> now[s] == was[s]
  }

  // The metadata files occupy different sectors, and neither of them a header sector.
  lemma MetadataApart(sectors: seq<Sector>)
    requires Consistent(sectors)
    ensures var h0, h1 := HeaderAt(sectors, 0), HeaderAt(sectors, 1);
      Sound(h0) && Sound(h1) && DataSet(h0) !! DataSet(h1)
      && (forall s :: s in DataSet(h0) ==> 0 <= s < NUM_SECTORS)
      && (forall s :: s in DataSet(h1) ==> 0 <= s < NUM_SECTORS)
  {
    hide DecodeTable, DecodeHeader, FileBytes, MarkedIn, KeyOf, AllOwned;
    var l := Layout(sectors, TableOf(sectors));
    assert SoundSlot(l[0]) && SoundSlot(l[1]) && Owned(l[0]) !! Owned(l[1]);
  }

  lemma SectorSetKeeps(was: seq<Sector>, s: int, image: Sector)
    requires Consistent(was) && 0 <= s < NUM_SECTORS && s !in MarkedOf(was)
    ensures MetadataWrite(was, was[s := image], s)
  {
  }

  // One more metadata file rewritten.
  lemma MetadataWriteMore(was: seq<Sector>, mid: seq<Sector>, now: seq<Sector>, s: int, k: nat)
    requires Consistent(was) && MetadataWrite(was, mid, s) && k < 2
    requires SameOutside(now, mid, HeaderAt(was, k))
    ensures MetadataWrite(was, now, s)
    ensures 0 <= s < NUM_SECTORS ==> now[s] == mid[s]
  {
    hide DecodeTable, DecodeHeader, FileBytes, MarkedIn, KeyOf, Entries, AllOwned;
    var l := Layout(was, TableOf(was));
    assert SoundSlot(l[k]);
  }

  lemma SlotsAfterFill(was: seq<Sector>, now: seq<Sector>, s: int, i: nat, e: DirectoryEntry, h: Header)
    requires Consistent(was) && MetadataWrite(was, now, s) && Consistent(now)
    requires i < NUM_DIR_ENTRIES && !TableOf(was)[i].inUse
    requires e.inUse && e.sector == s && WellSized(e)
    requires 0 <= s < NUM_SECTORS && HeaderAt(now, s) == h && Sound(h)
    requires TableOf(now) == TableOf(was)[i := e]
    ensures SlotsOf(now) == SlotsOf(was)[i := Named(KeyOf(e), h.numBytes)]
  {
    hide DecodeTable, DecodeHeader, FileBytes, MarkedIn, KeyOf, Entries, AllOwned, Owned;
    LayoutFilled(was, now, s, i, h, TableOf(was), TableOf(now));
  }

  lemma SlotsAfterVacate(was: seq<Sector>, now: seq<Sector>, i: nat)
    requires Consistent(was) && MetadataWrite(was, now, -1) && Consistent(now)
    requires i < NUM_DIR_ENTRIES
    requires TableOf(now) == TableOf(was)[i := TableOf(was)[i].(inUse := false)]
    ensures SlotsOf(now) == SlotsOf(was)[i := Unused]
  {
    hide DecodeTable, DecodeHeader, FileBytes, MarkedIn, KeyOf, Entries, AllOwned, Owned;
    LayoutVacated(was, now, i);
  }

  // The file k is new, of this size and on sectors that were free; nothing else
  // that can be looked up has changed.
  ghost predicate Created(was: seq<Sector>, now: seq<Sector>, k: CString, size: int) {
    && Consistent(was) && Consistent(now)
    && Lookup(was, k).None? && Lookup(now, k).Some? && |Lookup(now, k).value| == Size(size)
    && OwnedBy(now, k) !! MarkedOf(was) && MarkedOf(now) == MarkedOf(was) + OwnedBy(now, k)
    && forall k': CString :: k' != k ==> Lookup(now, k') == Lookup(was, k')
  }

  // ... and it is in directory slot i.
  ghost predicate FilledSlot(was: seq<Sector>, now: seq<Sector>, i: nat, k: CString, size: int) {
    && Created(was, now, k, size)
    && i < NUM_DIR_ENTRIES && SlotsOf(now) == SlotsOf(was)[i := Named(k, size)]
  }

  // The table in memory is the one on disk with a new entry e in the free slot i.
  ghost predicate Entered(table: Table, t: Table, i: nat, e: DirectoryEntry, sector: int)
    requires WellSized(e)
  {
    && i < NUM_DIR_ENTRIES && |t| == NUM_DIR_ENTRIES
    && !t[i].inUse && table == t[i := e] && e.inUse && e.sector == sector
    && IndexOf(t, KeyOf(e)) == NUM_DIR_ENTRIES
  }

  // The file k is gone and its sectors are free again; nothing else has changed.
  ghost predicate Removed(was: seq<Sector>, now: seq<Sector>, k: CString) {
    && Consistent(was) && Consistent(now)
    && Lookup(was, k).Some? && Lookup(now, k).None?
    && MarkedOf(now) == MarkedOf(was) - OwnedBy(was, k)
    && forall k': CString :: k' != k ==> Lookup(now, k') == Lookup(was, k')
  }

  lemma EnteredByAdd(t: Table, table: Table, k: CString, sector: Int32)
    requires |t| == NUM_DIR_ENTRIES && FreeSlot(t) < |t| && IndexOf(t, k) == |t|
    requires |table| == |t| && table == t[FreeSlot(t) := DirectoryEntry(true, sector, table[FreeSlot(t)].name)]
    requires KeyOf(table[FreeSlot(t)]) == k
    ensures Entered(table, t, FreeSlot(t), table[FreeSlot(t)], sector)
  {
    hide IndexOf, KeyOf;
  }

  lemma FilledMeans(was: seq<Sector>, now: seq<Sector>, i: nat, k: CString, size: int)
    requires FilledSlot(was, now, i, k, size)
    ensures Consistent(was) && Consistent(now) && i < NUM_DIR_ENTRIES
    ensures SlotsOf(now) == SlotsOf(was)[i := Named(k, size)] && Created(was, now, k, size)
  {
    hide Consistent, SlotsOf, Lookup, OwnedBy, MarkedOf;
  }

  lemma FullSize(marked: set<int>)
    requires marked == Upto(NUM_SECTORS)
    ensures |marked| == NUM_SECTORS
  {
  }

  // What Create should do with a key that is new, in terms of the disk.
  lemma SpecCreateAbsent(was: seq<Sector>, k: CString, size: int)
    requires Consistent(was) && IndexOf(TableOf(was), k) == NUM_DIR_ENTRIES
    ensures var slots, i := SlotsOf(was), FreeSlot(TableOf(was));
      SpecCreate(slots, k, size) ==
        if i < NUM_DIR_ENTRIES && |MarkedOf(was)| + Cost(size) <= NUM_SECTORS
        then (slots[i := Named(k, size)], true) else (slots, false)
    ensures Mounted(was) && |TableOf(was)| == NUM_DIR_ENTRIES && Cost(size) >= 1
  {
    hide IndexOf, FreeSlot, SlotsOf, SpecFind, SpecFree, Used, MarkedOf, TableOf;
    MountedFacts(was, k);
    hide Consistent, Mounted;
    SlotsMatchTable(was, k);
    MarkedCount(was);
  }


  class FileSystem {
    const disk: SectorStore
    const freeMapFile: OpenFile
    const directoryFile: OpenFile

    ghost predicate MetadataOpen()
      reads this, disk, freeMapFile, directoryFile, freeMapFile.hdr, directoryFile.hdr
    {
      && disk.Valid() && Mounted(disk.sectors)
      && freeMapFile.disk == disk && freeMapFile.hdr.Value() == HeaderAt(disk.sectors, FREE_MAP_SECTOR)
      && directoryFile.disk == disk && directoryFile.hdr.Value() == HeaderAt(disk.sectors, DIRECTORY_SECTOR)
    }

    ghost predicate Valid()
      reads this, disk, freeMapFile, directoryFile, freeMapFile.hdr, directoryFile.hdr
    {
      MetadataOpen() && Consistent(disk.sectors)
    }

    // FileSystem(FALSE): mount a disk that already holds a consistent volume.
    constructor Mount(store: SectorStore)
      requires store.Valid() && Consistent(store.sectors)
      ensures Valid() && disk == store && fresh(freeMapFile) && fresh(directoryFile)
    {
      disk := store;
      freeMapFile := new OpenFile(store, FREE_MAP_SECTOR);
      directoryFile := new OpenFile(store, DIRECTORY_SECTOR);
    }

    // `new Directory(NumDirEntries)` and FetchFrom, as every operation starts.
    method ReadDirectory(undefined: Table) returns (directory: Directory)
      requires Valid() && |undefined| == NUM_DIR_ENTRIES
      ensures fresh(directory) && directory.table == TableOf(disk.sectors)
    {
      hide DecodeTable, FileBytes, Consistent;
      directory := new Directory(NUM_DIR_ENTRIES, undefined);
      directory.FetchFrom(directoryFile);
    }

    // `new PersistentBitmap(freeMapFile, NumSectors)`.
    method ReadFreeMap() returns (freeMap: Bitmap)
      requires Valid()
      ensures fresh(freeMap) && fresh(freeMap.map_)
      ensures freeMap.Valid() && freeMap.numBits == NUM_SECTORS && freeMap.Marked() == MarkedOf(disk.sectors)
    {
      hide MarkedIn, DecodeWords, FileBytes, Consistent;
      freeMap := new Bitmap(NUM_SECTORS);
      PersistentBitmaps.FetchFrom(freeMap, freeMapFile);
    }

    // The last three steps of Create, once everything has worked out.
    method CommitCreate(directory: Directory, freeMap: Bitmap, hdr: FileHeader, sector: int, ghost i: nat,
            ghost e: DirectoryEntry)
      requires Valid()
      requires WellSized(e) && Entered(directory.table, TableOf(disk.sectors), i, e, sector)
      requires SoundSlot(Live(sector, hdr.Value()))
      requires 0 <= sector < NUM_SECTORS
      requires Owned(Live(sector, hdr.Value())) !! MarkedOf(disk.sectors)
      requires freeMap.Valid() && freeMap.numBits == NUM_SECTORS
      requires freeMap.Marked() == MarkedOf(disk.sectors) + Owned(Live(sector, hdr.Value()))
      requires hdr != freeMapFile.hdr && hdr != directoryFile.hdr
      modifies disk
      ensures Valid()
      ensures FilledSlot(old(disk.sectors), disk.sectors, i, KeyOf(e), hdr.numBytes)
    {
      hide DecodeTable, DecodeHeader, EncodeHeader, FileBytes, MarkedIn, KeyOf, Entries, DecodeWords;
      hide Consistent, AllOwned, Owned, IndexOf, Layout, SoundSlot, OwnedBy, SlotsOf;
      ghost var was, h := disk.sectors, hdr.Value();
      MetadataApart(was);
      OwnedParts(sector, h);
      hdr.WriteBack(disk, sector);
      ghost var s1 := disk.sectors;
      DecodeEncodeHeader(h);
      SectorSetKeeps(was, sector, EncodeHeader(h));
      directory.WriteBack(directoryFile);
      ghost var s2 := disk.sectors;
      MetadataWriteMore(was, s1, s2, sector, 1);
      PersistentBitmaps.WriteBack(freeMap, freeMapFile);
      ghost var s3 := disk.sectors;
      MetadataWriteMore(was, s2, s3, sector, 0);
      OtherFileUnchanged(s3, s2, HeaderAt(was, 1));
      StillMounted(was, s3, sector);
      ConsistentAfterFill(was, s3, sector, i, e, h);
      SlotsAfterFill(was, s3, sector, i, e, h);
    }

    // A header for the new file, with its data sectors.
    static method NewHeader(freeMap: Bitmap, sector: int, initialSize: Int32, ghost marked: set<int>)
      returns (hdr: FileHeader, success: bool)
      requires initialSize <= MAX_FILE_SIZE || |marked| + Cost(initialSize) > NUM_SECTORS
      requires 0 <= sector < NUM_SECTORS && sector !in marked
      requires freeMap.Valid() && freeMap.numBits == NUM_SECTORS && freeMap.Marked() == marked + {sector}
      modifies freeMap.map_
      ensures fresh(hdr) && freeMap.Valid()
      ensures success <==> |marked| + Cost(initialSize) <= NUM_SECTORS
      ensures success ==> SoundSlot(Live(sector, hdr.Value())) && hdr.numBytes == initialSize
      ensures success ==> Owned(Live(sector, hdr.Value())) !! marked
      ensures success ==> freeMap.Marked() == marked + Owned(Live(sector, hdr.Value()))
    {
      hide MarkedIn, Entries, Sound;
      assert |marked + {sector}| == |marked| + 1;
      AtMost(freeMap.Marked(), NUM_SECTORS);
      hdr := new FileHeader(seq(NUM_DIRECT, _ => 0));
      success := hdr.Allocate(freeMap, initialSize);
      if success {
        NewFileSlot(sector, hdr.Value(), marked);
        hide SoundSlot, Owned;
      }
    }

    // Create from the allocation of the data blocks on; the header's sector is set
    // aside in the free map and the name is in the directory.
    method StoreNewFile(directory: Directory, freeMap: Bitmap, sector: int, initialSize: Int32, ghost i: nat,
            ghost e: DirectoryEntry)
      returns (success: bool)
      requires Valid()
      requires initialSize <= MAX_FILE_SIZE || |MarkedOf(disk.sectors)| + Cost(initialSize) > NUM_SECTORS
      requires WellSized(e) && Entered(directory.table, TableOf(disk.sectors), i, e, sector)
      requires 0 <= sector < NUM_SECTORS && sector !in MarkedOf(disk.sectors)
      requires freeMap.Valid() && freeMap.numBits == NUM_SECTORS
      requires freeMap.Marked() == MarkedOf(disk.sectors) + {sector}
      modifies disk, freeMap.map_
      ensures Valid()
      ensures success <==> |old(MarkedOf(disk.sectors))| + Cost(initialSize) <= NUM_SECTORS
      ensures !success ==> disk.sectors == old(disk.sectors)
      ensures success ==> FilledSlot(old(disk.sectors), disk.sectors, i, KeyOf(e), initialSize)
    {
      hide DecodeTable, DecodeHeader, FileBytes, MarkedIn, KeyOf, Entries, DecodeWords;
      hide Consistent, Mounted, AllOwned, Owned, IndexOf, Layout, SoundSlot, SlotsOf, FilledSlot, Entered;
      var hdr;
      hdr, success := NewHeader(freeMap, sector, initialSize, MarkedOf(disk.sectors));
      if success {
        CommitCreate(directory, freeMap, hdr, sector, i, e);
      }
    }

    // The first half of formatting: sectors for the two metadata files.  Both
    // ASSERTs on Allocate hold.
    static method ReserveMetadata() returns (freeMap: Bitmap, mapHdr: FileHeader, dirHdr: FileHeader)
      ensures fresh(freeMap) && fresh(freeMap.map_) && fresh(mapHdr) && fresh(dirHdr) && mapHdr != dirHdr
      ensures freeMap.Valid() && freeMap.numBits == NUM_SECTORS
      ensures Sound(mapHdr.Value()) && mapHdr.numBytes == FREE_MAP_FILE_SIZE
      ensures Sound(dirHdr.Value()) && dirHdr.numBytes == DIRECTORY_FILE_SIZE
      ensures DataSet(mapHdr.Value()) !! {0, 1}
      ensures DataSet(dirHdr.Value()) !! {0, 1} + DataSet(mapHdr.Value())
      ensures freeMap.Marked() == {0, 1} + DataSet(mapHdr.Value()) + DataSet(dirHdr.Value())
    {
      hide MarkedIn, Entries;
      freeMap := new Bitmap(NUM_SECTORS);
      mapHdr := new FileHeader(seq(NUM_DIRECT, _ => 0));
      dirHdr := new FileHeader(seq(NUM_DIRECT, _ => 0));
      freeMap.Mark(FREE_MAP_SECTOR);
      freeMap.Mark(DIRECTORY_SECTOR);
      assert freeMap.Marked() == {0, 1};
      var ok := mapHdr.Allocate(freeMap, FREE_MAP_FILE_SIZE);
      assert ok;
      EntriesSize(mapHdr.dataSectors, Size(mapHdr.numSectors));
      ok := dirHdr.Allocate(freeMap, DIRECTORY_FILE_SIZE);
      assert ok;
    }

    // FileSystem(TRUE): nothing is known about the disk.
    constructor Format(store: SectorStore, undefined: Table)
      requires store.Valid() && |undefined| == NUM_DIR_ENTRIES
      modifies store
      ensures Valid() && disk == store && fresh(freeMapFile) && fresh(directoryFile)
      ensures SlotsOf(disk.sectors) == seq(NUM_DIR_ENTRIES, _ => Unused)
    {
      hide DecodeTable, DecodeHeader, EncodeHeader, FileBytes, MarkedIn, Entries, DecodeWords;
      hide Consistent, SlotsOf;
      var freeMap, mapHdr, dirHdr := ReserveMetadata();
      var directory := new Directory(NUM_DIR_ENTRIES, undefined);
      ghost var h0, h1 := mapHdr.Value(), dirHdr.Value();
      mapHdr.WriteBack(store, FREE_MAP_SECTOR);
      dirHdr.WriteBack(store, DIRECTORY_SECTOR);
      DecodeEncodeHeader(h0);
      DecodeEncodeHeader(h1);
      var mapFile := new OpenFile(store, FREE_MAP_SECTOR);
      var dirFile := new OpenFile(store, DIRECTORY_SECTOR);
      ghost var s2 := store.sectors;
      PersistentBitmaps.WriteBack(freeMap, mapFile);
      ghost var s3 := store.sectors;
      directory.WriteBack(dirFile);
      DataSetInRange(h0);
      OtherFileUnchanged(store.sectors, s3, h0);
      FreshVolume(store.sectors, h0, h1, directory.table);
      disk, freeMapFile, directoryFile := store, mapFile, dirFile;
    }

    method Create(name: CString, initialSize: Int32, undefined: Table) returns (success: bool)
      requires Valid()
      requires !CannotDescribe(SlotsOf(disk.sectors), Key(name), initialSize)
      requires |undefined| == NUM_DIR_ENTRIES
      modifies disk
      ensures Valid()
      ensures (SlotsOf(disk.sectors), success) == SpecCreate(old(SlotsOf(disk.sectors)), Key(name), initialSize)
      ensures !success ==> disk.sectors == old(disk.sectors)
      ensures success ==> Created(old(disk.sectors), disk.sectors, Key(name), initialSize)
    {
      hide DecodeTable, DecodeHeader, FileBytes, MarkedIn, Key, KeyOf, Entries, DecodeWords;
      hide Consistent, Mounted, AllOwned, IndexOf, SlotsOf, SpecFind, SpecFree, Used, Created, InRange;
      ghost var was := disk.sectors;
      MountedFacts(was, Key(name));
      SlotsMatchTable(was, Key(name));
      var directory := ReadDirectory(undefined);
      var found := directory.Find(name);
      if found != -1 {
        success := false;  // file is already in directory
      } else {
        SpecCreateAbsent(was, Key(name), initialSize);
        success := CreateAbsent(name, initialSize, directory);
        if success {
          FilledMeans(was, disk.sectors, FreeSlot(TableOf(was)), Key(name), initialSize);
        }
      }
    }

    // The else branch of Create.
    method CreateAbsent(name: CString, initialSize: Int32, directory: Directory) returns (success: bool)
      requires Valid()
      requires initialSize <= MAX_FILE_SIZE || FreeSlot(TableOf(disk.sectors)) == NUM_DIR_ENTRIES
               || |MarkedOf(disk.sectors)| + Cost(initialSize) > NUM_SECTORS
      requires directory.table == TableOf(disk.sectors)
      requires IndexOf(TableOf(disk.sectors), Key(name)) == NUM_DIR_ENTRIES
      modifies disk, directory
      ensures Valid()
      ensures success <==> old(FreeSlot(TableOf(disk.sectors)) < NUM_DIR_ENTRIES
                               && |MarkedOf(disk.sectors)| + Cost(initialSize) <= NUM_SECTORS)
      ensures !success ==> disk.sectors == old(disk.sectors)
      ensures success ==>
        FilledSlot(old(disk.sectors), disk.sectors, old(FreeSlot(TableOf(disk.sectors))), Key(name), initialSize)
    {
      hide DecodeTable, DecodeHeader, FileBytes, MarkedIn, Key, KeyOf, Entries, DecodeWords, FilledSlot, Entered;
      hide Consistent, Mounted, AllOwned, IndexOf, FreeSlot, MarkedOf, TableOf;
      var freeMap := ReadFreeMap();
      var sector := freeMap.FindAndSet();
      if sector == -1 {
        FullSize(freeMap.Marked());
        return false;  // no free block for the header
      }
      success := CreateEntry(name, initialSize, directory, freeMap, sector);
    }

    // Create from the directory entry on; the header has its sector.
    method CreateEntry(name: CString, initialSize: Int32, directory: Directory, freeMap: Bitmap, sector: Int32)
      returns (success: bool)
      requires Valid()
      requires initialSize <= MAX_FILE_SIZE || FreeSlot(TableOf(disk.sectors)) == NUM_DIR_ENTRIES
               || |MarkedOf(disk.sectors)| + Cost(initialSize) > NUM_SECTORS
      requires directory.table == TableOf(disk.sectors)
      requires IndexOf(TableOf(disk.sectors), Key(name)) == NUM_DIR_ENTRIES
      requires 0 <= sector < NUM_SECTORS && sector !in MarkedOf(disk.sectors)
      requires freeMap.Valid() && freeMap.numBits == NUM_SECTORS
      requires freeMap.Marked() == MarkedOf(disk.sectors) + {sector as int}
      modifies disk, directory, freeMap.map_
      ensures Valid()
      ensures success <==> old(FreeSlot(TableOf(disk.sectors)) < NUM_DIR_ENTRIES
                               && |MarkedOf(disk.sectors)| + Cost(initialSize) <= NUM_SECTORS)
      ensures !success ==> disk.sectors == old(disk.sectors)
      ensures success ==>
        FilledSlot(old(disk.sectors), disk.sectors, old(FreeSlot(TableOf(disk.sectors))), Key(name), initialSize)
    {
      hide DecodeTable, DecodeHeader, FileBytes, MarkedIn, Key, KeyOf, Entries, DecodeWords, FilledSlot, Entered;
      hide Consistent, Mounted, AllOwned, IndexOf, FreeSlot, MarkedOf, TableOf, Cost;
      ghost var t := directory.table;
      var added := directory.Add(name, sector);
      if !added {
        return false;  // no space in directory
      }
      ghost var i := FreeSlot(t);
      EnteredByAdd(t, directory.table, Key(name), sector);
      success := StoreNewFile(directory, freeMap, sector, initialSize, i, directory.table[i]);
    }

    method Open(name: CString, undefined: Table) returns (file: OpenFile?)
      requires Valid()
      requires |undefined| == NUM_DIR_ENTRIES
      ensures file == null <==> Lookup(disk.sectors, Key(name)).None?
      ensures file != null ==> fresh(file) && fresh(file.hdr) && file.disk == disk && file.seekPosition == 0
      ensures file != null ==> file.Valid() && file.Contents() == Lookup(disk.sectors, Key(name)).value
      ensures file != null ==> IsHeaderOf(disk.sectors, Key(name), file.hdr.Value())
    {
      hide DecodeTable, DecodeHeader, FileBytes, MarkedIn, Key, KeyOf, Entries, DecodeWords;
      hide Consistent, Mounted, AllOwned, SlotsOf, InRange, Owned;
      MountedFacts(disk.sectors, Key(name));
      var directory := ReadDirectory(undefined);
      var sector := directory.Find(name);
      if sector >= 0 {
        LiveFileFacts(disk.sectors, IndexOf(TableOf(disk.sectors), Key(name)));
        file := new OpenFile(disk, sector);
      } else {
        file := null;
      }
    }

    // A file that was opened by name and is still listed: writing to it changes
    // that file's bytes and nothing else on the volume.
    method WriteOpened(file: OpenFile, name: CString, from: seq<Byte>, numBytes: int, position: nat) returns (n: nat)
      requires Valid()
      requires file.disk == disk && IsHeaderOf(disk.sectors, Key(name), file.hdr.Value())
      requires numBytes <= |from|
      modifies disk
      ensures Valid()
      ensures SlotsOf(disk.sectors) == old(SlotsOf(disk.sectors))
      ensures MarkedOf(disk.sectors) == old(MarkedOf(disk.sectors))
      ensures IsHeaderOf(disk.sectors, Key(name), file.hdr.Value())
      ensures var was := old(Lookup(disk.sectors, Key(name)).value);
        && (numBytes <= 0 || position >= |was| ==> n == 0)
        && (numBytes > 0 && position < |was| ==>
              n == if numBytes <= |was| - position then numBytes else |was| - position)
        && Lookup(disk.sectors, Key(name)) == Some(if n > 0 then Splice(was, position, from[..n]) else was)
      ensures forall k: CString :: k != Key(name) ==> Lookup(disk.sectors, k) == old(Lookup(disk.sectors, k))
    {
      hide DecodeTable, DecodeHeader, FileBytes, MarkedIn, Key, KeyOf, Entries, DecodeWords;
      hide Consistent, AllOwned, SlotsOf, Owned, Layout;
      ghost var was := disk.sectors;
      ghost var i := IndexOf(TableOf(was), Key(name));
      LiveFileFacts(was, i);
      n := file.WriteAt(from, numBytes, position);
      VolumeAfterFileWrite(was, disk.sectors, i);
    }

    method Remove(name: CString, undefined: Table) returns (success: bool)
      requires Valid()
      requires |undefined| == NUM_DIR_ENTRIES
      modifies disk
      ensures Valid()
      ensures (SlotsOf(disk.sectors), success) == SpecRemove(old(SlotsOf(disk.sectors)), Key(name))
      ensures !success ==> disk.sectors == old(disk.sectors)
      ensures success ==> Removed(old(disk.sectors), disk.sectors, Key(name))
    {
      hide DecodeTable, DecodeHeader, FileBytes, MarkedIn, Key, KeyOf, Entries, DecodeWords;
      hide Consistent, Mounted, AllOwned, IndexOf, SlotsOf, SpecFind, Removed, InRange;
      ghost var was := disk.sectors;
      MountedFacts(was, Key(name));
      SlotsMatchTable(was, Key(name));
      var directory := ReadDirectory(undefined);
      var sector := directory.Find(name);
      if sector == -1 {
        return false;
      }
      var fileHdr := new FileHeader(seq(NUM_DIRECT, _ => 0));
      fileHdr.FetchFrom(disk, sector);
      var freeMap := ReadFreeMap();
      ghost var i := IndexOf(directory.table, Key(name));
      LiveFileFacts(was, i);
      fileHdr.Deallocate(freeMap);
      freeMap.Clear(sector);
      var _ := directory.Remove(name);
      CommitRemove(directory, freeMap, i);
      success := true;
    }

    // The last two steps of Remove.
    method CommitRemove(directory: Directory, freeMap: Bitmap, ghost i: nat)
      requires Valid()
      requires i < NUM_DIR_ENTRIES && TableOf(disk.sectors)[i].inUse
      requires directory.table == TableOf(disk.sectors)[i := TableOf(disk.sectors)[i].(inUse := false)]
      requires freeMap.Valid() && freeMap.numBits == NUM_SECTORS
      requires freeMap.Marked()
            == MarkedOf(disk.sectors) - Owned(Layout(disk.sectors, TableOf(disk.sectors))[2 + i])
      modifies disk
      ensures Valid()
      ensures Removed(old(disk.sectors), disk.sectors, KeyOf(old(TableOf(disk.sectors))[i]))
      ensures SlotsOf(disk.sectors) == old(SlotsOf(disk.sectors))[i := Unused]
    {
      hide DecodeTable, DecodeHeader, FileBytes, MarkedIn, KeyOf, Entries, DecodeWords;
      hide Consistent, AllOwned, Owned, IndexOf, Layout, SlotsOf;
      ghost var was := disk.sectors;
      MetadataApart(was);
      NothingWritten(was);
      PersistentBitmaps.WriteBack(freeMap, freeMapFile);
      ghost var s1 := disk.sectors;
      MetadataWriteMore(was, was, s1, -1, 0);
      directory.WriteBack(directoryFile);
      ghost var s2 := disk.sectors;
      MetadataWriteMore(was, s1, s2, -1, 1);
      OtherFileUnchanged(s2, s1, HeaderAt(was, 0));
      StillMounted(was, s2, -1);
      ConsistentAfterVacate(was, s2, i);
      SlotsAfterVacate(was, s2, i);
      LiveFileFacts(was, i);
    }
  }

  // h is the header of the file with key k.
  ghost predicate IsHeaderOf(sectors: seq<Sector>, k: CString, h: Header)
    requires Consistent(sectors)
  {
    var t := TableOf(sectors);
    var i := IndexOf(t, k);
    i < |t| && h == HeaderAt(sectors, t[i].sector)
  }

  lemma SectorOfOther(was: seq<Sector>, now: seq<Sector>, i: nat, k: nat, x: int)
    requires Consistent(was) && i < NUM_DIR_ENTRIES && TableOf(was)[i].inUse
    requires Sound(HeaderAt(was, TableOf(was)[i].sector))
    requires SameOutside(now, was, HeaderAt(was, TableOf(was)[i].sector))
    requires k < 2 + NUM_DIR_ENTRIES && x in Owned(Layout(was, TableOf(was))[k])
    requires k != 2 + i || x == TableOf(was)[i].sector
    ensures 0 <= x < NUM_SECTORS && now[x] == was[x]
  {
    hide DecodeTable, DecodeHeader, FileBytes, MarkedIn, KeyOf, AllOwned;
    var l := Layout(was, TableOf(was));
    assert SoundSlot(l[k]) && SoundSlot(l[2 + i]);
    if k < 2 + i { assert Owned(l[k]) !! Owned(l[2 + i]); }
    if 2 + i < k { assert Owned(l[2 + i]) !! Owned(l[k]); }
  }

  // Every slot keeps its header, and every slot but the one written its bytes.
  lemma SlotOfOther(was: seq<Sector>, now: seq<Sector>, i: nat, k: nat)
    requires Consistent(was) && i < NUM_DIR_ENTRIES && TableOf(was)[i].inUse
    requires Sound(HeaderAt(was, TableOf(was)[i].sector))
    requires SameOutside(now, was, HeaderAt(was, TableOf(was)[i].sector))
    requires k < 2 + NUM_DIR_ENTRIES && Layout(was, TableOf(was))[k].Live?
    ensures var f := Layout(was, TableOf(was))[k];
      0 <= f.sector < NUM_SECTORS && Sound(f.hdr) && HeaderAt(now, f.sector) == f.hdr
      && (k != 2 + i ==> FileBytes(now, f.hdr) == FileBytes(was, f.hdr))
  {
    hide DecodeTable, DecodeHeader, FileBytes, MarkedIn, KeyOf, AllOwned, Entries;
    var f := Layout(was, TableOf(was))[k];
    assert SoundSlot(f);
    SectorOfOther(was, now, i, k, f.sector);
    if k != 2 + i {
      forall x | x in DataSet(f.hdr)
        ensures 0 <= x < NUM_SECTORS && now[x] == was[x]
      {
        SectorOfOther(was, now, i, k, x);
      }
      OtherFileUnchanged(now, was, f.hdr);
    }
  }

  /** Writing the data sectors of one listed file keeps the volume consistent and
      every other file as it was. */
  lemma VolumeAfterFileWrite(was: seq<Sector>, now: seq<Sector>, i: nat)
    requires Consistent(was) && i < NUM_DIR_ENTRIES && TableOf(was)[i].inUse
    requires Sound(HeaderAt(was, TableOf(was)[i].sector))
    requires SameOutside(now, was, HeaderAt(was, TableOf(was)[i].sector))
    ensures Consistent(now)
    ensures HeaderAt(now, 0) == HeaderAt(was, 0) && HeaderAt(now, 1) == HeaderAt(was, 1)
    ensures TableOf(now) == TableOf(was) && MarkedOf(now) == MarkedOf(was) && SlotsOf(now) == SlotsOf(was)
    ensures HeaderAt(now, TableOf(was)[i].sector) == HeaderAt(was, TableOf(was)[i].sector)
    ensures Lookup(now, KeyOf(TableOf(was)[i])) == Some(FileBytes(now, HeaderAt(was, TableOf(was)[i].sector)))
    ensures forall k: CString :: k != KeyOf(TableOf(was)[i]) ==> Lookup(now, k) == Lookup(was, k)
  {
    hide DecodeTable, DecodeHeader, FileBytes, MarkedIn, KeyOf, AllOwned, Entries, Separate, IndexOf, Sound;
    var t := TableOf(was);
    SlotOfOther(was, now, i, 0);
    SlotOfOther(was, now, i, 1);
    SlotOfOther(was, now, i, 2 + i);
    assert TableOf(now) == t;
    forall k | 0 <= k < 2 + NUM_DIR_ENTRIES
      ensures SlotAt(now, t, k) == SlotAt(was, t, k)
    {
      if Layout(was, t)[k].Live? { SlotOfOther(was, now, i, k); }
    }
    assert Layout(now, t) == Layout(was, t);
    IndexOfLive(t, i);
    forall k: CString | k != KeyOf(t[i])
      ensures Lookup(now, k) == Lookup(was, k)
    {
      var j := IndexOf(t, k);
      if j < |t| { SlotOfOther(was, now, i, 2 + j); }
    }
  }

  lemma DataSetInRange(h: Header)
    requires Sound(h)
    ensures forall s :: s in DataSet(h) ==> 0 <= s < NUM_SECTORS
  {
  }

  lemma FreshVolume(sectors: seq<Sector>, h0: Header, h1: Header, t: Table)
    requires Mounted(sectors) && HeaderAt(sectors, 0) == h0 && HeaderAt(sectors, 1) == h1
    requires TableOf(sectors) == t && forall i :: 0 <= i < |t| ==> !t[i].inUse
    requires DataSet(h0) !! {0, 1} && DataSet(h1) !! {0, 1} + DataSet(h0)
    requires MarkedOf(sectors) == {0, 1} + DataSet(h0) + DataSet(h1)
    ensures Consistent(sectors)
    ensures SlotsOf(sectors) == seq(NUM_DIR_ENTRIES, _ => Unused)
  {
    hide DecodeTable, DecodeHeader, FileBytes, MarkedIn, KeyOf, Entries;
    var l := Layout(sectors, t);
    assert l[0] == Live(0, h0) && l[1] == Live(1, h1);
    assert forall k :: 2 <= k < |l| ==> l[k] == Vacant;
    assert SoundSlot(l[0]) && SoundSlot(l[1]);
    assert Owned(l[0]) == {0} + DataSet(h0) && Owned(l[1]) == {1} + DataSet(h1);
    forall x
      ensures x in AllOwned(l) <==> x in {0, 1} + DataSet(h0) + DataSet(h1)
    {
      if x in Owned(l[0]) || x in Owned(l[1]) { assert x in AllOwned(l); }
    }
  }

  lemma NothingWritten(was: seq<Sector>)
    requires Consistent(was)
    ensures MetadataWrite(was, was, -1)
  {
    hide DecodeTable, DecodeHeader, FileBytes, MarkedIn, KeyOf, AllOwned;
    var l := Layout(was, TableOf(was));
    assert forall k :: 0 <= k < |l| ==> SoundSlot(l[k]) && -1 !in Owned(l[k]);
  }

  // What a directory entry that is in use says about the disk.
  lemma LiveFileFacts(was: seq<Sector>, i: nat)
    requires Consistent(was) && i < NUM_DIR_ENTRIES && TableOf(was)[i].inUse
    ensures var e := TableOf(was)[i];
      0 <= e.sector < NUM_SECTORS && Sound(HeaderAt(was, e.sector))
      && Lookup(was, KeyOf(e)) == Some(FileBytes(was, HeaderAt(was, e.sector)))
      && OwnedBy(was, KeyOf(e)) == {e.sector as int} + DataSet(HeaderAt(was, e.sector))
      && Layout(was, TableOf(was))[2 + i] == Live(e.sector, HeaderAt(was, e.sector))
      && Owned(Layout(was, TableOf(was))[2 + i]) == {e.sector as int} + DataSet(HeaderAt(was, e.sector))
      && {e.sector as int} + DataSet(HeaderAt(was, e.sector)) <= MarkedOf(was)
  {
    hide DecodeTable, DecodeHeader, FileBytes, MarkedIn, KeyOf, Entries, IndexOf, AllOwned;
    var l := Layout(was, TableOf(was));
    assert SoundSlot(l[2 + i]);
    assert forall x :: x in Owned(l[2 + i]) ==> x in AllOwned(l);
    IndexOfLive(TableOf(was), i);
  }

  // The parts of consistency that the code of Create and Remove leans on.
  lemma MountedFacts(sectors: seq<Sector>, k: CString)
    requires Consistent(sectors)
    ensures Mounted(sectors)
    ensures var h0, h1 := HeaderAt(sectors, 0), HeaderAt(sectors, 1);
      Sound(h0) && Sound(h1) && h0.numBytes == FREE_MAP_FILE_SIZE && h1.numBytes == DIRECTORY_FILE_SIZE
    ensures var t := TableOf(sectors);
      InRange(t) && (IndexOf(t, k) < |t| ==> 0 <= t[IndexOf(t, k)].sector < NUM_SECTORS)
  {
    hide DecodeTable, DecodeHeader, FileBytes, MarkedIn, KeyOf, Entries, AllOwned, Owned;
  }

  lemma NewFileSlot(s: int, h: Header, marked: set<int>)
    requires 0 <= s < NUM_SECTORS && Sound(h) && s !in marked
    requires DataSet(h) !! marked + {s}
    ensures SoundSlot(Live(s, h)) && Owned(Live(s, h)) !! marked
    ensures Owned(Live(s, h)) == {s} + DataSet(h)
  {
  }

  lemma OwnedParts(s: int, h: Header)
    requires SoundSlot(Live(s, h))
    ensures Sound(h) && s in Owned(Live(s, h))
  {
  }
}
