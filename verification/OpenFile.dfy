/** filesys/openfile.cc: a byte-addressed file over whole-sector I/O. */
module OpenFiles {
  import opened Bytes
  import opened Bitmaps
  import opened Storage
  import opened FileHeaders

  // How much of a request lies inside the file: as much as was asked for, or all there is.
  function Clip(fileLength: int, numBytes: int, position: nat): (n: nat)
    ensures n > 0 <==> numBytes > 0 && position < fileLength
    ensures n > 0 ==> n <= numBytes && position + n <= fileLength
    ensures n > 0 ==> n == numBytes || position + n == fileLength
  {
    if numBytes <= 0 || position >= fileLength then 0
    else if position + numBytes > fileLength then fileLength - position
    else numBytes
  }

  class OpenFile {
    const disk: SectorStore
    const hdr: FileHeader
    var seekPosition: int

    ghost predicate Valid()
      reads this, disk, hdr
    {
      disk.Valid() && Sound(hdr.Value())
    }

    ghost function Contents(): (bytes: seq<Byte>)
      requires Valid()
      reads this, disk, hdr
    {
      FileBytes(disk.sectors, hdr.Value())
    }

    constructor (store: SectorStore, sector: int)
      requires store.Valid() && 0 <= sector < NUM_SECTORS
      ensures disk == store && fresh(hdr) && seekPosition == 0
      ensures hdr.Value() == DecodeHeader(store.sectors[sector])
    {
      disk := store;
      var h := new FileHeader(seq(NUM_DIRECT, _ => 0));
      h.FetchFrom(store, sector);
      hdr := h;
      seekPosition := 0;
    }

    // ReadAt into the buffer `into` starting at index `at` (C passes a pointer).
    method ReadAt(into: array<Byte>, at: nat, numBytes: int, position: nat) returns (n: nat)
      requires Valid()
      requires at + Clip(hdr.numBytes, numBytes, position) <= into.Length
      modifies into
      ensures numBytes <= 0 || position >= |Contents()| ==> n == 0
      ensures numBytes > 0 && position < |Contents()| ==>
        n == if numBytes <= |Contents()| - position then numBytes else |Contents()| - position
      ensures n == 0 ==> into[..] == old(into[..])
      ensures n > 0 ==> into[..] == Splice(old(into[..]), at, Contents()[position..position + n])
    {
      hide RawByte, Loaded, FileBytes;
      var fileLength := hdr.numBytes;
      if numBytes <= 0 || position >= fileLength {
        return 0;
      }
      n := if position + numBytes > fileLength then fileLength - position else numBytes;
      var firstSector := position / SECTOR_SIZE;
      var lastSector := (position + n - 1) / SECTOR_SIZE;
      SectorRange(hdr.Value(), position, n);
      var buf := FetchSectors(firstSector, lastSector);
      var start := position - firstSector * SECTOR_SIZE;
      LoadedSlice(buf[..], disk.sectors, hdr.Value(), firstSector, lastSector, position, n);
      CopyInto(buf[start..start + n], into, at);
    }

    method WriteAt(from: seq<Byte>, numBytes: int, position: nat) returns (n: nat)
      requires Valid()
      requires numBytes <= |from|
      modifies disk
      ensures Valid()
      ensures numBytes <= 0 || position >= |old(Contents())| ==> n == 0
      ensures numBytes > 0 && position < |old(Contents())| ==>
        n == if numBytes <= |old(Contents())| - position then numBytes else |old(Contents())| - position
      ensures n == 0 ==> disk.sectors == old(disk.sectors)
      ensures n > 0 ==> Contents() == Splice(old(Contents()), position, from[..n])
      ensures forall s :: 0 <= s < NUM_SECTORS && s !in DataSet(hdr.Value()) ==>
        disk.sectors[s] == old(disk.sectors[s])
    {
      hide RawByte, FileBytes, Prepared;
      var fileLength := hdr.numBytes;
      if numBytes <= 0 || position >= fileLength {
        return 0;
      }
      n := if position + numBytes > fileLength then fileLength - position else numBytes;
      var firstSector := position / SECTOR_SIZE;
      var lastSector := (position + n - 1) / SECTOR_SIZE;
      SectorRange(hdr.Value(), position, n);
      var buf := PrepareBuffer(from[..n], position, firstSector, lastSector);
      ghost var was, h, file := disk.sectors, hdr.Value(), Splice(Contents(), position, from[..n]);
      StoreSectors(buf, firstSector, lastSector);
      StoredIsFile(disk.sectors, was, h, buf[..], firstSector, lastSector, file);
      forall s | 0 <= s < NUM_SECTORS && s !in DataSet(h)
        ensures disk.sectors[s] == was[s]
      {
        OutsideData(h, firstSector, lastSector + 1, s);
      }
    }

    // The buffer with the sectors that will be partially modified read in, and the
    // new bytes copied over them.
    method PrepareBuffer(from: seq<Byte>, position: nat, firstSector: nat, lastSector: nat)
      returns (buf: array<Byte>)
      requires Valid()
      requires 0 < |from| && position + |from| <= hdr.numBytes
      requires firstSector == position / SECTOR_SIZE && lastSector == (position + |from| - 1) / SECTOR_SIZE
      ensures fresh(buf) && buf.Length == (1 + lastSector - firstSector) * SECTOR_SIZE
      ensures Prepared(buf[..], Splice(Contents(), position, from), firstSector)
    {
      hide RawByte, FileBytes, Prepared;
      buf := new Byte[(1 + lastSector - firstSector) * SECTOR_SIZE];
      var firstAligned := position == firstSector * SECTOR_SIZE;
      var lastAligned := position + |from| == (lastSector + 1) * SECTOR_SIZE;
      if !firstAligned {
        ReadPartial(buf, firstSector, firstSector);
      }
      if !lastAligned && (firstSector != lastSector || firstAligned) {
        ReadPartial(buf, firstSector, lastSector);
      }
      PreparedBySplice(buf[..], Contents(), from, position, firstSector);
      CopyInto(from, buf, position - firstSector * SECTOR_SIZE);
    }

    // Reads sector k of the file to its place in a buffer that starts at sector
    // `first`; past the end of the file the buffer keeps what it had.
    method ReadPartial(buf: array<Byte>, first: nat, k: nat)
      requires Valid()
      requires first <= k && (k + 1 - first) * SECTOR_SIZE <= buf.Length
      requires k * SECTOR_SIZE < hdr.numBytes
      modifies buf
      ensures forall p :: 0 <= p < buf.Length ==>
        buf[p] == if (k - first) * SECTOR_SIZE <= p < (k - first) * SECTOR_SIZE + SECTOR_SIZE
                     && first * SECTOR_SIZE + p < hdr.numBytes
                  then Contents()[first * SECTOR_SIZE + p] else old(buf[p])
    {
      hide FileBytes;
      var n := ReadAt(buf, (k - first) * SECTOR_SIZE, SECTOR_SIZE, k * SECTOR_SIZE);
      ghost var got := Contents()[k * SECTOR_SIZE..k * SECTOR_SIZE + n];
      forall p | 0 <= p < n
        ensures got[p] == Contents()[k * SECTOR_SIZE + p]
      {
      }
    }

    // Writes the modified sectors back.
    method StoreSectors(buf: array<Byte>, firstSector: nat, lastSector: nat)
      requires Valid()
      requires firstSector <= lastSector < hdr.numSectors
      requires buf.Length == (1 + lastSector - firstSector) * SECTOR_SIZE
      modifies disk
      ensures Valid()
      ensures Stored(disk.sectors, old(disk.sectors), hdr.Value(), buf[..], firstSector, lastSector + 1)
    {
      hide Stored;
      StoredNothing(disk.sectors, hdr.Value(), buf[..], firstSector);
      for i := firstSector to lastSector + 1
        invariant Valid()
        invariant Stored(disk.sectors, old(disk.sectors), hdr.Value(), buf[..], firstSector, i)
      {
        var at := (i - firstSector) * SECTOR_SIZE;
        StoredStep(disk.sectors, old(disk.sectors), hdr.Value(), buf[..], firstSector, i);
        disk.WriteSector(hdr.ByteToSector(i * SECTOR_SIZE), buf[at..at + SECTOR_SIZE]);
        assert buf[at..at + SECTOR_SIZE] == buf[..][at..at + SECTOR_SIZE];
      }
    }

    method Seek(position: int)
      modifies this`seekPosition
      ensures seekPosition == position
    {
      seekPosition := position;
    }

    method Read(into: array<Byte>, numBytes: int) returns (n: nat)
      requires Valid() && seekPosition >= 0
      requires Clip(hdr.numBytes, numBytes, seekPosition) <= into.Length
      modifies into, this`seekPosition
      ensures Valid()
      ensures numBytes <= 0 || old(seekPosition) >= |Contents()| ==> n == 0
      ensures numBytes > 0 && old(seekPosition) < |Contents()| ==>
        n == if numBytes <= |Contents()| - old(seekPosition) then numBytes else |Contents()| - old(seekPosition)
      ensures seekPosition == old(seekPosition) + n
      ensures n > 0 ==> into[..n] == Contents()[old(seekPosition)..seekPosition]
      ensures into[n..] == old(into[n..])
    {
      n := ReadAt(into, 0, numBytes, seekPosition);
      seekPosition := seekPosition + n;
    }

    method Write(from: seq<Byte>, numBytes: int) returns (n: nat)
      requires Valid() && seekPosition >= 0
      requires numBytes <= |from|
      modifies disk, this`seekPosition
      ensures Valid()
      ensures numBytes <= 0 || old(seekPosition) >= |old(Contents())| ==> n == 0
      ensures numBytes > 0 && old(seekPosition) < |old(Contents())| ==>
        n == if numBytes <= |old(Contents())| - old(seekPosition) then numBytes else |old(Contents())| - old(seekPosition)
      ensures seekPosition == old(seekPosition) + n
      ensures n == 0 ==> disk.sectors == old(disk.sectors)
      ensures n > 0 ==> Contents() == Splice(old(Contents()), old(seekPosition), from[..n])
      ensures forall s :: 0 <= s < NUM_SECTORS && s !in DataSet(hdr.Value()) ==>
        disk.sectors[s] == old(disk.sectors[s])
    {
      n := WriteAt(from, numBytes, seekPosition);
      seekPosition := seekPosition + n;
    }

    // Reads in all the full and partial sectors of a request.
    method FetchSectors(firstSector: nat, lastSector: nat) returns (buf: array<Byte>)
      requires Valid()
      requires firstSector <= lastSector < hdr.numSectors
      ensures fresh(buf) && buf.Length == (1 + lastSector - firstSector) * SECTOR_SIZE
      ensures Loaded(buf[..], disk.sectors, hdr.Value(), firstSector, lastSector + 1)
    {
      hide RawByte;
      buf := new Byte[(1 + lastSector - firstSector) * SECTOR_SIZE];
      for i := firstSector to lastSector + 1
        invariant Loaded(buf[..], disk.sectors, hdr.Value(), firstSector, i)
      {
        ghost var before := buf[..];
        disk.ReadSector(hdr.ByteToSector(i * SECTOR_SIZE), buf, (i - firstSector) * SECTOR_SIZE);
        LoadedStep(before, buf[..], disk.sectors, hdr.Value(), firstSector, i);
      }
    }
  }

  // Sector-aligned buffer holding the bytes of `file` from sector `first` on, as
  // far as the file goes; what lies beyond its end is undefined.
  ghost predicate Prepared(buf: seq<Byte>, file: seq<Byte>, first: nat) {
    forall p :: 0 <= p < |buf| && first * SECTOR_SIZE + p < |file| ==> buf[p] == file[first * SECTOR_SIZE + p]
  }

  // It is enough to have the old bytes before and after the range written.
  lemma PreparedBySplice(buf: seq<Byte>, file: seq<Byte>, from: seq<Byte>, position: nat, first: nat)
    requires first * SECTOR_SIZE <= position && position + |from| <= |file|
    requires position - first * SECTOR_SIZE + |from| <= |buf|
    requires forall p :: 0 <= p < position - first * SECTOR_SIZE ==> buf[p] == file[first * SECTOR_SIZE + p]
    requires forall p :: position - first * SECTOR_SIZE + |from| <= p < |buf| && first * SECTOR_SIZE + p < |file| ==>
      buf[p] == file[first * SECTOR_SIZE + p]
    ensures Prepared(Splice(buf, position - first * SECTOR_SIZE, from), Splice(file, position, from), first)
  {
  }

  // The disk after sectors first..upto-1 of the file took the buffer's contents.
  ghost predicate Stored(now: seq<Sector>, was: seq<Sector>, h: Header, buf: seq<Byte>, first: nat, upto: nat)
    requires |now| == |was| == NUM_SECTORS && Sound(h)
    requires first <= upto <= h.numSectors && (upto - first) * SECTOR_SIZE <= |buf|
  {
    && (forall j :: first <= j < upto ==>
         now[h.dataSectors[j]] == buf[(j - first) * SECTOR_SIZE..(j - first) * SECTOR_SIZE + SECTOR_SIZE])
    && (forall s :: 0 <= s < NUM_SECTORS && s !in h.dataSectors[first..upto] ==> now[s] == was[s])
  }

  lemma StoredNothing(was: seq<Sector>, h: Header, buf: seq<Byte>, first: nat)
    requires |was| == NUM_SECTORS && Sound(h) && first <= h.numSectors
    ensures Stored(was, was, h, buf, first, first)
  {
  }

  lemma StoredStep(now: seq<Sector>, was: seq<Sector>, h: Header, buf: seq<Byte>, first: nat, i: nat)
    requires |now| == |was| == NUM_SECTORS && Sound(h)
    requires first <= i < h.numSectors && (i + 1 - first) * SECTOR_SIZE <= |buf|
    requires Stored(now, was, h, buf, first, i)
    ensures Stored(now[h.dataSectors[i] := buf[(i - first) * SECTOR_SIZE..(i - first) * SECTOR_SIZE + SECTOR_SIZE]],
                   was, h, buf, first, i + 1)
  {
    assert h.dataSectors[first..i + 1] == h.dataSectors[first..i] + [h.dataSectors[i]];
  }

  // Writing a prepared buffer back leaves exactly the prepared file.
  lemma StoredIsFile(now: seq<Sector>, was: seq<Sector>, h: Header, buf: seq<Byte>, first: nat, last: nat,
                     file: seq<Byte>)
    requires |now| == |was| == NUM_SECTORS && Sound(h)
    requires first <= last < h.numSectors && (last + 1 - first) * SECTOR_SIZE == |buf|
    requires Stored(now, was, h, buf, first, last + 1)
    requires |file| == h.numBytes && Prepared(buf, file, first)
    requires forall q :: 0 <= q < h.numBytes && !(first <= q / 128 <= last) ==> file[q] == FileBytes(was, h)[q]
    ensures FileBytes(now, h) == file
  {
    forall q | 0 <= q < h.numBytes
      ensures RawByte(now, h, q) == file[q]
    {
      StoredByte(now, was, h, buf, first, last, file, q);
    }
  }

  lemma StoredByte(now: seq<Sector>, was: seq<Sector>, h: Header, buf: seq<Byte>, first: nat, last: nat,
                   file: seq<Byte>, q: nat)
    requires |now| == |was| == NUM_SECTORS && Sound(h)
    requires first <= last < h.numSectors && (last + 1 - first) * SECTOR_SIZE == |buf|
    requires Stored(now, was, h, buf, first, last + 1)
    requires |file| == h.numBytes && Prepared(buf, file, first)
    requires q < h.numBytes && (!(first <= q / 128 <= last) ==> file[q] == FileBytes(was, h)[q])
    ensures RawByte(now, h, q) == file[q]
  {
    var j := q / 128;
    if first <= j <= last {
      assert now[h.dataSectors[j]][q % 128] == buf[(j - first) * SECTOR_SIZE + q % 128];
    } else {
      assert h.dataSectors[j] !in h.dataSectors[first..last + 1];
      assert FileBytes(was, h)[q] == RawByte(was, h, q);
    }
  }

  lemma OutsideData(h: Header, first: nat, upto: nat, s: int)
    requires Sound(h) && first <= upto <= h.numSectors
    requires s !in DataSet(h)
    ensures s !in h.dataSectors[first..upto]
  {
  }

  // A file none of whose data sectors changed has not changed.
  lemma OtherFileUnchanged(now: seq<Sector>, was: seq<Sector>, other: Header)
    requires |now| == |was| == NUM_SECTORS && Sound(other)
    requires forall s :: s in DataSet(other) ==> now[s] == was[s]
    ensures FileBytes(now, other) == FileBytes(was, other)
  {
    forall i | 0 <= i < other.numBytes
      ensures RawByte(now, other, i) == RawByte(was, other, i)
    {
      assert other.dataSectors[i / 128] as int in DataSet(other);
    }
  }

  lemma SectorRange(h: Header, position: nat, n: nat)
    requires Sound(h) && 0 < n && position + n <= h.numBytes
    ensures position / 128 <= (position + n - 1) / 128 < h.numSectors
  {
  }

  // The first (upto - first) sectors of the buffer hold the file's sectors from
  // `first` on.
  ghost predicate Loaded(buf: seq<Byte>, sectors: seq<Sector>, h: Header, first: nat, upto: nat)
    requires |sectors| == NUM_SECTORS && Sound(h)
  {
    && first <= upto <= h.numSectors
    && (upto - first) * SECTOR_SIZE <= |buf|
    && forall p :: 0 <= p < (upto - first) * SECTOR_SIZE ==>
         buf[p] == RawByte(sectors, h, first * SECTOR_SIZE + p)
  }

  lemma LoadedStep(before: seq<Byte>, after: seq<Byte>, sectors: seq<Sector>, h: Header, first: nat, i: nat)
    requires |sectors| == NUM_SECTORS && Sound(h) && i < h.numSectors
    requires Loaded(before, sectors, h, first, i)
    requires (i + 1 - first) * SECTOR_SIZE <= |before|
    requires after == Splice(before, (i - first) * SECTOR_SIZE, sectors[h.dataSectors[i]])
    ensures Loaded(after, sectors, h, first, i + 1)
  {
  }

  lemma LoadedSlice(buf: seq<Byte>, sectors: seq<Sector>, h: Header, first: nat, last: nat, position: nat, n: nat)
    requires |sectors| == NUM_SECTORS && Sound(h)
    requires 0 < n && position + n <= h.numBytes
    requires first == position / 128 && last == (position + n - 1) / 128
    requires Loaded(buf, sectors, h, first, last + 1)
    ensures position - first * 128 + n <= |buf|
    ensures buf[position - first * 128..position - first * 128 + n] == FileBytes(sectors, h)[position..position + n]
  {
    var start := position - first * 128;
    var got, want := buf[start..start + n], FileBytes(sectors, h)[position..position + n];
    forall q | 0 <= q < n
      ensures got[q] == want[q]
    {
      assert buf[start + q] == RawByte(sectors, h, position + q);
    }
  }
}
