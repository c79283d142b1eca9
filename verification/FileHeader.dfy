/** filesys/filehdr.cc: the i-node.  A header is exactly one sector on disk. */
module FileHeaders {
  import opened Bytes
  import opened Bitmaps
  import opened Storage

  const NUM_DIRECT := 30
  const MAX_FILE_SIZE := 3840

  // C division rounds towards zero, and the remainder of a negative n is never positive.
  function DivRoundUp(n: int, s: nat): (q: int)
    requires s > 0
    ensures s == SECTOR_SIZE && n > 0 ==> (q - 1) * SECTOR_SIZE < n <= q * SECTOR_SIZE
    ensures s == SECTOR_SIZE && n <= 0 ==> n <= q * SECTOR_SIZE < n + SECTOR_SIZE && q <= 0
  {
    if n < 0 then -(-n / s) else n / s + if n % s > 0 then 1 else 0
  }

  // A file may be created with a negative size: it has no bytes and no data sectors.
  function Size(n: int): nat { if n < 0 then 0 else n }

  // The value of a header object; `dataSectors` is the whole C array, of which
  // only the first `numSectors` entries mean anything.
  datatype Header = Header(numBytes: Int32, numSectors: Int32, dataSectors: seq<Int32>)

  // A header that describes a file: the right number of data sectors, all of
  // them on the disk and no two the same.
  ghost predicate Sound(h: Header) {
    && h.numBytes <= MAX_FILE_SIZE
    && h.numSectors == DivRoundUp(h.numBytes, SECTOR_SIZE)
    && |h.dataSectors| == NUM_DIRECT
    && (forall i :: 0 <= i < h.numSectors ==> 0 <= h.dataSectors[i] < NUM_SECTORS)
    && (forall i, j :: 0 <= i < j < h.numSectors ==> h.dataSectors[i] != h.dataSectors[j])
  }

  // The sectors named by the first n entries.
  ghost function Entries(s: seq<Int32>, n: nat): (r: set<int>)
    requires n <= |s|
  {
    set i | 0 <= i < n :: s[i] as int
  }

  ghost function DataSet(h: Header): set<int>
    requires h.numSectors <= |h.dataSectors|
  {
    Entries(h.dataSectors, Size(h.numSectors))
  }

  lemma EntriesExtend(s: seq<Int32>, i: nat, x: Int32)
    requires i < |s|
    ensures Entries(s[i := x], i + 1) == Entries(s, i) + {x as int}
  {
    var s' := s[i := x];
    forall y | y in Entries(s, i)
      ensures y in Entries(s', i + 1)
    {
      var k :| 0 <= k < i && s[k] as int == y;
      assert s'[k] as int == y;
    }
    assert s'[i] as int == x;
  }

  lemma {:induction false} EntriesSize(s: seq<Int32>, n: nat)
    requires n <= |s|
    requires forall i, j :: 0 <= i < j < n ==> s[i] != s[j]
    ensures |Entries(s, n)| == n
  {
    if n > 0 {
      EntriesSize(s, n - 1);
      EntriesExtend(s, n - 1, s[n - 1]);
      assert s[n - 1 := s[n - 1]] == s;
    }
  }

  // The first n entries are distinct sectors that `before` left free.
  ghost predicate Claimed(s: seq<Int32>, n: nat, before: set<int>)
    requires n <= |s|
  {
    && (forall a :: 0 <= a < n ==> 0 <= s[a] < NUM_SECTORS && s[a] as int !in before)
    && (forall a, b :: 0 <= a < b < n ==> s[a] != s[b])
  }

  lemma ClaimedSize(s: seq<Int32>, n: nat, before: set<int>)
    requires n <= |s| && Claimed(s, n, before)
    ensures before !! Entries(s, n)
    ensures |before + Entries(s, n)| == |before| + n
  {
    EntriesSize(s, n);
  }

  lemma NoneClaimed(s: seq<Int32>, before: set<int>)
    ensures Claimed(s, 0, before) && before + Entries(s, 0) == before
  {
  }

  lemma RoomLeft(s: seq<Int32>, n: nat, before: set<int>)
    requires n <= |s| && Claimed(s, n, before) && |before| + n < NUM_SECTORS
    ensures before + Entries(s, n) != Upto(NUM_SECTORS)
  {
    ClaimedSize(s, n, before);
  }

  lemma ClaimedExtend(s: seq<Int32>, n: nat, x: Int32, before: set<int>)
    requires n < |s| && Claimed(s, n, before)
    requires 0 <= x < NUM_SECTORS && x as int !in before + Entries(s, n)
    ensures Claimed(s[n := x], n + 1, before)
    ensures before + Entries(s[n := x], n + 1) == before + Entries(s, n) + {x as int}
  {
    EntriesExtend(s, n, x);
    forall a | 0 <= a < n
      ensures s[a] != x
    {
      assert s[a] as int in Entries(s, n);
    }
  }

  // Byte i of the data sectors a header lists, end to end.
  ghost function RawByte(sectors: seq<Sector>, h: Header, i: nat): Byte
    requires |sectors| == NUM_SECTORS && Sound(h)
    requires i < h.numSectors * SECTOR_SIZE
  {
    sectors[h.dataSectors[i / 128]][i % 128]
  }

  // The file a header describes on a given disk.
  ghost function FileBytes(sectors: seq<Sector>, h: Header): (bytes: seq<Byte>)
    requires |sectors| == NUM_SECTORS
    requires Sound(h)
    ensures |bytes| == Size(h.numBytes)
  {
    seq(Size(h.numBytes), i requires 0 <= i < h.numBytes => RawByte(sectors, h, i))
  }

  // The header's memory image: 32 ints.
  function HeaderWords(h: Header): (ws: seq<Word>)
    requires |h.dataSectors| == NUM_DIRECT
    ensures |ws| == 32
  {
    [ToWord(h.numBytes), ToWord(h.numSectors)]
    + seq(NUM_DIRECT, i requires 0 <= i < NUM_DIRECT => ToWord(h.dataSectors[i]))
  }

  function EncodeHeader(h: Header): Sector
    requires |h.dataSectors| == NUM_DIRECT
  {
    EncodeWords(HeaderWords(h))
  }

  function HeaderOfWords(ws: seq<Word>): (h: Header)
    requires |ws| == 32
    ensures |h.dataSectors| == NUM_DIRECT
  {
    Header(ToInt32(ws[0]), ToInt32(ws[1]),
           seq(NUM_DIRECT, i requires 0 <= i < NUM_DIRECT => ToInt32(ws[2 + i])))
  }

  function DecodeHeader(s: Sector): (h: Header)
    ensures |h.dataSectors| == NUM_DIRECT
  {
    HeaderOfWords(DecodeWords(s))
  }

  lemma HeaderOfHeaderWords(h: Header)
    requires |h.dataSectors| == NUM_DIRECT
    ensures HeaderOfWords(HeaderWords(h)) == h
  {
    var ws := HeaderWords(h);
    forall i | 0 <= i < NUM_DIRECT
      ensures ToInt32(ws[2 + i]) == h.dataSectors[i]
    {
    }
    assert HeaderOfWords(ws).dataSectors == h.dataSectors;
  }

  lemma DecodeEncodeHeader(h: Header)
    requires |h.dataSectors| == NUM_DIRECT
    ensures DecodeHeader(EncodeHeader(h)) == h
    ensures DecodeWord(EncodeHeader(h), 0) == ToWord(h.numBytes) && DecodeWord(EncodeHeader(h), 4) == ToWord(h.numSectors)
    ensures forall i :: 0 <= i < NUM_DIRECT ==> DecodeWord(EncodeHeader(h), 8 + 4 * i) == ToWord(h.dataSectors[i])
  {
    DecodeEncodeWords(HeaderWords(h));
    HeaderOfHeaderWords(h);
    hide EncodeWords, DecodeWord;
    EncodedWordAt(HeaderWords(h), 0);
    EncodedWordAt(HeaderWords(h), 1);
    forall i | 0 <= i < NUM_DIRECT
      ensures DecodeWord(EncodeHeader(h), 8 + 4 * i) == ToWord(h.dataSectors[i])
    {
      EncodedWordAt(HeaderWords(h), 2 + i);
    }
  }

  class FileHeader {
    var numBytes: Int32
    var numSectors: Int32
    var dataSectors: seq<Int32>

    ghost function Value(): Header
      reads this
    {
      Header(numBytes, numSectors, dataSectors)
    }

    // `new FileHeader` leaves the fields undefined; only the array's size is known.
    constructor (undefined: seq<Int32>)
      requires |undefined| == NUM_DIRECT
      ensures |dataSectors| == NUM_DIRECT
    {
      numBytes, numSectors, dataSectors := 0, 0, undefined;
    }

    // Takes the data blocks of a new file out of the free map.  The caller is trusted
    // not to ask for more blocks than dataSectors can hold when there are that many.
    method Allocate(freeMap: Bitmap, fileSize: Int32) returns (ok: bool)
      requires freeMap.Valid() && freeMap.numBits == NUM_SECTORS
      requires fileSize <= MAX_FILE_SIZE || DivRoundUp(fileSize, SECTOR_SIZE) > NUM_SECTORS - |freeMap.Marked()|
      requires |dataSectors| == NUM_DIRECT
      modifies this, freeMap.map_
      ensures ok <==> DivRoundUp(fileSize, SECTOR_SIZE) <= NUM_SECTORS - |old(freeMap.Marked())|
      ensures |dataSectors| == NUM_DIRECT
      ensures !ok ==> freeMap.Marked() == old(freeMap.Marked())
      ensures ok ==> Sound(Value()) && numBytes == fileSize
      ensures ok ==> DataSet(Value()) !! old(freeMap.Marked())
      ensures ok ==> freeMap.Marked() == old(freeMap.Marked()) + DataSet(Value())
    {
      hide MarkedIn;
      numBytes := fileSize;
      numSectors := DivRoundUp(fileSize, SECTOR_SIZE);
      var clear := freeMap.NumClear();
      if clear < numSectors {
        return false;
      }
      ClaimSectors(freeMap);
      ok := true;
    }

    // The loop of Allocate.
    method ClaimSectors(freeMap: Bitmap)
      requires freeMap.Valid() && freeMap.numBits == NUM_SECTORS
      requires |dataSectors| == NUM_DIRECT && numSectors <= NUM_DIRECT
      requires numSectors <= NUM_SECTORS - |freeMap.Marked()|
      modifies this`dataSectors, freeMap.map_
      ensures |dataSectors| == NUM_DIRECT
      ensures Claimed(dataSectors, Size(numSectors), old(freeMap.Marked()))
      ensures freeMap.Marked() == old(freeMap.Marked()) + Entries(dataSectors, Size(numSectors))
    {
      hide MarkedIn, Claimed, Entries, Upto;
      ghost var before := freeMap.Marked();
      NoneClaimed(dataSectors, before);
      var i := 0;
      while i < numSectors
        invariant 0 <= i <= Size(numSectors)
        invariant |dataSectors| == NUM_DIRECT && Claimed(dataSectors, i, before)
        invariant freeMap.Marked() == before + Entries(dataSectors, i)
      {
        RoomLeft(dataSectors, i, before);
        var sector := freeMap.FindAndSet();
        assert sector >= 0;  // the ASSERT in the loop
        ClaimedExtend(dataSectors, i, sector, before);
        dataSectors := dataSectors[i := sector];
        i := i + 1;
      }
    }

    // Gives the data blocks back; the ASSERT demands that each is marked when its
    // turn comes, so they must be marked and distinct.
    method Deallocate(freeMap: Bitmap)
      requires freeMap.Valid() && freeMap.numBits == NUM_SECTORS
      requires Sound(Value())
      requires DataSet(Value()) <= freeMap.Marked()
      modifies freeMap.map_
      ensures freeMap.Marked() == old(freeMap.Marked()) - DataSet(Value())
    {
      ghost var before := freeMap.Marked();
      var i := 0;
      while i < numSectors
        invariant 0 <= i <= Size(numSectors)
        invariant freeMap.Marked() == before - Entries(dataSectors, i)
      {
        EntriesExtend(dataSectors, i, dataSectors[i]);
        assert dataSectors[i := dataSectors[i]] == dataSectors;
        assert dataSectors[i] as int in DataSet(Value());
        var marked := freeMap.Test(dataSectors[i]);
        assert marked;  // the ASSERT in the loop
        freeMap.Clear(dataSectors[i]);
        i := i + 1;
      }
    }

    method FetchFrom(disk: SectorStore, sector: int)
      requires disk.Valid() && 0 <= sector < NUM_SECTORS
      modifies this
      ensures Value() == DecodeHeader(disk.sectors[sector])
    {
      var image := new Byte[SECTOR_SIZE](_ => 0);
      disk.ReadSector(sector, image, 0);
      assert image[..] == disk.sectors[sector];
      var h := DecodeHeader(image[..]);
      numBytes, numSectors, dataSectors := h.numBytes, h.numSectors, h.dataSectors;
    }

    method WriteBack(disk: SectorStore, sector: int)
      requires disk.Valid() && 0 <= sector < NUM_SECTORS
      requires |dataSectors| == NUM_DIRECT
      modifies disk
      ensures disk.sectors == old(disk.sectors)[sector := EncodeHeader(Value())]
    {
      disk.WriteSector(sector, EncodeHeader(Header(numBytes, numSectors, dataSectors)));
    }

    function ByteToSector(offset: nat): (s: Int32)
      requires offset / SECTOR_SIZE < |dataSectors|
      reads this
    {
      dataSectors[offset / SECTOR_SIZE]
    }
  }
}
