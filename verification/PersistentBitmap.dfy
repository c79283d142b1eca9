/** filesys/pbitmap.cc: a bitmap whose words are kept in a file, byte for byte. */
module PersistentBitmaps {
  import opened Bytes
  import opened Bitmaps
  import opened Storage
  import opened FileHeaders
  import opened OpenFiles

  // Reads numWords words from the start of the file.
  method FetchFrom(b: Bitmap, file: OpenFile)
    requires b.Valid() && file.Valid() && file.hdr.numBytes == 4 * b.numWords
    modifies b.map_
    ensures b.map_[..] == DecodeWords(file.Contents())
    ensures b.Marked() == MarkedIn(DecodeWords(file.Contents()), b.numBits)
  {
    hide FileBytes, DecodeWords, MarkedIn;
    var image := new Byte[4 * b.numWords](_ => 0);
    ghost var was := file.Contents();
    var _ := file.ReadAt(image, 0, 4 * b.numWords, 0);
    assert image[..] == was;
    var words := DecodeWords(image[..]);
    for i := 0 to b.numWords
      invariant forall j :: 0 <= j < i ==> b.map_[j] == words[j]
    {
      b.map_[i] := words[i];
    }
    assert b.map_[..] == words;
  }

  method WriteBack(b: Bitmap, file: OpenFile)
    requires b.Valid() && file.Valid() && file.hdr.numBytes == 4 * b.numWords
    modifies file.disk
    ensures file.Valid() && DecodeWords(file.Contents()) == b.map_[..]
    ensures MarkedIn(DecodeWords(file.Contents()), b.numBits) == b.Marked()
    ensures forall s :: 0 <= s < NUM_SECTORS && s !in DataSet(file.hdr.Value()) ==>
      file.disk.sectors[s] == old(file.disk.sectors[s])
  {
    hide FileBytes, DecodeWords, EncodeWords, MarkedIn;
    var image := EncodeWords(b.map_[..]);
    DecodeEncodeWords(b.map_[..]);
    var _ := file.WriteAt(image, |image|, 0);
    assert image[..|image|] == image;
    assert file.Contents() == image;
  }
}
