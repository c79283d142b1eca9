/** The sector store that filesys/synchdisk.cc offers to the file system: whole
    sectors, one at a time, synchronously.  The concurrency behind it is the
    subject of module SynchDisks. */
module Storage {
  import opened Bytes

  const SECTOR_SIZE := 128
  const NUM_SECTORS := 1024

  type Sector = s: seq<Byte> | |s| == 128 witness seq(128, _ => 0)

  // `s` with `src` laid over it from index `at` on.
  function Splice(s: seq<Byte>, at: nat, src: seq<Byte>): (r: seq<Byte>)
    requires at + |src| <= |s|
    ensures |r| == |s|
    ensures forall i :: 0 <= i < |s| ==> r[i] == if at <= i < at + |src| then src[i - at] else s[i]
  {
    s[..at] + src + s[at + |src|..]
  }

  // bcopy
  method CopyInto(src: seq<Byte>, dst: array<Byte>, at: nat)
    requires at + |src| <= dst.Length
    modifies dst
    ensures dst[..] == Splice(old(dst[..]), at, src)
  {
    for i := 0 to |src|
      invariant forall k :: 0 <= k < dst.Length ==>
        dst[k] == if at <= k < at + i then src[k - at] else old(dst[k])
    {
      dst[at + i] := src[i];
    }
  }

  class SectorStore {
    var sectors: seq<Sector>

    ghost predicate Valid()
      reads this
    {
      |sectors| == NUM_SECTORS
    }

    method ReadSector(n: int, into: array<Byte>, at: nat)
      requires Valid()
      requires 0 <= n < NUM_SECTORS
      requires at + SECTOR_SIZE <= into.Length
      modifies into
      ensures into[..] == Splice(old(into[..]), at, sectors[n])
    {
      CopyInto(sectors[n], into, at);
    }

    method WriteSector(n: int, data: Sector)
      requires Valid()
      requires 0 <= n < NUM_SECTORS
      modifies this
      ensures sectors == old(sectors)[n := data]
    {
      sectors := sectors[n := data];
    }
  }
}
