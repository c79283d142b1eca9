/** How long the simulated disk takes (machine/disk.cc).

    The disk turns under the head one sector every ROTATION_TIME ticks, so at time S,
    a multiple of ROTATION_TIME, sector (S / ROTATION_TIME) % SECTORS_PER_TRACK of the
    current track begins to pass. */
module DiskTimings {

  const SECTORS_PER_TRACK := 32
  const NUM_TRACKS := 32
  const NUM_SECTORS := 1024
  const ROTATION_TIME := 500
  const SEEK_TIME := 500

  type SectorNumber = s: int | 0 <= s < 1024

  // The sector begins to pass under the head at time at.
  predicate Passes(sector: SectorNumber, at: int) {
    at >= 0 && at % ROTATION_TIME == 0 && (at / ROTATION_TIME) % SECTORS_PER_TRACK == sector % SECTORS_PER_TRACK
  }

  // ... first, from time since on.
  ghost predicate FirstPass(sector: SectorNumber, since: int, at: int) {
    && since <= at && Passes(sector, at)
    && forall t :: since <= t && Passes(sector, t) ==> at <= t
  }

  function Track(sector: SectorNumber): (t: nat)
    ensures t < NUM_TRACKS
  {
    sector / SECTORS_PER_TRACK
  }

  function Abs(x: int): nat { if x < 0 then -x else x }

  function SeekTime(from: SectorNumber, to: SectorNumber): (t: nat)
    ensures t <= (NUM_TRACKS - 1) * SEEK_TIME
    ensures t == 0 <==> Track(from) == Track(to)
    ensures t == 500 * if from / 32 <= to / 32 then to / 32 - from / 32 else from / 32 - to / 32
  {
    Abs(Track(to) - Track(from)) * SEEK_TIME
  }

  // The next sector boundary.
  function RoundUp(t: nat): (r: nat)
    ensures r % ROTATION_TIME == 0 && t <= r < t + ROTATION_TIME
  {
    t + (if t % ROTATION_TIME > 0 then ROTATION_TIME - t % ROTATION_TIME else 0)
  }

  // Sectors to wait for sector `to` when sector `from` is at the head.
  function ModuloDiff(to: nat, from: nat): (d: nat)
    ensures d < SECTORS_PER_TRACK
    ensures (from + d) % SECTORS_PER_TRACK == to % SECTORS_PER_TRACK
    ensures forall q :: q >= from && q % SECTORS_PER_TRACK == to % SECTORS_PER_TRACK ==> q >= from + d
  {
    (to % SECTORS_PER_TRACK - from % SECTORS_PER_TRACK + SECTORS_PER_TRACK) % SECTORS_PER_TRACK
  }

  // Waiting out ModuloDiff sectors from a boundary reaches the first pass.
  lemma WaitIsFirstPass(sector: SectorNumber, since: nat)
    ensures var start := RoundUp(since);
      FirstPass(sector, since, start + ModuloDiff(sector, start / ROTATION_TIME) * ROTATION_TIME)
  {
    var start := RoundUp(since);
    var q := start / ROTATION_TIME;
    var d := ModuloDiff(sector, q);
    var at := start + d * ROTATION_TIME;
    assert start == q * ROTATION_TIME && at == (q + d) * ROTATION_TIME && at / ROTATION_TIME == q + d;
    forall t | since <= t && Passes(sector, t)
      ensures at <= t
    {
      assert t == t / ROTATION_TIME * ROTATION_TIME && t / ROTATION_TIME >= q;
    }
  }

  // A whole pass of the sector lies between the two times.
  ghost predicate PassedWithin(sector: SectorNumber, from: int, to: int) {
    exists at :: from <= at && Passes(sector, at) && at + ROTATION_TIME <= to
  }

  /** The track-buffer test is exactly "the sector has gone past the head since
      bufferInit". */
  lemma BufferTest(sector: SectorNumber, bufferInit: nat, timeAfter: nat)
    requires bufferInit % ROTATION_TIME == 0 && bufferInit <= timeAfter
    ensures (timeAfter - bufferInit) / ROTATION_TIME > ModuloDiff(sector, bufferInit / ROTATION_TIME)
      <==> PassedWithin(sector, bufferInit, timeAfter)
  {
    WaitIsFirstPass(sector, bufferInit);
    var d := ModuloDiff(sector, bufferInit / ROTATION_TIME);
    var at := bufferInit + d * ROTATION_TIME;
    assert RoundUp(bufferInit) == bufferInit;
    assert (timeAfter - bufferInit) / ROTATION_TIME > d <==> at + ROTATION_TIME <= timeAfter;
  }

  /** A disk.  doneAt is when the request in progress will interrupt, now the time of
      the last request or interrupt. */
  class Disk {
    var lastSector: SectorNumber
    var bufferInit: nat
    var active: bool
    ghost var doneAt: nat
    ghost var now: nat

    ghost predicate Valid()
      reads this
    {
      && bufferInit % ROTATION_TIME == 0
      && (if active then bufferInit <= doneAt else bufferInit <= now)
    }

    constructor ()
      ensures Valid() && !active && lastSector == 0 && bufferInit == 0 && now == 0
    {
      lastSector, bufferInit, active := 0, 0, false;
      now, doneAt := 0, 0;
    }

    method TimeToSeek(newSector: SectorNumber, totalTicks: nat) returns (seek: nat, rotation: nat)
      ensures seek == SeekTime(lastSector, newSector)
      ensures seek == 500 * if lastSector / 32 <= newSector / 32 then newSector / 32 - lastSector / 32
                            else lastSector / 32 - newSector / 32
      ensures (totalTicks + seek + rotation) % 500 == 0 && rotation < 500
      ensures totalTicks + seek + rotation == RoundUp(totalTicks + seek)
    {
      var newTrack, oldTrack := newSector / SECTORS_PER_TRACK, lastSector / SECTORS_PER_TRACK;
      seek := Abs(newTrack - oldTrack) * SEEK_TIME;
      var over := (totalTicks + seek) % ROTATION_TIME;
      rotation := 0;
      if over > 0 {
        rotation := ROTATION_TIME - over;
      }
    }

    /** A read of the current track that the head has passed since the buffer was
        started costs one transfer; any other request is transferred on the first pass
        after the seek, and its latency ends with that transfer. */
    method ComputeLatency(newSector: SectorNumber, writing: bool, totalTicks: nat) returns (latency: nat)
      requires Valid() && bufferInit <= totalTicks
      ensures var seek := SeekTime(lastSector, newSector);
        if !writing && seek == 0 && PassedWithin(newSector, bufferInit, RoundUp(totalTicks))
        then latency == ROTATION_TIME
        else FirstPass(newSector, totalTicks + seek, totalTicks + latency - ROTATION_TIME)
      ensures RoundUp(totalTicks + SeekTime(lastSector, newSector)) <= totalTicks + latency
      ensures ROTATION_TIME <= latency <= 31999
    {
      hide Passes, PassedWithin, ModuloDiff;
      var seek, rotation := TimeToSeek(newSector, totalTicks);
      var timeAfter := totalTicks + seek + rotation;
      BufferTest(newSector, bufferInit, timeAfter);
      if !writing && seek == 0
         && (timeAfter - bufferInit) / ROTATION_TIME > ModuloDiff(newSector, bufferInit / ROTATION_TIME)
      {
        return ROTATION_TIME;
      }
      WaitIsFirstPass(newSector, totalTicks + seek);
      rotation := rotation + ModuloDiff(newSector, timeAfter / ROTATION_TIME) * ROTATION_TIME;
      latency := seek + rotation + ROTATION_TIME;
    }

    method UpdateLast(newSector: SectorNumber, totalTicks: nat)
      modifies `bufferInit, `lastSector
      ensures lastSector == newSector
      ensures bufferInit == if Track(old(lastSector)) == Track(newSector) then old(bufferInit)
                            else RoundUp(totalTicks + SeekTime(old(lastSector), newSector))
    {
      var seek, rotate := TimeToSeek(newSector, totalTicks);
      if seek != 0 {
        bufferInit := totalTicks + seek + rotate;
      }
      lastSector := newSector;
    }

    /** ReadRequest and WriteRequest, which differ only in `writing`.  The track buffer
        was started by the time the request comes, so its age is not negative. */
    method Request(newSector: SectorNumber, writing: bool, totalTicks: nat) returns (ticks: nat)
      requires Valid() && !active && now <= totalTicks
      modifies this
      ensures Valid() && active && old(bufferInit) <= totalTicks && now == totalTicks && doneAt == totalTicks + ticks
      ensures var seek := SeekTime(old(lastSector), newSector);
        if !writing && seek == 0 && PassedWithin(newSector, old(bufferInit), RoundUp(totalTicks))
        then ticks == ROTATION_TIME
        else FirstPass(newSector, totalTicks + seek, doneAt - ROTATION_TIME)
      ensures ROTATION_TIME <= ticks <= 31999
      ensures lastSector == newSector
      ensures bufferInit == if Track(old(lastSector)) == Track(newSector) then old(bufferInit)
                            else RoundUp(totalTicks + SeekTime(old(lastSector), newSector))
    {
      ticks := ComputeLatency(newSector, writing, totalTicks);
      active := true;
      UpdateLast(newSector, totalTicks);
      now, doneAt := totalTicks, totalTicks + ticks;
    }

    // The completion interrupt, which is never early.
    method CallBack(totalTicks: nat)
      requires Valid() && active && doneAt <= totalTicks
      modifies `active, `now
      ensures Valid() && !active && now == totalTicks
    {
      active := false;
      now := totalTicks;
    }
  }
}
