/** read and write on a regular file, against its contents as one sequence of bytes. */
module FileCalls {
  import opened Base
  import opened Indirect
  import opened ZoneMap
  import opened Geometry
  import opened Files
  import opened FileZones
  import opened FileData
  import opened FileWrite

  /** The file ends inside a zone, past its first block, but that zone has not been allocated. */
  ghost predicate TailHole(kind: Kind, per: nat, store: Store, ino: seq<Inode>, i: nat, size: nat)
    requires per > 0
  {
    Boff(per, size / BLOCK_SIZE) > 0 && Unmapped(kind, per, store, ino, i, size)
  }

  lemma FitsLess(kind: Kind, per: nat, size: nat, max: nat)
    requires per > 0 && size <= max && Fits(kind, per, max)
    ensures Fits(kind, per, size)
  {
  }

  lemma Within(kind: Kind, per: nat, pos: nat, max: nat)
    requires per > 0 && pos < max && Fits(kind, per, max)
    ensures ZoneIx(per, pos / BLOCK_SIZE) < MaxZones(kind)
  {
    assert pos / BLOCK_SIZE * BLOCK_SIZE <= pos;
  }

  /** `done` bytes of the data have been written from position p on; c are the contents the call began with. */
  ghost predicate Progress(kind: Kind, per: nat, store0: Store, ino0: seq<Inode>, store: Store, ino: seq<Inode>,
                           i: nat, p: nat, c: seq<byte>, data: seq<byte>, done: nat)
    requires per > 0
  {
    // "true ==" makes this one fact to prove, not one for each part.
    true == (
      && i < |ino0| && done <= |data| && p <= |Pad(c, p)| && ino0[i].size == |c|
      && OthersSame(kind, per, store0, ino0, store, ino, i) && StillMapped(kind, store0, ino0, store, ino, i)
      && FileOk(kind, per, store, ino, i, Splice(Pad(c, p), p, data[..done]))
      && (done > 0 ==> LastMapped(kind, per, store, ino, i, p + done - 1)))
  }

  ghost predicate LastMapped(kind: Kind, per: nat, store: Store, ino: seq<Inode>, i: nat, pos: nat)
    requires per > 0
  {
    ZoneIx(per, pos / BLOCK_SIZE) < MaxZones(kind) && ZoneOf(kind, store, ino, PlaceOf(kind, per, i, pos)) != 0
  }

  /** The byte before a position and that position, in a later block of the same zone. */
  lemma SameZoneBefore(kind: Kind, per: nat, store: Store, ino: seq<Inode>, i: nat, pos: nat)
    requires per > 0 && pos > 0 && Boff(per, pos / BLOCK_SIZE) > 0 && LastMapped(kind, per, store, ino, i, pos - 1)
    ensures LastMapped(kind, per, store, ino, i, pos)
  {
    var n := pos / BLOCK_SIZE;
    assert (pos - 1) / BLOCK_SIZE == n || (pos - 1) / BLOCK_SIZE == n - 1;
    SameZone(per, n, (pos - 1) / BLOCK_SIZE);
  }

  /** Only the first chunk of a call can uncover anything. */
  lemma LaterChunk(kind: Kind, per: nat, store0: Store, ino0: seq<Inode>, store: Store, ino: seq<Inode>,
                   i: nat, p: nat, c: seq<byte>, data: seq<byte>, done: nat, pos: nat, z: nat, ct: seq<byte>)
    requires per > 0 && Progress(kind, per, store0, ino0, store, ino, i, p, c, data, done) && done > 0
      && pos == p + done
    requires ZoneIx(per, pos / BLOCK_SIZE) < MaxZones(kind) && i < |ino| && |ct| >= pos
    ensures Found(kind, per, store, ino, i, ct, pos, z) == ct
  {
    if Boff(per, pos / BLOCK_SIZE) > 0 {
      SameZoneBefore(kind, per, store, ino, i, pos);
    } else {
      NoEarlier(per, store, z, ct, pos);
    }
  }

  lemma NoEarlier(per: nat, store: Store, z: nat, ct: seq<byte>, pos: nat)
    requires per > 0 && Boff(per, pos / BLOCK_SIZE) == 0
    ensures |ct| == pos ==> Exposed(per, store, z, ct) == ct
  {
  }

  /** A chunk laid over the contents d, which are c for every chunk but the first. */
  lemma Advance(kind: Kind, per: nat, store0: Store, ino0: seq<Inode>, store1: Store, ino1: seq<Inode>, store2: Store,
                ino2: seq<Inode>, i: nat, p: nat, c: seq<byte>, d: seq<byte>, data: seq<byte>, done: nat, pos: nat,
                next: nat, ct: seq<byte>, bytes: seq<byte>, z: nat)
    requires per > 0 && Progress(kind, per, store0, ino0, store1, ino1, i, p, c, data, done) && i < |ino1| && |d| == |c|
    requires done < next <= |data| && pos == p + done && bytes == data[done..next]
    requires pos % BLOCK_SIZE + |bytes| <= BLOCK_SIZE && ZoneIx(per, pos / BLOCK_SIZE) < MaxZones(kind)
    requires pos <= |ct| && ChunkWritten(kind, per, store1, ino1, store2, ino2, i, pos, ct, bytes, z)
    requires p <= |Pad(d, p)| && Found(kind, per, store1, ino1, i, ct, pos, z) == Splice(Pad(d, p), p, data[..done])
    ensures Progress(kind, per, store0, ino0, store2, ino2, i, p, d, data, next)
  {
    OthersTwice(kind, per, store0, ino0, store1, ino1, store2, ino2, i);
    SpliceOn(Pad(d, p), p, data, done, pos, next, bytes);
    LastByte(pos, next - done);
    assert p + next - 1 == pos + (next - done) - 1;
    MappedOn(kind, store0, ino0, store1, ino1, store2, ino2, i);
  }

  lemma SpliceOn(c: seq<byte>, p: nat, data: seq<byte>, done: nat, pos: nat, next: nat, bytes: seq<byte>)
    requires p <= |c| && done <= next <= |data| && pos == p + done && bytes == data[done..next]
    ensures pos <= |Splice(c, p, data[..done])|
      && Splice(Splice(c, p, data[..done]), pos, bytes) == Splice(c, p, data[..next])
  {
    SpliceTwice(c, p, data[..done], bytes);
    assert data[..done] + bytes == data[..next];
  }

  lemma LastByte(pos: nat, n: nat)
    requires 0 < n && pos % BLOCK_SIZE + n <= BLOCK_SIZE
    ensures (pos + n - 1) / BLOCK_SIZE == pos / BLOCK_SIZE
  {
  }

  lemma MappedOn(kind: Kind, store0: Store, ino0: seq<Inode>, store1: Store, ino1: seq<Inode>, store2: Store,
                 ino2: seq<Inode>, i: nat)
    requires StillMapped(kind, store0, ino0, store1, ino1, i) && StillMapped(kind, store1, ino1, store2, ino2, i)
    ensures StillMapped(kind, store0, ino0, store2, ino2, i)
  {
    forall p | IsData(p) && PtrOk(kind, p) && ZoneOf(kind, store0, ino0, Slot(i, p)) != 0
      ensures ZoneOf(kind, store2, ino2, Slot(i, p)) != 0 {
      assert ZoneOf(kind, store1, ino1, Slot(i, p)) != 0;
    }
  }

  lemma Stopped(kind: Kind, per: nat, store0: Store, ino0: seq<Inode>, store1: Store, ino1: seq<Inode>, store2: Store,
                ino2: seq<Inode>, i: nat, p: nat, c: seq<byte>, data: seq<byte>, done: nat)
    requires per > 0 && Progress(kind, per, store0, ino0, store1, ino1, i, p, c, data, done)
      && ChunkFailed(kind, per, store1, ino1, store2, ino2, i)
    ensures Progress(kind, per, store0, ino0, store2, ino2, i, p, c, data, done)
  {
    OthersTwice(kind, per, store0, ino0, store1, ino1, store2, ino2, i);
    SameFileOk(kind, per, store1, ino1, store2, ino2, i, Splice(Pad(c, p), p, data[..done]));
    MappedOn(kind, store0, ino0, store1, ino1, store2, ino2, i);
    if done > 0 { assert ZoneOf(kind, store1, ino1, PlaceOf(kind, per, i, p + done - 1)) != 0; }
  }

  /** What the chunk loop needs of its position. */
  ghost predicate InRange(fs: Fs, i: nat, p: nat, c: seq<byte>, data: seq<byte>, max: nat)
    reads fs
  {
    fs.per > 0 && Fits(fs.kind, fs.per, max) && p + |data| <= max && |c| <= max
  }

  lemma ReadyForChunk(kind: Kind, per: nat, store0: Store, ino0: seq<Inode>, store: Store, ino: seq<Inode>, i: nat,
                      p: nat, c: seq<byte>, data: seq<byte>, done: nat, pos: nat, next: nat, max: nat, ct: seq<byte>,
                      bytes: seq<byte>)
    requires per > 0 && Progress(kind, per, store0, ino0, store, ino, i, p, c, data, done) && done < next <= |data|
    requires pos == p + done && ct == Splice(Pad(c, p), p, data[..done]) && bytes == data[done..next]
    requires Fits(kind, per, max) && p + |data| <= max && |c| <= max && pos % BLOCK_SIZE + (next - done) <= BLOCK_SIZE
    ensures pos % BLOCK_SIZE + |bytes| <= BLOCK_SIZE
    ensures i < |ino| && ino[i].size <= |ct| && pos <= |ct| && (pos >= ino[i].size ==> pos == |ct|)
      && FileOk(kind, per, store, ino, i, ct) == true
    ensures Fits(kind, per, |Splice(ct, pos, bytes)|) == true && ZoneIx(per, pos / BLOCK_SIZE) < MaxZones(kind)
      && bytes != []
  {
    SpliceAt(Pad(c, p), p, data[..done], 0);
    SpliceAt(ct, pos, bytes, 0);
    FitsLess(kind, per, |Splice(ct, pos, bytes)|, max);
    Within(kind, per, pos, max);
  }

  /** The contents d are what the chunk at pos is laid over, once it is written. */
  ghost predicate LaidOver(kind: Kind, per: nat, store: Store, ino: seq<Inode>, z: nat, i: nat, p: nat, c: seq<byte>,
                           d: seq<byte>, data: seq<byte>, done: nat, pos: nat)
    requires per > 0
  {
    true == (
      && i < |ino| && ZoneIx(per, pos / BLOCK_SIZE) < MaxZones(kind)
      && |d| == |c| && done <= |data| && p <= |Pad(c, p)| && p <= |Pad(d, p)|
      && Found(kind, per, store, ino, i, Splice(Pad(c, p), p, data[..done]), pos, z)
        == Splice(Pad(d, p), p, data[..done]))
  }

  /** One round of the chunk loop. */
  method WriteStep(fs: Fs, i: nat, ghost p: nat, data: seq<byte>, done: nat, pos: nat, next: nat, ghost c: seq<byte>,
                   ghost d: seq<byte>, ghost max: nat, ghost store0: Store, ghost ino0: seq<Inode>)
    returns (ok: bool)
    requires fs.Valid() && InRange(fs, i, p, c, data, max) && done < next <= |data| && pos == p + done
    requires pos % BLOCK_SIZE + (next - done) <= BLOCK_SIZE
    requires Progress(fs.kind, fs.per, store0, ino0, fs.store, fs.ino, i, p, c, data, done)
      && LaidOver(fs.kind, fs.per, fs.store, fs.ino, fs.NextFor(i), i, p, c, d, data, done, pos)
    modifies fs`store, fs`ino, fs`owner, fs.sp`zsearch, fs.sp.zoneMap
    ensures fs.Valid()
    ensures ok ==> Progress(fs.kind, fs.per, store0, ino0, fs.store, fs.ino, i, p, d, data, next)
    ensures !ok ==>
      Progress(fs.kind, fs.per, store0, ino0, fs.store, fs.ino, i, p, c, data, done) && Crowded(fs.sp)
      && !old(Room(fs, pos))
  {
    ghost var store1, ino1, z := fs.store, fs.ino, fs.NextFor(i);
    var bytes := data[done..next];
    ghost var ct := Splice(Pad(c, p), p, data[..done]);
    ReadyForChunk(fs.kind, fs.per, store0, ino0, fs.store, fs.ino, i, p, c, data, done, pos, next, max, ct, bytes);
    ok := WriteChunk(fs, i, pos, bytes, ct);
    if ok {
      Advance(fs.kind, fs.per, store0, ino0, store1, ino1, fs.store, fs.ino, i, p, c, d, data, done, pos, next, ct,
        bytes, z);
    } else {
      Stopped(fs.kind, fs.per, store0, ino0, store1, ino1, fs.store, fs.ino, i, p, c, data, done);
    }
  }

  /** Before the first chunk, and after it. */
  ghost function Ground(c: seq<byte>, d: seq<byte>, done: nat): seq<byte> {
    if done == 0 then c else d
  }

  /** What the next chunk is laid over. */
  lemma NextLaid(kind: Kind, per: nat, store0: Store, ino0: seq<Inode>, store: Store, ino: seq<Inode>, z: nat,
                 i: nat, p: nat, d: seq<byte>, data: seq<byte>, done: nat, max: nat)
    requires per > 0 && Fits(kind, per, max) && p + |data| <= max && 0 < done < |data| && i < |ino|
    requires Progress(kind, per, store0, ino0, store, ino, i, p, d, data, done)
    ensures LaidOver(kind, per, store, ino, z, i, p, d, d, data, done, p + done)
  {
    Within(kind, per, p + done, max);
    SpliceAt(Pad(d, p), p, data[..done], 0);
    LaterChunk(kind, per, store0, ino0, store, ino, i, p, d, data, done, p + done, z,
      Splice(Pad(d, p), p, data[..done]));
  }

  /**
   Where the chunk loop stands: the file shows what has been written over d, and the first chunk is
   going to be laid over d.
   */
  ghost predicate Writing(kind: Kind, per: nat, store0: Store, ino0: seq<Inode>, store: Store, ino: seq<Inode>, z: nat,
                          i: nat, p: nat, c: seq<byte>, d: seq<byte>, data: seq<byte>, done: nat)
    requires per > 0
  {
    true == (
      && Progress(kind, per, store0, ino0, store, ino, i, p, Ground(c, d, done), data, done) && |d| == |c| && i < |ino|
      && (done == 0 ==> LaidOver(kind, per, store, ino, z, i, p, c, d, data, 0, p)))
  }

  lemma StepLaid(kind: Kind, per: nat, store0: Store, ino0: seq<Inode>, store: Store, ino: seq<Inode>, z: nat, i: nat,
                 p: nat, c: seq<byte>, d: seq<byte>, g: seq<byte>, data: seq<byte>, done: nat, pos: nat, max: nat)
    requires per > 0 && Fits(kind, per, max) && p + |data| <= max && done < |data| && pos == p + done
      && g == Ground(c, d, done)
    requires Writing(kind, per, store0, ino0, store, ino, z, i, p, c, d, data, done)
    ensures Progress(kind, per, store0, ino0, store, ino, i, p, g, data, done) && |g| == |c| == |d|
    ensures LaidOver(kind, per, store, ino, z, i, p, g, d, data, done, pos)
  {
    if done > 0 { NextLaid(kind, per, store0, ino0, store, ino, z, i, p, d, data, done, max); }
  }

  /** One round of the chunk loop, in its place. */
  method WriteRound(fs: Fs, i: nat, p: nat, data: seq<byte>, done: nat, pos: nat, ghost c: seq<byte>,
                    ghost d: seq<byte>, ghost max: nat, ghost store0: Store, ghost ino0: seq<Inode>)
    returns (next: nat, ok: bool)
    requires fs.Valid() && InRange(fs, i, p, c, data, max) && done < |data| && i < |fs.ino| && pos == p + done
    requires Writing(fs.kind, fs.per, store0, ino0, fs.store, fs.ino, fs.NextFor(i), i, p, c, d, data, done)
    modifies fs`store, fs`ino, fs`owner, fs.sp`zsearch, fs.sp.zoneMap
    ensures fs.Valid() && i < |fs.ino| && (if ok then done < next <= |data|
      else next == done && Crowded(fs.sp) && !old(Room(fs, pos)))
    ensures Progress(fs.kind, fs.per, store0, ino0, fs.store, fs.ino, i, p, Ground(c, d, next), data, next)
  {
    next := ChunkEnd(pos, done, |data|);
    ok := WriteUpTo(fs, i, p, data, done, pos, next, c, d, max, store0, ino0);
    if !ok { next := done; }
  }

  method WriteUpTo(fs: Fs, i: nat, p: nat, data: seq<byte>, done: nat, pos: nat, next: nat, ghost c: seq<byte>,
                   ghost d: seq<byte>, ghost max: nat, ghost store0: Store, ghost ino0: seq<Inode>)
    returns (ok: bool)
    requires fs.Valid() && InRange(fs, i, p, c, data, max) && done < next <= |data| && i < |fs.ino|
    requires pos == p + done && pos % BLOCK_SIZE + (next - done) <= BLOCK_SIZE
    requires Writing(fs.kind, fs.per, store0, ino0, fs.store, fs.ino, fs.NextFor(i), i, p, c, d, data, done)
    modifies fs`store, fs`ino, fs`owner, fs.sp`zsearch, fs.sp.zoneMap
    ensures fs.Valid() && i < |fs.ino| && (!ok ==> Crowded(fs.sp) && !old(Room(fs, pos)))
    ensures Progress(fs.kind, fs.per, store0, ino0, fs.store, fs.ino, i, p, Ground(c, d, if ok then next else done),
      data, if ok then next else done)
  {
    ghost var g := Ground(c, d, done);
    StepLaid(fs.kind, fs.per, store0, ino0, fs.store, fs.ino, fs.NextFor(i), i, p, c, d, g, data, done, pos, max);
    ok := WriteStep(fs, i, p, data, done, pos, next, g, d, max, store0, ino0);
  }

  /** The chunk loop of read_write when writing. */
  method WriteLoop(fs: Fs, i: nat, p: nat, data: seq<byte>, ghost c: seq<byte>, ghost d: seq<byte>, ghost max: nat,
                   ghost store0: Store, ghost ino0: seq<Inode>)
    returns (done: nat, ok: bool)
    requires fs.Valid() && InRange(fs, i, p, c, data, max) && data != [] && i < |fs.ino|
    requires Writing(fs.kind, fs.per, store0, ino0, fs.store, fs.ino, fs.NextFor(i), i, p, c, d, data, 0)
    modifies fs`store, fs`ino, fs`owner, fs.sp`zsearch, fs.sp.zoneMap
    ensures fs.Valid() && (if ok then done == |data| else done < |data| && Crowded(fs.sp))
      && (done == 0 ==> !old(Room(fs, p)))
    ensures Progress(fs.kind, fs.per, store0, ino0, fs.store, fs.ino, i, p, Ground(c, d, done), data, done)
  {
    done, ok := 0, true;
    while ok && done < |data|
      invariant fs.Valid() == true && i < |fs.ino| && done <= |data| && (!ok ==> done < |data| && Crowded(fs.sp))
      invariant done == 0 ==> if ok then Room(fs, p) == old(Room(fs, p)) else !old(Room(fs, p))
      invariant ok ==> Writing(fs.kind, fs.per, store0, ino0, fs.store, fs.ino, fs.NextFor(i), i, p, c, d, data, done)
      invariant Progress(fs.kind, fs.per, store0, ino0, fs.store, fs.ino, i, p, Ground(c, d, done), data, done)
      decreases |data| - done, ok
    {
      done, ok := WriteRound(fs, i, p, data, done, p + done, c, d, max, store0, ino0);
    }
  }

  /** Where the chunk that starts at a position ends: with the data or with the block. */
  method ChunkEnd(pos: nat, done: nat, n: nat) returns (next: nat)
    requires done < n
    ensures done < next <= n && pos % BLOCK_SIZE + (next - done) <= BLOCK_SIZE
    ensures next == n || (pos + next - done) % BLOCK_SIZE == 0
  {
    var off := pos % BLOCK_SIZE;
    next := if n - done < BLOCK_SIZE - off then n else done + (BLOCK_SIZE - off);
  }

  // ---------- write ----------

  const OFF_T: nat := 0x1_0000_0000      // off_t is an unsigned 32-bit number

  /** The size check of read_write, in the arithmetic of off_t. */
  function TooFar(pos: nat, n: nat, max: nat): bool {
    pos > (max - n) % OFF_T
  }

  /** The size check is right exactly as long as the count does not exceed the maximum size. */
  lemma SizeCheck(pos: nat, n: nat, max: nat)
    requires pos < OFF_T && n < OFF_T && max < OFF_T
    ensures TooFar(pos, n, max) == (pos + n > max) <==> n <= max || pos > max - n + OFF_T
  {
    if n <= max {
      assert (max - n) % OFF_T == max - n;
    } else {
      assert (max - n) % OFF_T == max - n + OFF_T;
    }
  }

  /**
   Where a write begins: the check is made with the position of the descriptor, before O_APPEND
   moves it to the end.
   */
  function StartOf(filpPos: nat, append: bool, size: nat): nat {
    if append then size else filpPos
  }

  /** A write of n bytes that passes the check makes a file of the given size outgrow the maximum. */
  predicate Outgrows(filpPos: nat, append: bool, size: nat, n: nat, max: nat) {
    n > 0 && !TooFar(filpPos, n, max) && StartOf(filpPos, append, size) + n > max
  }

  /** That takes an append with the descriptor far enough before the end, or a count above the maximum. */
  lemma OutgrowsWhen(filpPos: nat, append: bool, size: nat, n: nat, max: nat)
    requires filpPos < OFF_T && n < OFF_T && max < OFF_T
    ensures Outgrows(filpPos, append, size, n, max) <==>
      if n > max then filpPos <= max - n + OFF_T && StartOf(filpPos, append, size) + n > max
      else n > 0 && append && filpPos + n <= max < size + n
  {
    SizeCheck(filpPos, n, max);
    if n <= max {
      assert (max - n) % OFF_T == max - n;
    } else {
      assert (max - n) % OFF_T == max - n + OFF_T;
    }
  }

  /**
   1000 bytes appended to a file of 7000, from a descriptor at the beginning, where 7500 is the
   maximum; and 8000 bytes at once.
   */
  lemma OutgrowsExamples()
    ensures Outgrows(0, true, 7000, 1000, 7500) && |After(seq(7000, _ => 0), 7000, seq(1000, _ => 1), 1000)| == 8000
    ensures Outgrows(0, false, 0, 8000, 7500) && |After([], 0, seq(8000, _ => 1), 8000)| == 8000
  {
    OutgrowsWhen(0, true, 7000, 1000, 7500);
    OutgrowsWhen(0, false, 0, 8000, 7500);
    SpliceAt(seq(7000, _ => 0), 7000, seq<byte>(1000, _ => 1)[..1000], 0);
    SpliceAt([], 0, seq<byte>(8000, _ => 1)[..8000], 0);
  }

  datatype WriteResult = TooBig | Wrote(n: nat, full: bool)

  /** The file as a write of n bytes at p leaves it. */
  function After(c: seq<byte>, p: nat, data: seq<byte>, n: nat): seq<byte>
    requires n <= |data|
  {
    if p <= |Pad(c, p)| then Splice(Pad(c, p), p, data[..n]) else c
  }

  /** The file and its size are right, the other files are untouched. */
  ghost predicate WriteDone(kind: Kind, per: nat, store0: Store, ino0: seq<Inode>, store: Store, ino: seq<Inode>,
                            i: nat, p: nat, c: seq<byte>, data: seq<byte>, n: nat)
    requires per > 0 && n <= |data|
  {
    true == (
      && i < |ino0| == |ino| && ino[i].size == |After(c, p, data, n)|
      && FileOk(kind, per, store, ino, i, After(c, p, data, n))
      && (forall j ::
        0 <= j < |ino0| && j != i ==> ino[j].size == ino0[j].size && SameFile(kind, per, store0, ino0, store, ino, j)))
  }

  lemma SizeSet(kind: Kind, per: nat, store: Store, ino0: seq<Inode>, owner: map<nat, Slot>, used: set<nat>, i: nat,
                size: nat)
    requires per > 0 && i < |ino0| && Mapped(kind, store, ino0, owner, used)
    ensures var ino1 := ino0[i := ino0[i].(size := size)];
      && Mapped(kind, store, ino1, owner, used)
      && (forall t: Slot {:trigger ZoneOf(kind, store, ino1, t)} ::
        ZoneOf(kind, store, ino1, t) == ZoneOf(kind, store, ino0, t))
      && (forall j :: 0 <= j < |ino0| ==> SameFile(kind, per, store, ino0, store, ino1, j))
  {
    var ino1 := ino0[i := ino0[i].(size := size)];
    forall t: Slot ensures ZoneOf(kind, store, ino1, t) == ZoneOf(kind, store, ino0, t) {}
  }

  /** The file size at the end of read_write. */
  method UpdateSize(fs: Fs, i: nat, position: nat)
    requires fs.Valid() && i < |fs.ino|
    modifies fs`ino
    ensures fs.Valid() && |fs.ino| == |old(fs.ino)|
    ensures fs.ino[i].size == if position > old(fs.ino)[i].size then position else old(fs.ino)[i].size
    ensures forall j :: 0 <= j < |fs.ino| && j != i ==> fs.ino[j].size == old(fs.ino)[j].size
    ensures forall j :: 0 <= j < |fs.ino| ==> SameFile(fs.kind, fs.per, fs.store, old(fs.ino), fs.store, fs.ino, j)
    ensures forall t: Slot {:trigger ZoneOf(fs.kind, fs.store, fs.ino, t)} ::
      ZoneOf(fs.kind, fs.store, fs.ino, t) == ZoneOf(fs.kind, fs.store, old(fs.ino), t)
  {
    if position > fs.ino[i].size {
      SizeSet(fs.kind, fs.per, fs.store, fs.ino, fs.owner, fs.sp.ZonesInUse() - {}, i, position);
      fs.ino := fs.ino[i := fs.ino[i].(size := position)];
    }
  }

  lemma DoneResult(kind: Kind, per: nat, store0: Store, ino0: seq<Inode>, store: Store, ino1: seq<Inode>,
                   ino2: seq<Inode>, i: nat, p: nat, c: seq<byte>, data: seq<byte>, done: nat)
    requires per > 0 && Progress(kind, per, store0, ino0, store, ino1, i, p, c, data, done) && |ino2| == |ino1|
      && i < |ino1|
    requires ino2[i].size == if p + done > ino1[i].size then p + done else ino1[i].size
    requires forall j :: 0 <= j < |ino2| && j != i ==> ino2[j].size == ino1[j].size
    requires forall j :: 0 <= j < |ino2| ==> SameFile(kind, per, store, ino1, store, ino2, j)
    ensures WriteDone(kind, per, store0, ino0, store, ino2, i, p, c, data, done)
  {
    SpliceAt(Pad(c, p), p, data[..done], 0);
    SameFileOk(kind, per, store, ino1, store, ino2, i, After(c, p, data, done));
    forall j | 0 <= j < |ino0| && j != i ensures SameFile(kind, per, store0, ino0, store, ino2, j) {
      SameFileTwice(kind, per, store0, ino0, store, ino1, store, ino2, j);
    }
  }

  /** Whether a write of n bytes at p can leave a file with a hole at its end. */
  predicate HoleAfter(hole: bool, size: nat, p: nat, n: nat) {
    if n == 0 then hole || p > size else hole && p + n < size
  }

  lemma HoleTracked(kind: Kind, per: nat, store0: Store, ino0: seq<Inode>, store: Store, ino1: seq<Inode>,
                    ino2: seq<Inode>, i: nat, p: nat, c: seq<byte>, data: seq<byte>, done: nat)
    requires per > 0 && Progress(kind, per, store0, ino0, store, ino1, i, p, c, data, done)
    requires forall t: Slot {:trigger ZoneOf(kind, store, ino2, t)} ::
      ZoneOf(kind, store, ino2, t) == ZoneOf(kind, store, ino1, t)
    ensures TailHole(kind, per, store, ino2, i, |After(c, p, data, done)|) ==>
      HoleAfter(TailHole(kind, per, store0, ino0, i, |c|), |c|, p, done)
  {
    SpliceAt(Pad(c, p), p, data[..done], 0);
    var size := |After(c, p, data, done)|;
    if TailHole(kind, per, store, ino2, i, size) {
      if done > 0 && size == p + done {
        SameZoneBefore(kind, per, store, ino1, i, size);
      } else if size == |c| {
        assert ZoneOf(kind, store, ino1, PlaceOf(kind, per, i, size)) == 0;
      }
    }
  }

  /** clear_zone at the old end of the file, when the position lies beyond it. */
  method GrowTo(fs: Fs, i: nat, p: nat, ghost c: seq<byte>, ghost data: seq<byte>, ghost max: nat)
    requires fs.Valid() && i < |fs.ino| && FileOk(fs.kind, fs.per, fs.store, fs.ino, i, c) && fs.ino[i].size == |c|
    requires InRange(fs, i, p, c, data, max)
    modifies fs`store
    ensures fs.Valid() && Progress(fs.kind, fs.per, old(fs.store), fs.ino, fs.store, fs.ino, i, p, c, data, 0)
    ensures p <= |c| ==> fs.store == old(fs.store)
  {
    if p > fs.ino[i].size {
      Within(fs.kind, fs.per, |c|, max);
      FitsLess(fs.kind, fs.per, p, max);
      ClearZone(fs, i, fs.ino[i].size, false);
    }
    Grown(fs.kind, fs.per, old(fs.store), fs.store, fs.ino, fs.owner, fs.sp.ZonesInUse() - {}, i, p, c, data);
  }

  lemma Grown(kind: Kind, per: nat, store0: Store, store1: Store, ino: seq<Inode>, owner: map<nat, Slot>,
              used: set<nat>, i: nat, p: nat, c: seq<byte>, data: seq<byte>)
    requires per > 0 && Mapped(kind, store0, ino, owner, used) && i < |ino| && FileOk(kind, per, store0, ino, i, c)
      && ino[i].size == |c|
    requires if p > |c|
      then ZoneIx(per, |c| / BLOCK_SIZE) < MaxZones(kind) && SameZones(kind, store0, store1, ino) && Fits(kind, per, p)
      && ClearedZone(kind, per, store0, ino, store1, i, |c|, false)
      else store1 == store0
    ensures Progress(kind, per, store0, ino, store1, ino, i, p, c, data, 0)
  {
    PadPage(c, p, 0);
    assert Splice(Pad(c, p), p, data[..0]) == Pad(c, p);
    if p > |c| {
      Extended(kind, per, store0, store1, ino, owner, used, i, c, p);
      forall j | 0 <= j < |ino| && j != i ensures SameFile(kind, per, store0, ino, store1, ino, j) {
        ClearedOther(kind, per, store0, store1, ino, owner, used, i, c, j);
      }
      SlotsSame(kind, store0, store1, ino, i);
    } else {
      assert forall j :: 0 <= j < |ino| ==> SameFile(kind, per, store0, ino, store0, ino, j);
    }
  }

  lemma SlotsSame(kind: Kind, store0: Store, store1: Store, ino: seq<Inode>, i: nat)
    requires SameZones(kind, store0, store1, ino) && i < |ino|
    ensures StillMapped(kind, store0, ino, store1, ino, i)
  {
    forall p | IsData(p) && PtrOk(kind, p)
      ensures ZoneOf(kind, store1, ino, Slot(i, p)) == ZoneOf(kind, store0, ino, Slot(i, p)) {
      assert SlotOk(kind, ino, Slot(i, p));
    }
  }

  /** Clearing the end of one file shows in no other. */
  lemma ClearedOther(kind: Kind, per: nat, store0: Store, store1: Store, ino: seq<Inode>, owner: map<nat, Slot>,
                     used: set<nat>, i: nat, c: seq<byte>, j: nat)
    requires per > 0 && Mapped(kind, store0, ino, owner, used) && i < |ino| && j < |ino| && j != i
      && SameZones(kind, store0, store1, ino)
    requires ZoneIx(per, |c| / BLOCK_SIZE) < MaxZones(kind)
      && ClearedZone(kind, per, store0, ino, store1, i, |c|, false)
    ensures SameFile(kind, per, store0, ino, store1, ino, j)
  {
    forall n: nat | ZoneIx(per, n) < MaxZones(kind)
      ensures ZoneOf(kind, store1, ino, Slot(j, PtrFor(kind, ZoneIx(per, n))))
        == ZoneOf(kind, store0, ino, Slot(j, PtrFor(kind, ZoneIx(per, n))))
    {
      assert SlotOk(kind, ino, Slot(j, PtrFor(kind, ZoneIx(per, n))));
    }
    forall n: nat ensures BlockOf(kind, per, store1, ino, j, n) == BlockOf(kind, per, store0, ino, j, n) {
      if ZoneIx(per, n) < MaxZones(kind) {
        var s, t := Slot(j, PtrFor(kind, ZoneIx(per, n))), PlaceOf(kind, per, i, |c|);
        if ZoneOf(kind, store0, ino, s) == ZoneOf(kind, store0, ino, t)
          != 0 { OneOwner(kind, store0, ino, owner, used, s, t); }
      }
    }
  }

  /** What the first chunk is laid over, after clear_zone as before it. */
  lemma FirstLaid(kind: Kind, per: nat, store0: Store, store: Store, ino: seq<Inode>, z: nat, i: nat, p: nat,
                  c: seq<byte>, d: seq<byte>, data: seq<byte>, max: nat)
    requires per > 0 && Fits(kind, per, max) && p + |data| <= max && data != [] && i < |ino| && ino[i].size == |c|
    requires (p <= |c| ==> store == store0) && d == Found(kind, per, store0, ino, i, c, p, z)
    requires Progress(kind, per, store0, ino, store, ino, i, p, c, data, 0)
    ensures Writing(kind, per, store0, ino, store, ino, z, i, p, c, d, data, 0)
  {
    Within(kind, per, p, max);
    PadPage(c, p, 0);
    PadPage(d, p, 0);
    NoneYet(Pad(c, p), p, data);
    NoneYet(Pad(d, p), p, data);
  }

  lemma NoneYet(c: seq<byte>, p: nat, data: seq<byte>)
    requires p <= |c|
    ensures Splice(c, p, data[..0]) == c
  {
  }

  /** The file is right if and only if its contents were what the first chunk was laid over. */
  lemma WriteExact(kind: Kind, per: nat, store0: Store, ino0: seq<Inode>, store: Store, ino: seq<Inode>, i: nat,
                   p: nat, c: seq<byte>, data: seq<byte>, n: nat, z: nat)
    requires per > 0 && i < |ino0| && StoreOk(store0) && Shows(kind, per, store0, ino0, i, c) && ino0[i].size == |c|
      && n <= |data|
    requires WriteDone(kind, per, store0, ino0, store, ino, i, p, Found(kind, per, store0, ino0, i, c, p, z), data, n)
    ensures WriteDone(kind, per, store0, ino0, store, ino, i, p, c, data, n) <==>
      p != |c| || !TailHole(kind, per, store0, ino0, i, |c|) || ZeroBelow(store0, z, Boff(per, |c| / BLOCK_SIZE))
  {
    var d := Found(kind, per, store0, ino0, i, c, p, z);
    FoundSame(kind, per, store0, ino0, i, c, p, z);
    if WriteDone(kind, per, store0, ino0, store, ino, i, p, c, data, n) && d != c {
      SpliceAt(c, p, data[..n], 0);
      SpliceAt(d, p, data[..n], 0);
      OneContents(kind, per, store, ino, i, Splice(c, p, data[..n]), Splice(d, p, data[..n]));
      SameStart(c, d, p, data[..n]);
    }
  }

  /** read_write, writing to a regular file. */
  method Write(fs: Fs, i: nat, filpPos: nat, data: seq<byte>, append: bool, max: nat, ghost c: seq<byte>)
      returns (r: WriteResult)
    requires fs.Valid() && i < |fs.ino| && FileOk(fs.kind, fs.per, fs.store, fs.ino, i, c) && fs.ino[i].size == |c|
    requires data == [] || TooFar(filpPos, |data|, max) || Fits(fs.kind, fs.per, StartOf(filpPos, append, |c|) + |data|)
    modifies fs`store, fs`ino, fs`owner, fs.sp`zsearch, fs.sp.zoneMap
    ensures fs.Valid() && (r == TooBig <==> data != [] && TooFar(filpPos, |data|, max))
    ensures r == TooBig || data == [] ==> fs.store == old(fs.store) && fs.ino == old(fs.ino)
    ensures r.Wrote? ==> r.n <= |data| && (r.full <==> r.n < |data|) && (r.full ==> Crowded(fs.sp))
    ensures r.Wrote? && data != [] && r.n == 0 ==> !old(Room(fs, StartOf(filpPos, append, |c|)))
    ensures r.Wrote? && data != [] ==> var p := StartOf(filpPos, append, |c|);
      && WriteDone(fs.kind, fs.per, old(fs.store), old(fs.ino), fs.store, fs.ino, i, p,
                   Ground(c, Found(fs.kind, fs.per, old(fs.store), old(fs.ino), i, c, p, old(fs.NextFor(i))), r.n),
                     data, r.n)
      && (TailHole(fs.kind, fs.per, fs.store, fs.ino, i, fs.ino[i].size) ==>
        HoleAfter(TailHole(fs.kind, fs.per, old(fs.store), old(fs.ino), i, |c|), |c|, p, r.n))
    ensures r.Wrote? && r.n > 0 ==> var p := StartOf(filpPos, append, |c|);
      WriteDone(fs.kind, fs.per, old(fs.store), old(fs.ino), fs.store, fs.ino, i, p, c, data, r.n) <==>
      p != |c| || !TailHole(fs.kind, fs.per, old(fs.store), old(fs.ino), i, |c|)
      || ZeroBelow(old(fs.store), old(fs.NextFor(i)), Boff(fs.per, |c| / BLOCK_SIZE))
  {
    if data == [] { return Wrote(0, false); }
    if TooFar(filpPos, |data|, max) { return TooBig; }
    var p := if append then fs.ino[i].size else filpPos;
    ghost var store0, ino0, z := fs.store, fs.ino, fs.NextFor(i);
    var done := WriteAt(fs, i, p, data, c);
    r := Wrote(done, done < |data|);
    if done > 0 { WriteExact(fs.kind, fs.per, store0, ino0, fs.store, fs.ino, i, p, c, data, done, z); }
  }

  method WriteAt(fs: Fs, i: nat, p: nat, data: seq<byte>, ghost c: seq<byte>) returns (done: nat)
    requires fs.Valid() && i < |fs.ino| && FileOk(fs.kind, fs.per, fs.store, fs.ino, i, c) && fs.ino[i].size == |c|
    requires Fits(fs.kind, fs.per, p + |data|) && data != []
    modifies fs`store, fs`ino, fs`owner, fs.sp`zsearch, fs.sp.zoneMap
    ensures fs.Valid() && done <= |data| && (done < |data| ==> Crowded(fs.sp)) && (done == 0 ==> !old(Room(fs, p)))
    ensures WriteDone(fs.kind, fs.per, old(fs.store), old(fs.ino), fs.store, fs.ino, i, p,
                      Ground(c, Found(fs.kind, fs.per, old(fs.store), old(fs.ino), i, c, p, old(fs.NextFor(i))),
                        done), data, done)
    ensures TailHole(fs.kind, fs.per, fs.store, fs.ino, i, fs.ino[i].size) ==>
      HoleAfter(TailHole(fs.kind, fs.per, old(fs.store), old(fs.ino), i, |c|), |c|, p, done)
  {
    ghost var store0, ino0 := fs.store, fs.ino;
    ghost var max := if |c| > p + |data| then |c| else p + |data|;
    ghost var d := Found(fs.kind, fs.per, store0, ino0, i, c, p, fs.NextFor(i));
    GrowTo(fs, i, p, c, data, max);
    FirstLaid(fs.kind, fs.per, store0, fs.store, fs.ino, fs.NextFor(i), i, p, c, d, data, max);
    var ok;
    done, ok := WriteLoop(fs, i, p, data, c, d, max, store0, ino0);
    ghost var ino1 := fs.ino;
    var position := p + done;
    UpdateSize(fs, i, position);
    DoneResult(fs.kind, fs.per, store0, ino0, fs.store, ino1, fs.ino, i, p, Ground(c, d, done), data, done);
    HoleTracked(fs.kind, fs.per, store0, ino0, fs.store, ino1, fs.ino, i, p, Ground(c, d, done), data, done);
  }

  // ---------- read ----------

  /** read_write, reading: the bytes of the contents from the position on, as many as there are. */
  method Read(fs: Fs, i: nat, pos: nat, n: nat, ghost c: seq<byte>) returns (bytes: seq<byte>)
    requires fs.Valid() && i < |fs.ino| && FileOk(fs.kind, fs.per, fs.store, fs.ino, i, c) && fs.ino[i].size == |c|
    ensures bytes == if pos >= |c| then [] else if pos + n <= |c| then c[pos..pos + n] else c[pos..]
  {
    bytes := [];
    var done, size := 0, fs.ino[i].size;
    while done < n && pos + done < size
      invariant done <= n && (done == 0 || pos + done <= |c|)
      invariant bytes == if done == 0 then [] else c[pos..pos + done]
    {
      var next, chunk := ReadNext(fs, i, pos, done, n, size, c);
      Extend(c, pos, done, next);
      bytes := bytes + chunk;
      done := next;
    }
  }

  lemma Extend(c: seq<byte>, pos: nat, done: nat, next: nat)
    requires done <= next && pos + next <= |c|
    ensures c[pos..pos + done] + c[pos + done..pos + next] == c[pos..pos + next]
  {
  }

  /** One chunk, cut at the end of the file. */
  method ReadNext(fs: Fs, i: nat, pos: nat, done: nat, n: nat, size: nat, ghost c: seq<byte>)
      returns (next: nat, chunk: seq<byte>)
    requires fs.Valid() && i < |fs.ino| && FileOk(fs.kind, fs.per, fs.store, fs.ino, i, c) && size == |c| && done < n
      && pos + done < size
    ensures done < next <= n && pos + next <= size && chunk == c[pos + done..pos + next]
  {
    var position := pos + done;
    next := ChunkEnd(position, done, n);
    if pos + next > size { next := size - pos; }
    chunk := ReadChunk(fs, i, position, next - done, c);
    assert position + (next - done) == pos + next;
  }

  /** rw_chunk, reading; a block that is not mapped reads as zeros. */
  method ReadChunk(fs: Fs, i: nat, position: nat, chunk: nat, ghost c: seq<byte>) returns (bytes: seq<byte>)
    requires fs.Valid() && i < |fs.ino| && FileOk(fs.kind, fs.per, fs.store, fs.ino, i, c)
    requires position + chunk <= |c| && 0 < chunk && position % BLOCK_SIZE + chunk <= BLOCK_SIZE
    ensures bytes == c[position..position + chunk]
  {
    ghost var n := position / BLOCK_SIZE;
    var off := position % BLOCK_SIZE;
    assert position == n * BLOCK_SIZE + off;
    Within(fs.kind, fs.per, position, |c|);
    var b := fs.ReadMap(i, position / BLOCK_SIZE);
    var x := if b == None then ZeroBlock() else fs.store[b.value];
    ReadPage(fs.kind, fs.per, fs.store, fs.ino, i, c, n, x, b);
    PageSlice(c, position, chunk, n, off);
    bytes := x[off..off + chunk];
  }

  lemma PageSlice(c: seq<byte>, position: nat, chunk: nat, n: nat, off: nat)
    requires position + chunk <= |c| && position == n * BLOCK_SIZE + off && off + chunk <= BLOCK_SIZE
    ensures Page(c, n)[off..off + chunk] == c[position..position + chunk]
  {
    var a, b := Page(c, n)[off..off + chunk], c[position..position + chunk];
    forall k | 0 <= k < |a| ensures a[k] == b[k] {
      assert Page(c, n)[off + k] == ByteAt(c, n * BLOCK_SIZE + (off + k));
    }
  }

  lemma ReadPage(kind: Kind, per: nat, store: Store, ino: seq<Inode>, i: nat, c: seq<byte>, n: nat, x: Block,
                 b: Option<BlockRef>)
    requires per > 0 && Shows(kind, per, store, ino, i, c) && n * BLOCK_SIZE < |c| && ZoneIx(per, n) < MaxZones(kind)
      && StoreOk(store)
    requires var z := ZoneOf(kind, store, ino, Slot(i, PtrFor(kind, ZoneIx(per, n))));
      b == if z == 0 then None else Some(BlockRef(z, Boff(per, n)))
    requires x == if b == None then ZeroBlock() else store[b.value]
    ensures x == Page(c, n)
  {
    assert BlockOf(kind, per, store, ino, i, n) == Page(c, n);
  }
}
