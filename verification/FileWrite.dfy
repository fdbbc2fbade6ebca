/** read_write on regular files: the chunk loop, reading and writing. */
module FileWrite {
  import opened Base
  import opened Indirect
  import opened ZoneMap
  import opened Geometry
  import opened Files
  import opened FileZones
  import opened FileData

  /** The other files, and the sizes of all, are as before. */
  ghost predicate OthersSame(kind: Kind, per: nat, store0: Store, ino0: seq<Inode>, store1: Store, ino1: seq<Inode>,
                             i: nat)
    requires per > 0
  {
    // "true ==" makes this one fact to prove, not one for each part.
    true == (
      && |ino1| == |ino0| && (forall j :: 0 <= j < |ino0| ==> ino1[j].size == ino0[j].size)
      && (forall j :: 0 <= j < |ino0| && j != i ==> SameFile(kind, per, store0, ino0, store1, ino1, j)))
  }

  lemma OthersTwice(kind: Kind, per: nat, store0: Store, ino0: seq<Inode>, store1: Store, ino1: seq<Inode>,
                    store2: Store, ino2: seq<Inode>, i: nat)
    requires per > 0 && OthersSame(kind, per, store0, ino0, store1, ino1, i)
      && OthersSame(kind, per, store1, ino1, store2, ino2, i)
    ensures OthersSame(kind, per, store0, ino0, store2, ino2, i)
  {
    forall j | 0 <= j < |ino0| && j != i ensures SameFile(kind, per, store0, ino0, store2, ino2, j) {
      SameFileTwice(kind, per, store0, ino0, store1, ino1, store2, ino2, j);
    }
  }

  /** What is mapped stays mapped. */
  ghost predicate StillMapped(kind: Kind, store0: Store, ino0: seq<Inode>, store1: Store, ino1: seq<Inode>, i: nat) {
    forall p {:trigger ZoneOf(kind, store1, ino1, Slot(i, p))} ::
      IsData(p) && PtrOk(kind, p) && ZoneOf(kind, store0, ino0, Slot(i, p)) != 0 ==>
      ZoneOf(kind, store1, ino1, Slot(i, p)) != 0
  }

  /** The chunk is in place, over the contents or over what the zone z uncovers; the other files are as before. */
  ghost predicate ChunkWritten(kind: Kind, per: nat, store0: Store, ino0: seq<Inode>, store1: Store, ino1: seq<Inode>,
                               i: nat, pos: nat, c: seq<byte>, bytes: seq<byte>, z: nat)
    requires per > 0 && i < |ino0| && ZoneIx(per, pos / BLOCK_SIZE) < MaxZones(kind) && pos <= |c|
  {
    true == (
      && OthersSame(kind, per, store0, ino0, store1, ino1, i) && StillMapped(kind, store0, ino0, store1, ino1, i)
      && ZoneOf(kind, store1, ino1, PlaceOf(kind, per, i, pos)) != 0
      && FileOk(kind, per, store1, ino1, i, Splice(Found(kind, per, store0, ino0, i, c, pos, z), pos, bytes)))
  }

  /** What read_write knows when it writes a chunk: the file shows c, and goes no further than the position. */
  ghost predicate ChunkReady(fs: Fs, i: nat, pos: nat, c: seq<byte>, bytes: seq<byte>)
    reads fs, fs.sp, fs.sp.inodeMap, fs.sp.zoneMap
  {
    && fs.Valid() && i < |fs.ino| && bytes != [] && pos % BLOCK_SIZE + |bytes| <= BLOCK_SIZE
    && FileOk(fs.kind, fs.per, fs.store, fs.ino, i, c) == true && fs.ino[i].size <= |c| && pos <= |c|
    && (pos >= fs.ino[i].size ==> pos == |c|)
    && Fits(fs.kind, fs.per, |Splice(c, pos, bytes)|) == true && ZoneIx(fs.per, pos / BLOCK_SIZE) < MaxZones(fs.kind)
  }

  /** The store into the block of the chunk. */
  method PutChunk(fs: Fs, i: nat, pos: nat, bytes: seq<byte>, b: BlockRef, x: Block, ghost c: seq<byte>)
    requires fs.Valid() && i < |fs.ino| && ZoneIx(fs.per, pos / BLOCK_SIZE) < MaxZones(fs.kind)
    requires pos <= |c| && pos % BLOCK_SIZE + |bytes| <= BLOCK_SIZE && bytes != [] && ReadyBlock(c, pos, bytes, x)
    requires NoneBeyond(fs.kind, fs.per, fs.store, fs.ino, i, |Splice(c, pos, bytes)|)
      && Fits(fs.kind, fs.per, |Splice(c, pos, bytes)|)
    requires b == BlockRef(ZoneOf(fs.kind, fs.store, fs.ino, PlaceOf(fs.kind, fs.per, i, pos)),
      Boff(fs.per, pos / BLOCK_SIZE)) && b.zone != 0
    modifies fs`store
    ensures fs.Valid() && SameZones(fs.kind, old(fs.store), fs.store, fs.ino)
    ensures FileOk(fs.kind, fs.per, fs.store, fs.ino, i, Splice(c, pos, bytes)) <==>
      ShowsBut(fs.kind, fs.per, old(fs.store), fs.ino, i, c, pos / BLOCK_SIZE)
    ensures OthersSame(fs.kind, fs.per, old(fs.store), fs.ino, fs.store, fs.ino, i)
    ensures fs.store == old(fs.store)[b := Overwrite(x, pos % BLOCK_SIZE, bytes)]
  {
    ghost var s := PlaceOf(fs.kind, fs.per, i, pos);
    OneOwner(fs.kind, fs.store, fs.ino, fs.owner, fs.sp.ZonesInUse() - {}, s, s);
    StoreData(fs, b, Overwrite(x, pos % BLOCK_SIZE, bytes));
    ChunkStored(fs.kind, fs.per, old(fs.store), fs.store, fs.ino, fs.owner, fs.sp.ZonesInUse() - {}, i, pos, c, bytes,
      x);
  }

  method StoreData(fs: Fs, b: BlockRef, x: Block)
    requires fs.Valid() && b.zone in fs.owner && IsData(fs.owner[b.zone].p) && |x| == BLOCK_SIZE
    modifies fs`store
    ensures fs.Valid() && fs.store == old(fs.store)[b := x] && SameZones(fs.kind, old(fs.store), fs.store, fs.ino)
    ensures Mapped(fs.kind, old(fs.store), fs.ino, fs.owner, fs.sp.ZonesInUse() - {})
  {
    fs.store := fs.store[b := x];
    DataStored(fs.kind, old(fs.store), fs.store, fs.ino, fs.owner, fs.sp.ZonesInUse() - {}, b.zone);
  }

  /** rw_chunk, writing into a block that is mapped. */
  method WriteMapped(fs: Fs, i: nat, pos: nat, bytes: seq<byte>, b: BlockRef, ghost c: seq<byte>)
    requires ChunkReady(fs, i, pos, c, bytes)
    requires b == BlockRef(ZoneOf(fs.kind, fs.store, fs.ino, PlaceOf(fs.kind, fs.per, i, pos)),
      Boff(fs.per, pos / BLOCK_SIZE)) && b.zone != 0
    modifies fs`store
    ensures fs.Valid() && ChunkWritten(fs.kind, fs.per, old(fs.store), fs.ino, fs.store, fs.ino, i, pos, c, bytes,
      old(fs.NextFor(i)))
  {
    var size := fs.ino[i].size;
    var x := BlockFor(fs, pos, |bytes|, b, size);
    BlockReady(fs.kind, fs.per, fs.store, fs.ino, i, pos, c, bytes, b, x, size);
    PutChunk(fs, i, pos, bytes, b, x, c);
  }

  /** The buffer for a chunk: read, zeroed, or left as it is when it is going to be overwritten. */
  method BlockFor(fs: Fs, pos: nat, n: nat, b: BlockRef, size: nat) returns (x: Block)
    requires StoreOk(fs.store)
    ensures |x| == BLOCK_SIZE && (n != BLOCK_SIZE ==> x == if pos % BLOCK_SIZE == 0 && pos >= size then ZeroBlock()
      else fs.store[b])
  {
    var off := pos % BLOCK_SIZE;
    if n == BLOCK_SIZE || (off == 0 && pos >= size) {
      assert |ZeroBlock()| == BLOCK_SIZE;
      x :| |x| == BLOCK_SIZE;     // NO_READ: whatever the buffer holds
    } else {
      x := fs.store[b];
    }
    if n != BLOCK_SIZE && pos >= size && off == 0 {
      x := ZeroBlock();
    }
  }

  lemma BlockReady(kind: Kind, per: nat, store: Store, ino: seq<Inode>, i: nat, pos: nat, c: seq<byte>,
                   bytes: seq<byte>, b: BlockRef, x: Block, size: nat)
    requires per > 0 && StoreOk(store) && ZoneIx(per, pos / BLOCK_SIZE) < MaxZones(kind)
      && FileOk(kind, per, store, ino, i, c)
    requires b == BlockRef(ZoneOf(kind, store, ino, PlaceOf(kind, per, i, pos)), Boff(per, pos / BLOCK_SIZE))
      && b.zone != 0
    requires size <= |c| && pos <= |c| && (pos >= size ==> pos == |c|) && |x| == BLOCK_SIZE && bytes != []
      && pos % BLOCK_SIZE + |bytes| <= BLOCK_SIZE
    requires |bytes| != BLOCK_SIZE ==> x == if pos % BLOCK_SIZE == 0 && pos >= size then ZeroBlock() else store[b]
    ensures ReadyBlock(c, pos, bytes, x)
    ensures ShowsBut(kind, per, store, ino, i, c, pos / BLOCK_SIZE)
      && NoneBeyond(kind, per, store, ino, i, |Splice(c, pos, bytes)|)
  {
    var n := pos / BLOCK_SIZE;
    SpliceAt(c, pos, bytes, 0);
    assert BlockOf(kind, per, store, ino, i, n) == store[b];
  }

  /** rw_chunk, writing where nothing is mapped: new_block first. */
  method WriteHole(fs: Fs, i: nat, pos: nat, bytes: seq<byte>, ghost c: seq<byte>) returns (ok: bool)
    requires ChunkReady(fs, i, pos, c, bytes) && ZoneOf(fs.kind, fs.store, fs.ino, PlaceOf(fs.kind, fs.per, i, pos))
      == 0
    modifies fs`store, fs`ino, fs`owner, fs.sp`zsearch, fs.sp.zoneMap
    ensures fs.Valid() && |fs.ino| == |old(fs.ino)|
    ensures ok ==>
      ChunkWritten(fs.kind, fs.per, old(fs.store), old(fs.ino), fs.store, fs.ino, i, pos, c, bytes, old(fs.NextFor(i)))
    ensures !ok ==>
      ChunkFailed(fs.kind, fs.per, old(fs.store), old(fs.ino), fs.store, fs.ino, i) && Crowded(fs.sp)
      && !old(Room(fs, pos))
  {
    ghost var store0, ino0, owner0, used0 := fs.store, fs.ino, fs.owner, fs.sp.ZonesInUse() - {};
    var b := NewBlock(fs, i, pos);
    if b == None {
      FailedSame(fs.kind, fs.per, store0, ino0, owner0, used0, fs.store, fs.ino, i);
      return false;
    }
    ghost var store1 := fs.store;
    ghost var d := Found(fs.kind, fs.per, store0, ino0, i, c, pos, b.value.zone);
    HoleReady(fs.kind, fs.per, store0, ino0, owner0, used0, store1, fs.ino, i, pos, c, d, bytes, b.value);
    PutChunk(fs, i, pos, bytes, b.value, ZeroBlock(), d);
    HoleResult(fs.kind, fs.per, store0, ino0, owner0, used0, store1, fs.ino, fs.store, i, pos, c, bytes, b.value);
    ok := true;
  }

  /** A failed chunk leaves every file as it was. */
  ghost predicate ChunkFailed(kind: Kind, per: nat, store0: Store, ino0: seq<Inode>, store1: Store, ino1: seq<Inode>,
                              i: nat)
    requires per > 0
  {
    true == (OthersSame(kind, per, store0, ino0, store1, ino1, i) && SameFile(kind, per, store0, ino0, store1, ino1, i)
      && StillMapped(kind, store0, ino0, store1, ino1, i))
  }

  lemma FailedSame(kind: Kind, per: nat, store0: Store, ino0: seq<Inode>, owner0: map<nat, Slot>, used0: set<nat>,
                   store1: Store, ino1: seq<Inode>, i: nat)
    requires per > 0 && Mapped(kind, store0, ino0, owner0, used0) && Framed(kind, store0, ino0, owner0, store1, ino1)
      && i < |ino0|
    ensures ChunkFailed(kind, per, store0, ino0, store1, ino1, i)
  {
    forall j | 0 <= j < |ino0| ensures SameFile(kind, per, store0, ino0, store1, ino1, j) {
      FramedSame(kind, per, store0, ino0, owner0, used0, store1, ino1, j);
    }
  }

  /** The new block is ready for the chunk, and the other blocks show what the chunk is laid over. */
  lemma HoleReady(kind: Kind, per: nat, store0: Store, ino0: seq<Inode>, owner0: map<nat, Slot>, used0: set<nat>,
                  store1: Store, ino1: seq<Inode>, i: nat, pos: nat, c: seq<byte>, d: seq<byte>, bytes: seq<byte>,
                  b: BlockRef)
    requires per > 0 && Mapped(kind, store0, ino0, owner0, used0) && i < |ino0|
      && ZoneIx(per, pos / BLOCK_SIZE) < MaxZones(kind) && StoreOk(store1)
    requires ZoneAdded(kind, store0, ino0, owner0, store1, ino1, PlaceOf(kind, per, i, pos), b.zone, per, per > 1
      && pos != ino0[i].size)
    requires ZoneOf(kind, store0, ino0, PlaceOf(kind, per, i, pos)) == 0 && FileOk(kind, per, store0, ino0, i, c)
    requires pos <= |c| && pos % BLOCK_SIZE + |bytes| <= BLOCK_SIZE && bytes != []
      && (pos >= ino0[i].size ==> pos == |c|)
    requires b.off == Boff(per, pos / BLOCK_SIZE) && (pos == ino0[i].size ==> LeftOver(store0, store1, b))
    requires d == Found(kind, per, store0, ino0, i, c, pos, b.zone)
    ensures ReadyBlock(d, pos, bytes, ZeroBlock()) && NoneBeyond(kind, per, store1, ino1, i, |Splice(d, pos, bytes)|)
    ensures ShowsBut(kind, per, store1, ino1, i, d, pos / BLOCK_SIZE)
    ensures b.zone == ZoneOf(kind, store1, ino1, PlaceOf(kind, per, i, pos)) && |ino1| == |ino0|
  {
    var n0 := pos / BLOCK_SIZE;
    ExposedPage(per, store0, b.zone, c, n0);
    if n0 * BLOCK_SIZE < |c| { HolePage(kind, per, store0, ino0, i, c, n0); }
    HoleFilled(kind, per, store0, ino0, owner0, used0, store1, ino1, i, pos, c, b.zone, per > 1 && pos != ino0[i].size);
    if per == 1 { NothingExposed(store0, b.zone, c); }
    HoleBeyond(kind, per, store0, ino0, owner0, store1, ino1, i, pos, d, bytes, b.zone);
  }

  /** With one block to a zone nothing is uncovered. */
  lemma NothingExposed(store: Store, z: nat, c: seq<byte>)
    ensures Exposed(1, store, z, c) == c
  {
  }

  lemma HoleBeyond(kind: Kind, per: nat, store0: Store, ino0: seq<Inode>, owner0: map<nat, Slot>, store1: Store,
                   ino1: seq<Inode>, i: nat, pos: nat, c: seq<byte>, bytes: seq<byte>, z: nat)
    requires per > 0 && i < |ino0| && ZoneIx(per, pos / BLOCK_SIZE) < MaxZones(kind)
      && NoneBeyond(kind, per, store0, ino0, i, |c|)
    requires FramedSet(kind, store0, ino0, owner0, store1, ino1, PlaceOf(kind, per, i, pos), z)
    requires pos <= |c| && pos % BLOCK_SIZE + |bytes| <= BLOCK_SIZE && bytes != []
    ensures NoneBeyond(kind, per, store1, ino1, i, |Splice(c, pos, bytes)|)
  {
    var n0 := pos / BLOCK_SIZE;
    SpliceAt(c, pos, bytes, 0);
    forall n: nat | ZoneIx(per, n) < MaxZones(kind)
      && ZoneOf(kind, store1, ino1, Slot(i, PtrFor(kind, ZoneIx(per, n)))) != 0
      ensures (n - Boff(per, n)) * BLOCK_SIZE < |Splice(c, pos, bytes)|
    {
      if ZoneIx(per, n) == ZoneIx(per, n0) { PosUnique(per, n, n0); }
        else { OtherPlaceSame(kind, per, store0, ino0, owner0, store1, ino1, i, n0, n, z); }
    }
  }

  lemma OtherPlaceSame(kind: Kind, per: nat, store0: Store, ino0: seq<Inode>, owner0: map<nat, Slot>, store1: Store,
                       ino1: seq<Inode>, i: nat, n0: nat, n: nat, z: nat)
    requires per > 0 && i < |ino0| && ZoneIx(per, n0) < MaxZones(kind) && ZoneIx(per, n) < MaxZones(kind)
      && ZoneIx(per, n) != ZoneIx(per, n0)
    requires FramedSet(kind, store0, ino0, owner0, store1, ino1, Slot(i, PtrFor(kind, ZoneIx(per, n0))), z)
    ensures ZoneOf(kind, store1, ino1, Slot(i, PtrFor(kind, ZoneIx(per, n))))
      == ZoneOf(kind, store0, ino0, Slot(i, PtrFor(kind, ZoneIx(per, n))))
  {
  }

  lemma HoleResult(kind: Kind, per: nat, store0: Store, ino0: seq<Inode>, owner0: map<nat, Slot>, used0: set<nat>,
                   store1: Store, ino1: seq<Inode>, store2: Store, i: nat, pos: nat, c: seq<byte>, bytes: seq<byte>,
                   b: BlockRef)
    requires per > 0 && Mapped(kind, store0, ino0, owner0, used0) && i < |ino0|
      && ZoneIx(per, pos / BLOCK_SIZE) < MaxZones(kind) && StoreOk(store1)
    requires ZoneAdded(kind, store0, ino0, owner0, store1, ino1, PlaceOf(kind, per, i, pos), b.zone, per, per > 1
      && pos != ino0[i].size)
    requires pos <= |c| && SameZones(kind, store1, store2, ino1) && OthersSame(kind, per, store1, ino1, store2, ino1, i)
    requires FileOk(kind, per, store2, ino1, i, Splice(Found(kind, per, store0, ino0, i, c, pos, b.zone), pos, bytes))
    ensures ChunkWritten(kind, per, store0, ino0, store2, ino1, i, pos, c, bytes, b.zone)
  {
    var s := PlaceOf(kind, per, i, pos);
    assert SlotOk(kind, ino1, s) && ZoneOf(kind, store1, ino1, s) == b.zone && ZoneOf(kind, store2, ino1, s) == b.zone;
    forall j | 0 <= j < |ino0| && j != i ensures SameFile(kind, per, store0, ino0, store1, ino1, j) {
      FramedSetSame(kind, per, store0, ino0, owner0, used0, store1, ino1, s, b.zone, j);
    }
    assert OthersSame(kind, per, store0, ino0, store1, ino1, i);
    OthersTwice(kind, per, store0, ino0, store1, ino1, store2, ino1, i);
    HoleStillMapped(kind, store0, ino0, owner0, store1, ino1, store2, s, b.zone);
  }

  lemma HoleStillMapped(kind: Kind, store0: Store, ino0: seq<Inode>, owner0: map<nat, Slot>, store1: Store,
                        ino1: seq<Inode>, store2: Store, s: Slot, z: nat)
    requires FramedSet(kind, store0, ino0, owner0, store1, ino1, s, z) && z != 0
      && SameZones(kind, store1, store2, ino1) && s.i < |ino0|
    ensures StillMapped(kind, store0, ino0, store2, ino1, s.i)
  {
    forall p | IsData(p) && PtrOk(kind, p) && ZoneOf(kind, store0, ino0, Slot(s.i, p)) != 0
      ensures ZoneOf(kind, store2, ino1, Slot(s.i, p)) != 0 {
      assert SlotOk(kind, ino1, Slot(s.i, p)) && SlotOk(kind, ino0, Slot(s.i, p));
      assert ZoneOf(kind, store1, ino1, Slot(s.i, p)) != 0;
    }
  }

  /** rw_chunk, writing. */
  method WriteChunk(fs: Fs, i: nat, pos: nat, bytes: seq<byte>, ghost c: seq<byte>) returns (ok: bool)
    requires ChunkReady(fs, i, pos, c, bytes)
    modifies fs`store, fs`ino, fs`owner, fs.sp`zsearch, fs.sp.zoneMap
    ensures fs.Valid() && |fs.ino| == |old(fs.ino)|
    ensures ok ==>
      ChunkWritten(fs.kind, fs.per, old(fs.store), old(fs.ino), fs.store, fs.ino, i, pos, c, bytes, old(fs.NextFor(i)))
    ensures !ok ==>
      ChunkFailed(fs.kind, fs.per, old(fs.store), old(fs.ino), fs.store, fs.ino, i) && Crowded(fs.sp)
      && !old(Room(fs, pos))
  {
    var b := fs.ReadMap(i, pos / BLOCK_SIZE);
    if b == None {
      ok := WriteHole(fs, i, pos, bytes, c);
    } else {
      WriteMapped(fs, i, pos, bytes, b.value, c);
      ok := true;
    }
  }

  lemma SameStart(c: seq<byte>, d: seq<byte>, pos: nat, bytes: seq<byte>)
    requires |c| == |d| == pos && Splice(c, pos, bytes) == Splice(d, pos, bytes)
    ensures c == d
  {
    assert c == Splice(c, pos, bytes)[..pos] && d == Splice(d, pos, bytes)[..pos];
  }

  /** The file shows the chunk over its contents if and only if nothing but zeros was uncovered. */
  lemma ChunkExact(kind: Kind, per: nat, store0: Store, ino0: seq<Inode>, store1: Store, ino1: seq<Inode>, i: nat,
                   pos: nat, c: seq<byte>, bytes: seq<byte>, z: nat)
    requires per > 0 && i < |ino0| && ZoneIx(per, pos / BLOCK_SIZE) < MaxZones(kind) && StoreOk(store0)
      && Shows(kind, per, store0, ino0, i, c)
    requires pos <= |c| && (pos == ino0[i].size ==> pos == |c|)
      && ChunkWritten(kind, per, store0, ino0, store1, ino1, i, pos, c, bytes, z)
    ensures FileOk(kind, per, store1, ino1, i, Splice(c, pos, bytes)) <==> Harmless(kind, per, store0, ino0, i, pos, z)
  {
    var d := Found(kind, per, store0, ino0, i, c, pos, z);
    FoundSame(kind, per, store0, ino0, i, c, pos, z);
    if FileOk(kind, per, store1, ino1, i, Splice(c, pos, bytes)) && d != c {
      SpliceAt(c, pos, bytes, 0);
      SpliceAt(d, pos, bytes, 0);
      OneContents(kind, per, store1, ino1, i, Splice(c, pos, bytes), Splice(d, pos, bytes));
      SameStart(c, d, pos, bytes);
    }
  }

  // ---------- extending a file ----------

  lemma PadPage(c: seq<byte>, pos: nat, n: nat)
    ensures Page(Pad(c, pos), n) == Page(c, n) && (n * BLOCK_SIZE >= |c| ==> Page(c, n) == ZeroBlock())
    ensures |Pad(c, pos)| == if pos <= |c| then |c| else pos
  {
    forall o | 0 <= o < BLOCK_SIZE ensures Page(Pad(c, pos), n)[o] == Page(c, n)[o] {}
    assert Page(Pad(c, pos), n) == Page(c, n);
    if n * BLOCK_SIZE >= |c| { assert Page(c, n) == ZeroBlock(); }
  }

  /** The block of the end of the file, and those after it, once clear_zone has done its work. */
  lemma TailBlock(kind: Kind, per: nat, store0: Store, store1: Store, ino: seq<Inode>, owner: map<nat, Slot>,
                  used: set<nat>, i: nat, c: seq<byte>, n: nat)
    requires per > 0 && Mapped(kind, store0, ino, owner, used) && i < |ino| && FileOk(kind, per, store0, ino, i, c)
      && ino[i].size == |c|
    requires ZoneIx(per, |c| / BLOCK_SIZE) < MaxZones(kind) && SameZones(kind, store0, store1, ino)
    requires ClearedZone(kind, per, store0, ino, store1, i, |c|, false)
    ensures BlockOf(kind, per, store1, ino, i, n) == Page(c, n)
  {
    if ZoneIx(per, n) < MaxZones(kind) {
      var s := Slot(i, PtrFor(kind, ZoneIx(per, n)));
      assert ZoneOf(kind, store1, ino, s) == ZoneOf(kind, store0, ino, s);
      PadPage(c, 0, n);
      if ZoneOf(kind, store0, ino, s) != 0 {
        TailMapped(kind, per, store0, store1, ino, owner, used, i, c, n, s);
      } else if n * BLOCK_SIZE < |c| {
        HolePage(kind, per, store0, ino, i, c, n);
      }
    } else {
      PadPage(c, 0, n);
    }
  }

  lemma TailMapped(kind: Kind, per: nat, store0: Store, store1: Store, ino: seq<Inode>, owner: map<nat, Slot>,
                   used: set<nat>, i: nat, c: seq<byte>, n: nat, s: Slot)
    requires per > 0 && Mapped(kind, store0, ino, owner, used) && i < |ino| && FileOk(kind, per, store0, ino, i, c)
    requires ZoneIx(per, |c| / BLOCK_SIZE) < MaxZones(kind) && ZoneIx(per, n) < MaxZones(kind)
      && s == Slot(i, PtrFor(kind, ZoneIx(per, n)))
    requires ClearedZone(kind, per, store0, ino, store1, i, |c|, false)
    requires ZoneOf(kind, store1, ino, s) == ZoneOf(kind, store0, ino, s) != 0
      && Page(c, n) == if n * BLOCK_SIZE >= |c| then ZeroBlock() else Page(c, n)
    ensures BlockOf(kind, per, store1, ino, i, n) == Page(c, n)
  {
    var e, m := |c| / BLOCK_SIZE, ClearStart(per, |c|, false);
    assert (n - Boff(per, n)) * BLOCK_SIZE < |c|;
    if n * BLOCK_SIZE >= |c| {
      EndOfZone(per, |c|, n, e, m);
    } else {
      assert BlockOf(kind, per, store0, ino, i, n) == Page(c, n);
      BelowEnd(kind, per, store0, store1, ino, owner, used, i, c, n, m, s);
    }
  }

  /** A mapped block after the end is in the same zone as the end, behind the point where clear_zone starts. */
  lemma EndOfZone(per: nat, size: nat, n: nat, e: nat, m: nat)
    requires per > 0 && n * BLOCK_SIZE >= size && (n - Boff(per, n)) * BLOCK_SIZE < size
    requires e == size / BLOCK_SIZE && m == ClearStart(per, size, false)
    ensures per > 1 && ZoneIx(per, n) == ZoneIx(per, e) == ZoneIx(per, m) && Boff(per, m) <= Boff(per, n)
  {
    assert e <= m <= n && n - Boff(per, n) <= e;
    SameZone(per, n, e);
    SameZone(per, n, m);
    PosUnique(per, n, m);
  }

  /** A block below the end is not among those cleared. */
  lemma BelowEnd(kind: Kind, per: nat, store0: Store, store1: Store, ino: seq<Inode>, owner: map<nat, Slot>,
                 used: set<nat>, i: nat, c: seq<byte>, n: nat, m: nat, s: Slot)
    requires per > 0 && Mapped(kind, store0, ino, owner, used) && i < |ino|
    requires ZoneIx(per, |c| / BLOCK_SIZE) < MaxZones(kind) && ZoneIx(per, n) < MaxZones(kind)
      && s == Slot(i, PtrFor(kind, ZoneIx(per, n)))
    requires ClearedZone(kind, per, store0, ino, store1, i, |c|, false) && m == ClearStart(per, |c|, false)
    requires ZoneOf(kind, store1, ino, s) == ZoneOf(kind, store0, ino, s) != 0 && n * BLOCK_SIZE < |c|
    ensures BlockOf(kind, per, store1, ino, i, n) == BlockOf(kind, per, store0, ino, i, n)
  {
    var t, z := PlaceOf(kind, per, i, |c|), ZoneOf(kind, store0, ino, s);
    if ZoneOf(kind, store0, ino, t) == z {
      OneOwner(kind, store0, ino, owner, used, s, t);
      if ZoneIx(per, m) == ZoneIx(per, n) { BeforeStart(per, |c|, n, m); }
    }
    OutsideCleared(kind, per, store0, ino, store1, i, |c|, m, BlockRef(z, Boff(per, n)));
  }

  lemma OutsideCleared(kind: Kind, per: nat, store0: Store, ino: seq<Inode>, store1: Store, i: nat, size: nat, m: nat,
                       b: BlockRef)
    requires per > 0 && StoreOk(store0) && ZoneIx(per, size / BLOCK_SIZE) < MaxZones(kind)
    requires ClearedZone(kind, per, store0, ino, store1, i, size, false) && m == ClearStart(per, size, false)
    requires
      (b.zone == ZoneOf(kind, store0, ino, PlaceOf(kind, per, i, size))
        && ZoneIx(per, m) == ZoneIx(per, size / BLOCK_SIZE)) ==>
      b.off < Boff(per, m)
    ensures b in store0 && b in store1 && store1[b] == store0[b]
  {
  }

  lemma BeforeStart(per: nat, size: nat, n: nat, m: nat)
    requires per > 0 && n * BLOCK_SIZE < size && m == ClearStart(per, size, false) && ZoneIx(per, n) == ZoneIx(per, m)
    ensures Boff(per, n) < Boff(per, m)
  {
    PosUnique(per, n, m);
  }

  /** The file reads as zeros up to a later end. */
  lemma Extended(kind: Kind, per: nat, store0: Store, store1: Store, ino: seq<Inode>, owner: map<nat, Slot>,
                 used: set<nat>, i: nat, c: seq<byte>, pos: nat)
    requires per > 0 && Mapped(kind, store0, ino, owner, used) && i < |ino| && FileOk(kind, per, store0, ino, i, c)
      && ino[i].size == |c| < pos
    requires ZoneIx(per, |c| / BLOCK_SIZE) < MaxZones(kind) && SameZones(kind, store0, store1, ino)
    requires ClearedZone(kind, per, store0, ino, store1, i, |c|, false) && Fits(kind, per, pos)
    ensures FileOk(kind, per, store1, ino, i, Pad(c, pos))
  {
    forall n: nat | n * BLOCK_SIZE < |Pad(c, pos)|
      ensures BlockOf(kind, per, store1, ino, i, n) == Page(Pad(c, pos), n) {
      PadPage(c, pos, n);
      TailBlock(kind, per, store0, store1, ino, owner, used, i, c, n);
    }
    PadPage(c, pos, 0);
    forall n: nat | ZoneIx(per, n) < MaxZones(kind)
      && ZoneOf(kind, store1, ino, Slot(i, PtrFor(kind, ZoneIx(per, n)))) != 0
      ensures (n - Boff(per, n)) * BLOCK_SIZE < |Pad(c, pos)|
    {
      assert ZoneOf(kind, store1, ino, Slot(i, PtrFor(kind, ZoneIx(per, n))))
        == ZoneOf(kind, store0, ino, Slot(i, PtrFor(kind, ZoneIx(per, n))));
    }
  }
}
