/**
 The contents of regular files: read_write and rw_chunk against a sparse byte
 array, whose bytes that were never written read as zero.
 */
module FileData {
  import opened Base
  import opened Indirect
  import opened ZoneMap
  import opened Geometry
  import opened Files
  import opened FileZones

  /** Block n of a file as read_map and the device show it; zeros where no zone is mapped. */
  ghost function BlockOf(kind: Kind, per: nat, store: Store, ino: seq<Inode>, i: nat, n: nat): Block
    requires per > 0
  {
    if ZoneIx(per, n) >= MaxZones(kind) then ZeroBlock()
    else
      var z := ZoneOf(kind, store, ino, Slot(i, PtrFor(kind, ZoneIx(per, n))));
      if z == 0 || BlockRef(z, Boff(per, n)) !in store then ZeroBlock() else store[BlockRef(z, Boff(per, n))]
  }

  /** The byte at position p of a file with contents c, zero beyond its end. */
  function ByteAt(c: seq<byte>, p: nat): byte { if p < |c| then c[p] else 0 }

  /** Block n of a file with contents c. */
  function Page(c: seq<byte>, n: nat): (b: Block)
    ensures |b| == BLOCK_SIZE
    ensures forall o :: 0 <= o < BLOCK_SIZE ==> b[o] == ByteAt(c, n * BLOCK_SIZE + o)
  {
    seq<byte>(BLOCK_SIZE, o requires 0 <= o < BLOCK_SIZE => ByteAt(c, n * BLOCK_SIZE + o))
  }

  /** The blocks below the size are within the range of the zone map. */
  ghost predicate Fits(kind: Kind, per: nat, size: nat)
    requires per > 0
  {
    forall n: nat {:trigger ZoneIx(per, n)} :: n * BLOCK_SIZE < size ==> ZoneIx(per, n) < MaxZones(kind)
  }

  /** No zone is mapped that starts at or after the size. */
  ghost predicate NoneBeyond(kind: Kind, per: nat, store: Store, ino: seq<Inode>, i: nat, size: nat)
    requires per > 0
  {
    forall n: nat {:trigger ZoneIx(per, n)} ::
      (ZoneIx(per, n) < MaxZones(kind) && ZoneOf(kind, store, ino, Slot(i, PtrFor(kind, ZoneIx(per, n)))) != 0) ==>
      (n - Boff(per, n)) * BLOCK_SIZE < size
  }

  /** The blocks of the file below the end of c are those of c, padded with zeros. */
  ghost predicate Shows(kind: Kind, per: nat, store: Store, ino: seq<Inode>, i: nat, c: seq<byte>)
    requires per > 0
  {
    forall n: nat {:trigger BlockOf(kind, per, store, ino, i, n)} ::
      n * BLOCK_SIZE < |c| ==> BlockOf(kind, per, store, ino, i, n) == Page(c, n)
  }

  /** File i has the contents c. */
  ghost predicate FileOk(kind: Kind, per: nat, store: Store, ino: seq<Inode>, i: nat, c: seq<byte>)
    requires per > 0
  {
    Fits(kind, per, |c|) && Shows(kind, per, store, ino, i, c) && NoneBeyond(kind, per, store, ino, i, |c|)
  }

  /** The contents are determined by what the file shows. */
  lemma OneContents(kind: Kind, per: nat, store: Store, ino: seq<Inode>, i: nat, c: seq<byte>, d: seq<byte>)
    requires per > 0 && Shows(kind, per, store, ino, i, c) && Shows(kind, per, store, ino, i, d) && |c| == |d|
    ensures c == d
  {
    forall p | 0 <= p < |c| ensures c[p] == d[p] {
      var n, o := p / BLOCK_SIZE, p % BLOCK_SIZE;
      assert Page(c, n)[o] == c[p] && Page(d, n)[o] == d[p];
      assert BlockOf(kind, per, store, ino, i, n) == Page(c, n);
    }
  }

  // ---------- changing contents ----------

  /** The bytes are put in place at pos, which may be the end. */
  function Splice(c: seq<byte>, pos: nat, bytes: seq<byte>): (r: seq<byte>)
    requires pos <= |c|
  {
    c[..pos] + bytes + if pos + |bytes| < |c| then c[pos + |bytes|..] else []
  }

  /** The file is extended with zeros up to pos. */
  function Pad(c: seq<byte>, pos: nat): (r: seq<byte>) {
    if pos <= |c| then c else c + seq(pos - |c|, _ => 0)
  }

  lemma SpliceAt(c: seq<byte>, pos: nat, bytes: seq<byte>, p: nat)
    requires pos <= |c|
    ensures |Splice(c, pos, bytes)| == if pos + |bytes| < |c| then |c| else pos + |bytes|
    ensures ByteAt(Splice(c, pos, bytes), p) == if pos <= p < pos + |bytes| then bytes[p - pos] else ByteAt(c, p)
  {
  }

  /** Two writes in a row are one. */
  lemma SpliceTwice(c: seq<byte>, pos: nat, a: seq<byte>, b: seq<byte>)
    requires pos <= |c|
    ensures pos + |a| <= |Splice(c, pos, a)| && Splice(Splice(c, pos, a), pos + |a|, b) == Splice(c, pos, a + b)
  {
  }

  /** The block that a chunk is written to. */
  lemma PageWritten(c: seq<byte>, pos: nat, bytes: seq<byte>, x: Block)
    requires pos <= |c| && |x| == BLOCK_SIZE && pos % BLOCK_SIZE + |bytes| <= BLOCK_SIZE
    requires var n := pos / BLOCK_SIZE;
      if n * BLOCK_SIZE < |c| then x == Page(c, n) || |bytes| == BLOCK_SIZE
        else x == ZeroBlock() || |bytes| == BLOCK_SIZE
    ensures Overwrite(x, pos % BLOCK_SIZE, bytes) == Page(Splice(c, pos, bytes), pos / BLOCK_SIZE)
  {
    var n, off := pos / BLOCK_SIZE, pos % BLOCK_SIZE;
    forall o | 0 <= o < BLOCK_SIZE
      ensures Overwrite(x, off, bytes)[o] == ByteAt(Splice(c, pos, bytes), n * BLOCK_SIZE + o) {
      SpliceAt(c, pos, bytes, n * BLOCK_SIZE + o);
      OverwriteAt(x, off, bytes, o);
    }
    assert Overwrite(x, off, bytes) == Page(Splice(c, pos, bytes), n);
  }

  lemma OverwriteAt(x: Block, off: nat, bytes: seq<byte>, o: nat)
    requires off + |bytes| <= |x| && o < |x|
    ensures Overwrite(x, off, bytes)[o] == if off <= o < off + |bytes| then bytes[o - off] else x[o]
  {
  }

  /** The other blocks. */
  lemma PageElsewhere(c: seq<byte>, pos: nat, bytes: seq<byte>, n: nat)
    requires pos <= |c| && pos % BLOCK_SIZE + |bytes| <= BLOCK_SIZE && n != pos / BLOCK_SIZE
    ensures Page(Splice(c, pos, bytes), n) == Page(c, n)
    ensures n * BLOCK_SIZE < |Splice(c, pos, bytes)| ==> n * BLOCK_SIZE < |c|
  {
    SpliceAt(c, pos, bytes, 0);
    forall o | 0 <= o < BLOCK_SIZE ensures Page(Splice(c, pos, bytes), n)[o] == Page(c, n)[o] {
      SpliceAt(c, pos, bytes, n * BLOCK_SIZE + o);
    }
    assert Page(Splice(c, pos, bytes), n) == Page(c, n);
  }

  // ---------- files that an operation leaves alone ----------

  /** File j names the same zones and shows the same blocks. */
  ghost predicate SameFile(kind: Kind, per: nat, store0: Store, ino0: seq<Inode>, store1: Store, ino1: seq<Inode>,
                           j: nat)
    requires per > 0
  {
    // "true ==" makes this one fact to prove, not one for each part.
    true == (
      && (forall n: nat {:trigger ZoneIx(per, n)} :: ZoneIx(per, n) < MaxZones(kind) ==>
        ZoneOf(kind, store1, ino1, Slot(j, PtrFor(kind, ZoneIx(per, n))))
          == ZoneOf(kind, store0, ino0, Slot(j, PtrFor(kind, ZoneIx(per, n)))))
      && (forall n: nat {:trigger BlockOf(kind, per, store1, ino1, j, n)} ::
        BlockOf(kind, per, store1, ino1, j, n) == BlockOf(kind, per, store0, ino0, j, n)))
  }

  lemma SameFileOk(kind: Kind, per: nat, store0: Store, ino0: seq<Inode>, store1: Store, ino1: seq<Inode>, j: nat,
                   c: seq<byte>)
    requires per > 0 && SameFile(kind, per, store0, ino0, store1, ino1, j) && FileOk(kind, per, store0, ino0, j, c)
    ensures FileOk(kind, per, store1, ino1, j, c)
  {
  }

  lemma SameFileTwice(kind: Kind, per: nat, store0: Store, ino0: seq<Inode>, store1: Store, ino1: seq<Inode>,
                      store2: Store, ino2: seq<Inode>, j: nat)
    requires per > 0 && SameFile(kind, per, store0, ino0, store1, ino1, j)
      && SameFile(kind, per, store1, ino1, store2, ino2, j)
    ensures SameFile(kind, per, store0, ino0, store2, ino2, j)
  {
    forall n: nat ensures BlockOf(kind, per, store2, ino2, j, n) == BlockOf(kind, per, store0, ino0, j, n) {
      assert BlockOf(kind, per, store1, ino1, j, n) == BlockOf(kind, per, store0, ino0, j, n);
    }
  }

  /** A place that names the same zone, whose blocks are kept. */
  lemma SameBlock(kind: Kind, per: nat, store0: Store, ino0: seq<Inode>, owner0: map<nat, Slot>, used: set<nat>,
                  store1: Store, ino1: seq<Inode>, j: nat, n: nat)
    requires per > 0 && Mapped(kind, store0, ino0, owner0, used) && DataKept(store0, owner0, store1) && j < |ino0|
    requires ZoneIx(per, n) < MaxZones(kind) ==>
      ZoneOf(kind, store1, ino1, Slot(j, PtrFor(kind, ZoneIx(per, n))))
        == ZoneOf(kind, store0, ino0, Slot(j, PtrFor(kind, ZoneIx(per, n))))
    ensures BlockOf(kind, per, store1, ino1, j, n) == BlockOf(kind, per, store0, ino0, j, n)
  {
    if ZoneIx(per, n) < MaxZones(kind) {
      var s := Slot(j, PtrFor(kind, ZoneIx(per, n)));
      if ZoneOf(kind, store0, ino0, s) != 0 { OneOwner(kind, store0, ino0, owner0, used, s, s); }
    }
  }

  lemma FramedSame(kind: Kind, per: nat, store0: Store, ino0: seq<Inode>, owner0: map<nat, Slot>, used: set<nat>,
                   store1: Store, ino1: seq<Inode>, j: nat)
    requires per > 0 && Mapped(kind, store0, ino0, owner0, used) && Framed(kind, store0, ino0, owner0, store1, ino1)
      && j < |ino0|
    ensures SameFile(kind, per, store0, ino0, store1, ino1, j)
  {
    forall n: nat ensures BlockOf(kind, per, store1, ino1, j, n) == BlockOf(kind, per, store0, ino0, j, n) {
      SameBlock(kind, per, store0, ino0, owner0, used, store1, ino1, j, n);
    }
  }

  lemma FramedSetSame(kind: Kind, per: nat, store0: Store, ino0: seq<Inode>, owner0: map<nat, Slot>, used: set<nat>,
                      store1: Store, ino1: seq<Inode>, s: Slot, z: nat, j: nat)
    requires per > 0 && Mapped(kind, store0, ino0, owner0, used)
      && FramedSet(kind, store0, ino0, owner0, store1, ino1, s, z) && j < |ino0| && j != s.i
    ensures SameFile(kind, per, store0, ino0, store1, ino1, j)
  {
    forall n: nat ensures BlockOf(kind, per, store1, ino1, j, n) == BlockOf(kind, per, store0, ino0, j, n) {
      SameBlock(kind, per, store0, ino0, owner0, used, store1, ino1, j, n);
    }
  }

  // ---------- one chunk ----------

  /** Two blocks of a file in the same zone of the device are in different places there. */
  lemma DifferentBlocks(kind: Kind, per: nat, store: Store, ino: seq<Inode>, owner: map<nat, Slot>, used: set<nat>,
                        i: nat, n: nat, j: nat, m: nat)
    requires per > 0 && Mapped(kind, store, ino, owner, used) && i < |ino| && j < |ino|
      && ZoneIx(per, n) < MaxZones(kind) && ZoneIx(per, m) < MaxZones(kind)
    requires i != j || n != m
    requires ZoneOf(kind, store, ino, Slot(i, PtrFor(kind, ZoneIx(per, n)))) != 0
    ensures
      (ZoneOf(kind, store, ino, Slot(i, PtrFor(kind, ZoneIx(per, n))))
        == ZoneOf(kind, store, ino, Slot(j, PtrFor(kind, ZoneIx(per, m))))) ==>
      Boff(per, n) != Boff(per, m)
  {
    var s, t := Slot(i, PtrFor(kind, ZoneIx(per, n))), Slot(j, PtrFor(kind, ZoneIx(per, m)));
    if ZoneOf(kind, store, ino, s) == ZoneOf(kind, store, ino, t) {
      OneOwner(kind, store, ino, owner, used, s, t);
      PosUnique(per, n, m);
    }
  }

  /** Storing one data block changes that block of that file and no other. */
  lemma BlockStored(kind: Kind, per: nat, store0: Store, store1: Store, ino: seq<Inode>, owner: map<nat, Slot>,
                    used: set<nat>, i: nat, n: nat, b: Block, j: nat, m: nat)
    requires per > 0 && Mapped(kind, store0, ino, owner, used) && i < |ino| && j < |ino|
      && ZoneIx(per, n) < MaxZones(kind)
    requires var z := ZoneOf(kind, store0, ino, Slot(i, PtrFor(kind, ZoneIx(per, n))));
      z != 0 && store1 == store0[BlockRef(z, Boff(per, n)) := b] && SameZones(kind, store0, store1, ino)
    ensures BlockOf(kind, per, store1, ino, j, m) == if j == i && m == n then b
      else BlockOf(kind, per, store0, ino, j, m)
  {
    if ZoneIx(per, m) < MaxZones(kind) {
      assert ZoneOf(kind, store1, ino, Slot(j, PtrFor(kind, ZoneIx(per, m))))
        == ZoneOf(kind, store0, ino, Slot(j, PtrFor(kind, ZoneIx(per, m))));
      if j != i || m != n {
        DifferentBlocks(kind, per, store0, ino, owner, used, i, n, j, m);
      }
    }
  }

  /** The block in which a chunk begins is that of the contents, or is going to be overwritten as a whole. */
  ghost predicate ReadyBlock(c: seq<byte>, pos: nat, bytes: seq<byte>, x: Block) {
    |x| == BLOCK_SIZE && (|bytes| == BLOCK_SIZE || x == if pos / BLOCK_SIZE * BLOCK_SIZE < |c|
      then Page(c, pos / BLOCK_SIZE) else ZeroBlock())
  }

  /** Every block but n is that of the contents. */
  ghost predicate ShowsBut(kind: Kind, per: nat, store: Store, ino: seq<Inode>, i: nat, c: seq<byte>, n: nat)
    requires per > 0
  {
    forall m: nat {:trigger BlockOf(kind, per, store, ino, i, m)} ::
      m * BLOCK_SIZE < |c| && m != n ==> BlockOf(kind, per, store, ino, i, m) == Page(c, m)
  }

  /** Writing a chunk into a mapped block: the new contents are shown if and only if the other blocks are right. */
  lemma ChunkStored(kind: Kind, per: nat, store0: Store, store1: Store, ino: seq<Inode>, owner: map<nat, Slot>,
                    used: set<nat>, i: nat, pos: nat, c: seq<byte>, bytes: seq<byte>, x: Block)
    requires per > 0 && Mapped(kind, store0, ino, owner, used) && i < |ino|
      && ZoneIx(per, pos / BLOCK_SIZE) < MaxZones(kind)
    requires pos <= |c| && pos % BLOCK_SIZE + |bytes| <= BLOCK_SIZE && bytes != [] && ReadyBlock(c, pos, bytes, x)
    requires NoneBeyond(kind, per, store0, ino, i, |Splice(c, pos, bytes)|) && Fits(kind, per, |Splice(c, pos, bytes)|)
    requires var z := ZoneOf(kind, store0, ino, PlaceOf(kind, per, i, pos));
      z != 0 && store1 == store0[BlockRef(z, Boff(per, pos / BLOCK_SIZE)) := Overwrite(x, pos % BLOCK_SIZE, bytes)]
        && SameZones(kind, store0, store1, ino)
    ensures FileOk(kind, per, store1, ino, i, Splice(c, pos, bytes)) <==>
      ShowsBut(kind, per, store0, ino, i, c, pos / BLOCK_SIZE)
    ensures forall j :: 0 <= j < |ino| && j != i ==> SameFile(kind, per, store0, ino, store1, ino, j)
  {
    var n, c1 := pos / BLOCK_SIZE, Splice(c, pos, bytes);
    var b := Overwrite(x, pos % BLOCK_SIZE, bytes);
    PageWritten(c, pos, bytes, x);
    forall m: nat
      ensures BlockOf(kind, per, store1, ino, i, m) == if m == n then Page(c1, n)
        else BlockOf(kind, per, store0, ino, i, m)
    {
      BlockStored(kind, per, store0, store1, ino, owner, used, i, n, b, i, m);
    }
    ShowsSpliced(kind, per, store0, store1, ino, i, pos, c, bytes);
    forall j | 0 <= j < |ino| && j != i ensures SameFile(kind, per, store0, ino, store1, ino, j) {
      forall m: nat ensures BlockOf(kind, per, store1, ino, j, m) == BlockOf(kind, per, store0, ino, j, m) {
        BlockStored(kind, per, store0, store1, ino, owner, used, i, n, b, j, m);
      }
    }
  }

  lemma ShowsSpliced(kind: Kind, per: nat, store0: Store, store1: Store, ino: seq<Inode>, i: nat, pos: nat,
                     c: seq<byte>, bytes: seq<byte>)
    requires per > 0 && pos <= |c| && pos % BLOCK_SIZE + |bytes| <= BLOCK_SIZE && bytes != []
    requires forall m: nat {:trigger BlockOf(kind, per, store1, ino, i, m)} {:trigger BlockOf(kind, per, store0, ino,
      i, m)} ::
      BlockOf(kind, per, store1, ino, i, m) == if m == pos / BLOCK_SIZE then Page(Splice(c, pos, bytes), m)
        else BlockOf(kind, per, store0, ino, i, m)
    ensures Shows(kind, per, store1, ino, i, Splice(c, pos, bytes)) <==>
      ShowsBut(kind, per, store0, ino, i, c, pos / BLOCK_SIZE)
  {
    var n, c1 := pos / BLOCK_SIZE, Splice(c, pos, bytes);
    SpliceAt(c, pos, bytes, 0);
    forall m: nat | m != n ensures Page(c1, m) == Page(c, m) && (m * BLOCK_SIZE < |c1| <==> m * BLOCK_SIZE < |c|) {
      PageElsewhere(c, pos, bytes, m);
    }
  }

  // ---------- filling a hole ----------

  /** The blocks of the zone before place `off` are zero. */
  ghost predicate ZeroBelow(store: Store, z: nat, off: nat) {
    forall k: nat :: k < off ==> BlockRef(z, k) in store && store[BlockRef(z, k)] == ZeroBlock()
  }

  /** A block of the zone that has been added. */
  lemma BlockOfNewZone(kind: Kind, per: nat, store1: Store, ino1: seq<Inode>, i: nat, n0: nat, z: nat, n: nat)
    requires per > 0 && StoreOk(store1) && ZoneIx(per, n0) < MaxZones(kind) && ZoneIx(per, n) == ZoneIx(per, n0)
    requires ZoneOf(kind, store1, ino1, Slot(i, PtrFor(kind, ZoneIx(per, n0)))) == z != 0
    ensures BlockOf(kind, per, store1, ino1, i, n) == store1[BlockRef(z, Boff(per, n))]
      && n - Boff(per, n) == n0 - Boff(per, n0)
  {
    PosUnique(per, n, n0);
  }

  /** The other zones of the file. */
  lemma BlockElsewhere(kind: Kind, per: nat, store0: Store, ino0: seq<Inode>, owner0: map<nat, Slot>, used0: set<nat>,
                       store1: Store, ino1: seq<Inode>, i: nat, n0: nat, z: nat, n: nat)
    requires per > 0 && Mapped(kind, store0, ino0, owner0, used0) && i < |ino0| && ZoneIx(per, n0) < MaxZones(kind)
      && ZoneIx(per, n) != ZoneIx(per, n0)
    requires FramedSet(kind, store0, ino0, owner0, store1, ino1, Slot(i, PtrFor(kind, ZoneIx(per, n0))), z)
    ensures BlockOf(kind, per, store1, ino1, i, n) == BlockOf(kind, per, store0, ino0, i, n)
  {
    SameBlock(kind, per, store0, ino0, owner0, used0, store1, ino1, i, n);
  }

  /** Whether block n is an earlier block of the zone of block e. */
  ghost predicate Earlier(per: nat, n: nat, e: nat)
    requires per > 0
  {
    ZoneIx(per, n) == ZoneIx(per, e) && Boff(per, n) < Boff(per, e)
  }

  /** The contents, with the earlier blocks of the zone in which they end as zone z holds them. */
  ghost function Exposed(per: nat, store: Store, z: nat, c: seq<byte>): (r: seq<byte>)
    requires per > 0
    ensures |r| == |c|
  {
    seq(|c|, p requires 0 <= p < |c| => if Earlier(per, p / BLOCK_SIZE, |c| / BLOCK_SIZE)
      then OldByte(store, BlockRef(z, Boff(per, p / BLOCK_SIZE)), p % BLOCK_SIZE) else c[p])
  }

  ghost function OldByte(store: Store, b: BlockRef, o: nat): byte {
    if b in store && o < |store[b]| then store[b][o] else 0
  }

  lemma EarlierBlock(per: nat, n: nat, e: nat)
    requires per > 0 && Earlier(per, n, e)
    ensures n < e
  {
    PosUnique(per, n, e);
  }

  lemma BlockBefore(per: nat, n: nat, e: nat)
    requires per > 0 && ZoneIx(per, n) == ZoneIx(per, e) && n < e
    ensures Earlier(per, n, e)
  {
    PosUnique(per, n, e);
  }

  lemma ExposedByte(per: nat, store: Store, z: nat, c: seq<byte>, n: nat, o: nat, p: nat)
    requires per > 0 && StoreOk(store) && o < BLOCK_SIZE && p == n * BLOCK_SIZE + o
    ensures ByteAt(Exposed(per, store, z, c), p) ==
      if Earlier(per, n, |c| / BLOCK_SIZE) then store[BlockRef(z, Boff(per, n))][o] else ByteAt(c, p)
  {
    assert p / BLOCK_SIZE == n && p % BLOCK_SIZE == o;
    if Earlier(per, n, |c| / BLOCK_SIZE) {
      EarlierBlock(per, n, |c| / BLOCK_SIZE);
      assert p < |c|;
    }
  }

  lemma ExposedPage(per: nat, store: Store, z: nat, c: seq<byte>, n: nat)
    requires per > 0 && StoreOk(store)
    ensures Page(Exposed(per, store, z, c), n) == if Earlier(per, n, |c| / BLOCK_SIZE)
      then store[BlockRef(z, Boff(per, n))] else Page(c, n)
  {
    var a, b := Page(Exposed(per, store, z, c), n), if Earlier(per, n, |c| / BLOCK_SIZE)
      then store[BlockRef(z, Boff(per, n))] else Page(c, n);
    forall o | 0 <= o < BLOCK_SIZE ensures a[o] == b[o] {
      ExposedByte(per, store, z, c, n, o, n * BLOCK_SIZE + o);
    }
    assert a == b;
  }

  /**
   After a hole has been given a zone, the file shows the contents, with what is left in the zone
   unless it was zeroed.
   */
  lemma HoleFilled(kind: Kind, per: nat, store0: Store, ino0: seq<Inode>, owner0: map<nat, Slot>, used0: set<nat>,
                   store1: Store, ino1: seq<Inode>, i: nat, pos: nat, c: seq<byte>, z: nat, zeroed: bool)
    requires per > 0 && Mapped(kind, store0, ino0, owner0, used0) && i < |ino0| && StoreOk(store1)
      && ZoneIx(per, pos / BLOCK_SIZE) < MaxZones(kind)
    requires ZoneAdded(kind, store0, ino0, owner0, store1, ino1, PlaceOf(kind, per, i, pos), z, per, zeroed)
    requires ZoneOf(kind, store0, ino0, PlaceOf(kind, per, i, pos)) == 0 && Shows(kind, per, store0, ino0, i, c)
    requires zeroed || per == 1 || (pos == |c| && LeftOver(store0, store1, BlockRef(z, Boff(per, pos / BLOCK_SIZE))))
    ensures ShowsBut(kind, per, store1, ino1, i, if zeroed
      || per == 1 then c else Exposed(per, store0, z, c), pos / BLOCK_SIZE)
  {
    var n0, d := pos / BLOCK_SIZE, if zeroed || per == 1 then c else Exposed(per, store0, z, c);
    forall n: nat | n * BLOCK_SIZE < |d| && n != n0 ensures BlockOf(kind, per, store1, ino1, i, n) == Page(d, n) {
      ExposedPage(per, store0, z, c, n);
      HoleBlock(kind, per, store0, ino0, owner0, used0, store1, ino1, i, pos, c, z, zeroed, n);
    }
  }

  lemma HoleBlock(kind: Kind, per: nat, store0: Store, ino0: seq<Inode>, owner0: map<nat, Slot>, used0: set<nat>,
                  store1: Store, ino1: seq<Inode>, i: nat, pos: nat, c: seq<byte>, z: nat, zeroed: bool, n: nat)
    requires per > 0 && Mapped(kind, store0, ino0, owner0, used0) && i < |ino0| && StoreOk(store1)
      && ZoneIx(per, pos / BLOCK_SIZE) < MaxZones(kind)
    requires ZoneAdded(kind, store0, ino0, owner0, store1, ino1, PlaceOf(kind, per, i, pos), z, per, zeroed)
    requires ZoneOf(kind, store0, ino0, PlaceOf(kind, per, i, pos)) == 0 && Shows(kind, per, store0, ino0, i, c)
    requires zeroed || per == 1 || (pos == |c| && LeftOver(store0, store1, BlockRef(z, Boff(per, pos / BLOCK_SIZE))))
    requires n * BLOCK_SIZE < |c| && n != pos / BLOCK_SIZE
    ensures BlockOf(kind, per, store1, ino1, i, n) ==
      if !zeroed && per > 1 && Earlier(per, n, pos / BLOCK_SIZE) then store0[BlockRef(z, Boff(per, n))] else Page(c, n)
  {
    var n0 := pos / BLOCK_SIZE;
    assert BlockOf(kind, per, store0, ino0, i, n) == Page(c, n);
    if ZoneIx(per, n) != ZoneIx(per, n0) {
      BlockElsewhere(kind, per, store0, ino0, owner0, used0, store1, ino1, i, n0, z, n);
    } else {
      assert ZoneOf(kind, store1, ino1, PlaceOf(kind, per, i, pos)) == z;
      BlockOfNewZone(kind, per, store1, ino1, i, n0, z, n);
      HolePage(kind, per, store0, ino0, i, c, n);
      if !zeroed && per > 1 { BlockBefore(per, n, n0); }
    }
  }

  /** A position that the map can hold, but for which it names no zone. */
  ghost predicate Unmapped(kind: Kind, per: nat, store: Store, ino: seq<Inode>, i: nat, pos: nat)
    requires per > 0
  {
    ZoneIx(per, pos / BLOCK_SIZE) < MaxZones(kind) && ZoneOf(kind, store, ino, PlaceOf(kind, per, i, pos)) == 0
  }

  /**
   What a chunk written at pos is laid over: the contents, but for a hole at the end of the file,
   which shows what zone z holds.
   */
  ghost function Found(kind: Kind, per: nat, store: Store, ino: seq<Inode>, i: nat, c: seq<byte>, pos: nat,
                       z: nat): (r: seq<byte>)
    requires per > 0 && i < |ino|
    ensures |r| == |c|
  {
    if Unmapped(kind, per, store, ino, i, pos) && pos == ino[i].size == |c| then Exposed(per, store, z, c) else c
  }

  /** The blocks of the zone z that such a chunk uncovers are zero. */
  ghost predicate Harmless(kind: Kind, per: nat, store: Store, ino: seq<Inode>, i: nat, pos: nat, z: nat)
    requires per > 0 && i < |ino|
  {
    Unmapped(kind, per, store, ino, i, pos) && pos == ino[i].size ==> ZeroBelow(store, z, Boff(per, pos / BLOCK_SIZE))
  }

  /** The contents survive if and only if nothing but zeros is uncovered. */
  lemma FoundSame(kind: Kind, per: nat, store: Store, ino: seq<Inode>, i: nat, c: seq<byte>, pos: nat, z: nat)
    requires per > 0 && i < |ino| && StoreOk(store)
    requires Shows(kind, per, store, ino, i, c) && (pos == ino[i].size ==> pos == |c|)
    ensures Found(kind, per, store, ino, i, c, pos, z) == c <==> Harmless(kind, per, store, ino, i, pos, z)
  {
    var e, d := |c| / BLOCK_SIZE, Exposed(per, store, z, c);
    if Unmapped(kind, per, store, ino, i, pos) && pos == ino[i].size {
      if ZeroBelow(store, z, Boff(per, e)) {
        ExposedZeros(kind, per, store, ino, i, c, z);
      } else {
        var k: nat :| k < Boff(per, e) && store[BlockRef(z, k)] != ZeroBlock();
        var n := e - Boff(per, e) + k;
        SameZone(per, e, n);
        PosUnique(per, n, e);
        ExposedPage(per, store, z, c, n);
        HolePage(kind, per, store, ino, i, c, n);
        assert Page(d, n) != Page(c, n);
      }
    }
  }

  lemma ExposedZeros(kind: Kind, per: nat, store: Store, ino: seq<Inode>, i: nat, c: seq<byte>, z: nat)
    requires per > 0 && StoreOk(store) && Shows(kind, per, store, ino, i, c)
    requires ZeroBelow(store, z, Boff(per, |c| / BLOCK_SIZE)) && ZoneIx(per, |c| / BLOCK_SIZE) < MaxZones(kind)
    requires ZoneOf(kind, store, ino, Slot(i, PtrFor(kind, ZoneIx(per, |c| / BLOCK_SIZE)))) == 0
    ensures Exposed(per, store, z, c) == c
  {
    var d := Exposed(per, store, z, c);
    forall p | 0 <= p < |c| ensures d[p] == c[p] {
      var n, o := p / BLOCK_SIZE, p % BLOCK_SIZE;
      ExposedByte(per, store, z, c, n, o, p);
      if Earlier(per, n, |c| / BLOCK_SIZE) {
        HolePage(kind, per, store, ino, i, c, n);
        assert Page(c, n)[o] == c[p];
      }
    }
  }

  lemma HolePage(kind: Kind, per: nat, store0: Store, ino0: seq<Inode>, i: nat, c: seq<byte>, n: nat)
    requires per > 0 && Shows(kind, per, store0, ino0, i, c) && n * BLOCK_SIZE < |c| && ZoneIx(per, n) < MaxZones(kind)
    requires ZoneOf(kind, store0, ino0, Slot(i, PtrFor(kind, ZoneIx(per, n)))) == 0
    ensures Page(c, n) == ZeroBlock()
  {
    assert BlockOf(kind, per, store0, ino0, i, n) == Page(c, n);
  }
}
