/**
 A file that ends inside a zone it does not have. A write that begins there
 gives it a zone without clearing the blocks before the new one: when that
 shows, and a run of calls in which it does.
 */
module FileStale {
  import opened Base
  import opened Bitmap
  import opened Super
  import opened Indirect
  import opened ZoneMap
  import opened Geometry
  import opened Files
  import opened FileZones
  import opened FileData
  import opened Truncate
  import opened FileCalls
  import Runs = FileRuns

  /** The two differ in the blocks of zone z alone. */
  ghost predicate OnlyIn(store: Store, s1: Store, z: nat) {
    StoreOk(s1) && forall r: BlockRef :: r.zone != z ==> r in store && s1[r] == store[r]
  }

  /** The blocks of a zone that nobody names say nothing about which zones are named. */
  lemma {:induction false} UnnamedZone(kind: Kind, store: Store, s1: Store, ino: seq<Inode>, owner: map<nat, Slot>,
                                       used: set<nat>, z: nat, t: Slot)
    requires Mapped(kind, store, ino, owner, used) && z !in owner && OnlyIn(store, s1, z) && SlotOk(kind, ino, t)
    ensures ZoneOf(kind, s1, ino, t) == ZoneOf(kind, store, ino, t)
    decreases if IsRoot(t.p) then 0 else if IsRoot(Parent(t.p)) then 1 else 2
  {
    if !IsRoot(t.p) {
      var q := Slot(t.i, Parent(t.p));
      UnnamedZone(kind, store, s1, ino, owner, used, z, q);
      ZoneFromParent(kind, store, ino, t);
      ZoneFromParent(kind, s1, ino, t);
      var y := ZoneOf(kind, store, ino, q);
      if y != 0 { OneOwner(kind, store, ino, owner, used, q, q); }
      assert y == 0 || y != z;
    }
  }

  function Ones(): (b: Block)
    ensures |b| == BLOCK_SIZE && b[0] == 1
  {
    seq<byte>(BLOCK_SIZE, _ => 1)
  }

  /** A hole at the end of the file shows the old bytes of the zone that is put there. */
  lemma HoleShows(kind: Kind, per: nat, store: Store, s1: Store, ino: seq<Inode>, i: nat, c: seq<byte>, z: nat)
    requires per > 0 && StoreOk(s1) && i < |ino| && Shows(kind, per, store, ino, i, c) && ino[i].size == |c|
    requires TailHole(kind, per, store, ino, i, |c|) && Unmapped(kind, per, s1, ino, i, |c|)
      && s1[BlockRef(z, 0)] == Ones()
    ensures Found(kind, per, s1, ino, i, c, |c|, z) != c
  {
    var e := |c| / BLOCK_SIZE;
    var n := e - Boff(per, e);
    SameZone(per, e, n);
    PosUnique(per, n, e);
    ExposedPage(per, s1, z, c, n);
    HolePage(kind, per, store, ino, i, c, n);
    assert Page(Exposed(per, s1, z, c), n)[0] == 1 && Page(c, n)[0] == 0;
  }

  /** A write is right whatever the free zone it gets holds, if and only if it does not begin at such an end. */
  lemma WhateverFree(kind: Kind, per: nat, store: Store, ino: seq<Inode>, owner: map<nat, Slot>, used: set<nat>,
                     i: nat, c: seq<byte>, p: nat, z: nat)
    requires per > 0 && Mapped(kind, store, ino, owner, used) && i < |ino| && Shows(kind, per, store, ino, i, c)
      && ino[i].size == |c| && z !in owner
    ensures (forall s1 :: OnlyIn(store, s1, z) ==> Found(kind, per, s1, ino, i, c, p, z) == c)
      <==> !(p == |c| && TailHole(kind, per, store, ino, i, |c|))
  {
    if p == |c| && TailHole(kind, per, store, ino, i, |c|) {
      var s1 := store[BlockRef(z, 0) := Ones()];
      UnnamedZone(kind, store, s1, ino, owner, used, z, PlaceOf(kind, per, i, |c|));
      HoleShows(kind, per, store, s1, ino, i, c, z);
      assert OnlyIn(store, s1, z);
    } else {
      forall s1 | OnlyIn(store, s1, z) ensures Found(kind, per, s1, ino, i, c, p, z) == c {
        if Unmapped(kind, per, s1, ino, i, p) && p == |c| {
          UnnamedZone(kind, store, s1, ino, owner, used, z, PlaceOf(kind, per, i, |c|));
          NoEarlier(per, s1, z, c, p);
        }
      }
    }
  }

  // ---------- a run that shows old bytes ----------

  const TwoBlocks: nat := 2                                   // blocks to a zone
  const Native2: Kind := Kind(false, true)

  function NoZones(): ZoneArray { seq(NR_TZONES, _ => 0) }

  function Zeros(): (c: seq<byte>)
    ensures |c| == BLOCK_SIZE
  {
    seq<byte>(BLOCK_SIZE, _ => 0)
  }

  /** The only data zone is 5; its first block holds something. */
  ghost function UsedStore(): Store {
    imap r: BlockRef :: OldBlock(r)
  }

  function OldBlock(r: BlockRef): (b: Block)
    ensures |b| == BLOCK_SIZE
  {
    if r == BlockRef(5, 0) then Ones() else ZeroBlock()
  }

  /** An empty file, and one that has the zone. */
  function FullDisk(): seq<Inode> { [Inode(0, NoZones()), Inode(BLOCK_SIZE, NoZones()[0 := 5])] }

  lemma OneMapped(s: Slot)
    ensures ZoneOf(Native2, UsedStore(), FullDisk(), s) == if s == Slot(1, Direct(0)) then 5 else 0
  {
  }

  lemma BlocksOfZone(n: nat)
    requires n * BLOCK_SIZE < BLOCK_SIZE + 1
    ensures n < 2 && ZoneIx(TwoBlocks, n) == 0 && Boff(TwoBlocks, n) == n && PtrFor(Native2, 0) == Direct(0)
  {
    NamesOne(Native2, PtrFor(Native2, 0), Direct(0), 0);
  }

  lemma FullDiskGood()
    ensures Mapped(Native2, UsedStore(), FullDisk(), map[5 := Slot(1, Direct(0))], {5})
    ensures FileOk(Native2, TwoBlocks, UsedStore(), FullDisk(), 0, [])
      && FileOk(Native2, TwoBlocks, UsedStore(), FullDisk(), 1, Ones())
  {
    forall s: Slot
      ensures ZoneOf(Native2, UsedStore(), FullDisk(), s) == if s == Slot(1, Direct(0)) then 5 else 0 { OneMapped(s); }
    forall n: nat | n * BLOCK_SIZE < BLOCK_SIZE
      ensures ZoneIx(TwoBlocks, n) < MaxZones(Native2)
        && BlockOf(Native2, TwoBlocks, UsedStore(), FullDisk(), 1, n) == Page(Ones(), n)
    {
      BlocksOfZone(n);
      assert n == 0 && Page(Ones(), n) == Ones();
    }
    forall n: nat | ZoneIx(TwoBlocks, n) < MaxZones(Native2)
      && ZoneOf(Native2, UsedStore(), FullDisk(), Slot(1, PtrFor(Native2, ZoneIx(TwoBlocks, n)))) != 0
      ensures (n - Boff(TwoBlocks, n)) * BLOCK_SIZE < BLOCK_SIZE
    {
      FirstZone(n);
    }
  }

  lemma FirstZone(n: nat)
    requires ZoneIx(TwoBlocks, n) < MaxZones(Native2) && PtrFor(Native2, ZoneIx(TwoBlocks, n)) == Direct(0)
    ensures n == Boff(TwoBlocks, n)
  {
    assert Names(Native2, PtrFor(Native2, ZoneIx(TwoBlocks, n)), 0);
    assert ZoneIx(TwoBlocks, n) == 0;
    PosUnique(TwoBlocks, n, n);
  }

  /** The file system with these two files. */
  ghost predicate Small(fs: Fs)
    reads fs, fs.sp, fs.sp.inodeMap, fs.sp.zoneMap
  {
    fs.Valid() && fs.kind == Native2 && fs.per == TwoBlocks && |fs.ino| == 2 && fs.sp.zoneMap.bits == 2
      && fs.sp.firstDataZone == 5
  }

  /** A bit map of which only bits 0 and 1 are set. */
  function TwoBits(): seq<Word> {
    [seq(16, k => k < 2)] + seq(CHUNKS - 1, _ => seq(16, _ => false))
  }

  lemma TwoBitsOnly(b: nat)
    ensures Bit([TwoBits()], true, b) <==> b < 2
  {
    var p := PlaceOfBit(b);
    if b < 2 { OnePlace(b, Place(0, 0, b)); }
    if p.block < 1 && p.word < |TwoBits()| && TwoBits()[p.word][p.bit] {
      assert p.word == 0 && p.bit < 2;
    }
  }

  method NewDisk(store: Store) returns (fs: Fs)
    requires store == UsedStore()
    ensures fresh(fs) && fresh(fs.sp) && fresh(fs.sp.zoneMap) && Small(fs) && fs.store == UsedStore()
      && fs.ino == FullDisk()
    ensures fs.owner == map[5 := Slot(1, Direct(0))]
  {
    forall b: nat ensures Bit([TwoBits()], true, b) <==> b < 2 { TwoBitsOnly(b); }
    var inodes := new BitMap([TwoBits()], true, 3);
    var zones := new BitMap([TwoBits()], true, 2);
    var sp := new SuperBlock(inodes, zones, 2, 6, 5, false);
    FullDiskGood();
    assert sp.ZonesInUse() == {5};
    fs := new Fs(sp, Native2, TwoBlocks, store, FullDisk(), map[5 := Slot(1, Direct(0))]);
  }

  /** With one zone to share, the zone of one file is not that of the other. */
  lemma NotShared(store: Store, ino: seq<Inode>, owner: map<nat, Slot>, used: set<nat>, s: Slot, t: Slot)
    requires Mapped(Native2, store, ino, owner, used) && used <= {5} && s != t && SlotOk(Native2, ino, s)
      && SlotOk(Native2, ino, t)
    requires ZoneOf(Native2, store, ino, s) != 0
    ensures ZoneOf(Native2, store, ino, s) == 5 && ZoneOf(Native2, store, ino, t) == 0
  {
    OneOwner(Native2, store, ino, owner, used, s, s);
    if ZoneOf(Native2, store, ino, t) != 0 { OneOwner(Native2, store, ino, owner, used, t, t); }
  }

  lemma OnlyZone(fs: Fs)
    requires Small(fs)
    ensures fs.sp.ZonesInUse() - {} <= {5}
  {
  }

  lemma Padded(n: nat)
    requires n <= 1
    ensures |After([], BLOCK_SIZE, [7], n)| == BLOCK_SIZE + n
    ensures if n == 0 then After([], BLOCK_SIZE, [7], n) == Zeros() else Page(After([], BLOCK_SIZE, [7], n), 1)[0] == 7
  {
    var c := Pad([], BLOCK_SIZE);
    SpliceAt(c, BLOCK_SIZE, [7][..n], BLOCK_SIZE);
  }

  /** The byte did not get a block, as there is none for it. */
  lemma NoSpace(store: Store, ino: seq<Inode>, owner: map<nat, Slot>, used: set<nat>, n: nat)
    requires Mapped(Native2, store, ino, owner, used) && used <= {5} && |ino| == 2
      && ZoneOf(Native2, store, ino, Slot(1, Direct(0))) != 0 && n <= 1
    requires Shows(Native2, TwoBlocks, store, ino, 0, After([], BLOCK_SIZE, [7], n))
    ensures n == 0 && TailHole(Native2, TwoBlocks, store, ino, 0, BLOCK_SIZE)
  {
    NotShared(store, ino, owner, used, Slot(1, Direct(0)), Slot(0, Direct(0)));
    BlocksOfZone(1);
    Padded(n);
    assert BlockOf(Native2, TwoBlocks, store, ino, 0, 1) == ZeroBlock();
  }

  lemma OneMoreByte(max: nat)
    requires BLOCK_SIZE < max < OFF_T
    ensures Fits(Native2, TwoBlocks, BLOCK_SIZE + 1) && !TooFar(BLOCK_SIZE, 1, max)
  {
    forall n: nat | n * BLOCK_SIZE < BLOCK_SIZE + 1
      ensures ZoneIx(TwoBlocks, n) < MaxZones(Native2) { BlocksOfZone(n); }
    SizeCheck(BLOCK_SIZE, 1, max);
  }

  /**
   A byte is written behind the end of the empty file while the other file has the only zone: no
   byte is written, but the file has grown.
   */
  method GrowInVain(fs: Fs, max: nat) returns (r: WriteResult)
    requires Small(fs) && fs.store == UsedStore() && fs.ino == FullDisk() && BLOCK_SIZE < max < OFF_T
    modifies fs`store, fs`ino, fs`owner, fs.sp`zsearch, fs.sp.zoneMap
    ensures Small(fs) && r == Wrote(0, true)
    ensures FileOk(Native2, TwoBlocks, fs.store, fs.ino, 0, Zeros()) && fs.ino[0].size == BLOCK_SIZE
      && TailHole(Native2, TwoBlocks, fs.store, fs.ino, 0, BLOCK_SIZE)
    ensures FileOk(Native2, TwoBlocks, fs.store, fs.ino, 1, Ones()) && fs.ino[1].size == BLOCK_SIZE
    ensures ZoneOf(Native2, fs.store, fs.ino, Slot(1, Direct(0))) == 5
  {
    FullDiskGood();
    OneMoreByte(max);
    r := Write(fs, 0, BLOCK_SIZE, [7], false, max, []);
    OnlyZone(fs);
    BlocksOfZone(0);
    SameFileOk(Native2, TwoBlocks, UsedStore(), FullDisk(), fs.store, fs.ino, 1, Ones());
    NoSpace(fs.store, fs.ino, fs.owner, fs.sp.ZonesInUse() - {}, r.n);
    Padded(0);
  }
  /** The state between the calls: the file ends in a hole, and the zone it is going to get holds old bytes. */
  ghost predicate Ready(fs: Fs)
    reads fs, fs.sp, fs.sp.inodeMap, fs.sp.zoneMap
  {
    true == (
      && Small(fs) && fs.sp.ZonesInUse() == {} && fs.store[BlockRef(5, 0)] == Ones()
      && FileOk(Native2, TwoBlocks, fs.store, fs.ino, 0, Zeros()) && fs.ino[0].size == BLOCK_SIZE
      && fs.ino[0].zone[0] == 0
      && TailHole(Native2, TwoBlocks, fs.store, fs.ino, 0, BLOCK_SIZE))
  }

  /** The other file is emptied; its zone is free again, and holds what it held. */
  method FreeZone(fs: Fs)
    requires Small(fs) && FileOk(Native2, TwoBlocks, fs.store, fs.ino, 0, Zeros()) && fs.ino[0].size == BLOCK_SIZE
    requires TailHole(Native2, TwoBlocks, fs.store, fs.ino, 0, BLOCK_SIZE)
      && FileOk(Native2, TwoBlocks, fs.store, fs.ino, 1, Ones()) && fs.ino[1].size == BLOCK_SIZE
    requires ZoneOf(Native2, fs.store, fs.ino, Slot(1, Direct(0))) == 5
    modifies fs`ino, fs`owner, fs.sp`zsearch, fs.sp.zoneMap
    ensures Ready(fs)
  {
    ghost var ino0, owner0, used := fs.ino, fs.owner, fs.sp.ZonesInUse() - {};
    BlocksOfZone(0);
    assert BlockOf(Native2, TwoBlocks, fs.store, ino0, 1, 0) == Page(Ones(), 0) == Ones();
    OnlyZone(fs);
    OneOwner(Native2, fs.store, ino0, owner0, used, Slot(1, Direct(0)), Slot(1, Direct(0)));
    Runs.TruncateReady(Native2, TwoBlocks, fs.store, fs.ino, 1, Ones());
    var panicked := Empty(fs, 1);
    assert Others(owner0, 1) == {};
    Runs.EmptyOk(Native2, TwoBlocks, fs.store, ino0, fs.ino, 1);
    SameFileOk(Native2, TwoBlocks, fs.store, ino0, fs.store, fs.ino, 0, Zeros());
    BlocksOfZone(1);
  }

  /** The search for a zone finds the one that is free. */
  lemma NextIsFive(fs: Fs)
    requires Ready(fs)
    ensures fs.NextFor(0) == 5 && Room(fs, BLOCK_SIZE)
  {
    var m := fs.sp.zoneMap;
    assert Bit(m.blocks, m.native, 0) && !Bit(m.blocks, m.native, 1) by {
      assert BitFor(5, 5) == 1 && Numbered(5, 2, 5);
      assert 5 !in fs.sp.ZonesInUse();
    }
    BlocksOfZone(1);
    assert 5 in Range(2, 5);
    var origin := fs.sp.Origin(5);
    assert WordStart(origin, 2) == 0 by { OnePlace(0, Place(0, 0, 0)); OnePlace(1, Place(0, 0, 1)); }
    assert Least(m.blocks, m.native, 2, 0, 1) && Chosen(m.blocks, m.native, 2, 0, 1);
    OneChosen(m.blocks, m.native, 2, 0, 1, NextBit(m.blocks, m.native, 2, 0));
  }

  /** A byte written at the end lets the block before it be read, which nobody has written to this file. */
  method WriteAtHole(fs: Fs, max: nat) returns (r: WriteResult, seen: seq<byte>)
    requires Ready(fs) && BLOCK_SIZE < max < OFF_T
    modifies fs`store, fs`ino, fs`owner, fs.sp`zsearch, fs.sp.zoneMap
    ensures fs.Valid() && r == Wrote(1, false) && seen == Ones()
  {
    ghost var d;
    r, d := WriteByte(fs, max);
    seen := Read(fs, 0, 0, BLOCK_SIZE, d);
  }

  method WriteByte(fs: Fs, max: nat) returns (r: WriteResult, ghost d: seq<byte>)
    requires Ready(fs) && BLOCK_SIZE < max < OFF_T
    modifies fs`store, fs`ino, fs`owner, fs.sp`zsearch, fs.sp.zoneMap
    ensures fs.Valid() && |fs.ino| == 2 && r == Wrote(1, false)
    ensures FileOk(fs.kind, fs.per, fs.store, fs.ino, 0, d) && fs.ino[0].size == |d| > BLOCK_SIZE
      && d[..BLOCK_SIZE] == Ones()
  {
    ghost var c := Found(Native2, TwoBlocks, fs.store, fs.ino, 0, Zeros(), BLOCK_SIZE, 5);
    d := Splice(c, BLOCK_SIZE, [7]);
    NextIsFive(fs);
    OldBytes(fs.store, c);
    OneMoreByte(max);
    r := Write(fs, 0, BLOCK_SIZE, [7], false, max, Zeros());
    assert [7][..1] == [7];
  }

  lemma OldBytes(store: Store, d: seq<byte>)
    requires StoreOk(store) && store[BlockRef(5, 0)] == Ones() && d == Exposed(TwoBlocks, store, 5, Zeros())
    ensures d == Ones() && Splice(d, BLOCK_SIZE, [7])[..BLOCK_SIZE] == Ones()
      && |Splice(d, BLOCK_SIZE, [7])| == BLOCK_SIZE + 1
  {
    BlocksOfZone(0);
    BlocksOfZone(1);
    forall p | 0 <= p < BLOCK_SIZE ensures d[p] == Ones()[p] { ExposedByte(TwoBlocks, store, 5, Zeros(), 0, p, p); }
    assert d == Ones();
  }

  /**
   Four calls after which a file shows the bytes of another: a write that finds
   no space, the other file emptied, the write again, and a read.
   */
  method OldBytesShow(store: Store, max: nat) returns (first: WriteResult, second: WriteResult, seen: seq<byte>)
    requires store == UsedStore() && BLOCK_SIZE < max < OFF_T
    ensures first == Wrote(0, true) && second == Wrote(1, false) && seen == Ones()
  {
    var fs := NewDisk(store);
    first := GrowInVain(fs, max);
    FreeZone(fs);
    second, seen := WriteAtHole(fs, max);
  }
}
