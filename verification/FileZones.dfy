/** new_block, clear_zone, truncate and wipe_inode. */
module FileZones {
  import opened Base
  import opened Indirect
  import opened ZoneMap
  import opened Geometry
  import opened Super
  import opened Files

  /** Writing into the blocks of a data zone changes no zone number. */
  lemma {:induction false} DataStoredAt(kind: Kind, store0: Store, store1: Store, ino: seq<Inode>, owner: map<nat,
                                        Slot>, used: set<nat>, z: nat, t: Slot)
    requires Mapped(kind, store0, ino, owner, used) && z in owner && IsData(owner[z].p) && SlotOk(kind, ino, t)
    requires forall r: BlockRef :: r.zone != z ==> r in store1 && store1[r] == store0[r]
    ensures ZoneOf(kind, store1, ino, t) == ZoneOf(kind, store0, ino, t)
    decreases if IsRoot(t.p) then 0 else if IsRoot(Parent(t.p)) then 1 else 2
  {
    if !IsRoot(t.p) {
      var q := Slot(t.i, Parent(t.p));
      DataStoredAt(kind, store0, store1, ino, owner, used, z, q);
      ZoneFromParent(kind, store0, ino, t);
      ZoneFromParent(kind, store1, ino, t);
      var y := ZoneOf(kind, store0, ino, q);
      if y != 0 { OneOwner(kind, store0, ino, owner, used, q, q); }
      assert y != z;
    }
  }

  lemma DataStored(kind: Kind, store0: Store, store1: Store, ino: seq<Inode>, owner: map<nat, Slot>, used: set<nat>,
                   z: nat)
    requires Mapped(kind, store0, ino, owner, used) && z in owner && IsData(owner[z].p) && StoreOk(store1)
    requires forall r: BlockRef :: r.zone != z ==> r in store1 && store1[r] == store0[r]
    ensures Mapped(kind, store1, ino, owner, used)
    ensures forall t: Slot {:trigger ZoneOf(kind, store1, ino, t)} ::
      SlotOk(kind, ino, t) ==> ZoneOf(kind, store1, ino, t) == ZoneOf(kind, store0, ino, t)
  {
    forall t: Slot | SlotOk(kind, ino, t) ensures ZoneOf(kind, store1, ino, t) == ZoneOf(kind, store0, ino, t) {
      DataStoredAt(kind, store0, store1, ino, owner, used, z, t);
    }
  }

  /** The blocks of zone z from place off on are zero; nothing else has changed. */
  ghost predicate Cleared(store0: Store, store1: Store, z: nat, off: nat, per: nat) {
    forall r: BlockRef :: r in store0 && r in store1 &&
      store1[r] == if r.zone == z && off <= r.off < per then ZeroBlock() else store0[r]
  }

  /** The loop of clear_zone: zero the zone of block n from that block on, if it has a zone. */
  method ClearFrom(fs: Fs, i: nat, n: nat)
    requires fs.Valid() && i < |fs.ino| && ZoneIx(fs.per, n) < MaxZones(fs.kind)
    modifies fs`store
    ensures fs.Valid() && SameZones(fs.kind, old(fs.store), fs.store, fs.ino)
    ensures var z := old(fs.ZoneAt(i, fs.Place(n)));
      if z == 0 then fs.store == old(fs.store) else Cleared(old(fs.store), fs.store, z, Boff(fs.per, n), fs.per)
  {
    ghost var s := Slot(i, fs.Place(n));
    var blo := fs.ReadMap(i, n);
    if blo == None { return; }
    OneOwner(fs.kind, fs.store, fs.ino, fs.owner, fs.sp.ZonesInUse() - {}, s, s);
    ZeroBlocks(fs, blo.value.zone, blo.value.off);
    DataStored(fs.kind, old(fs.store), fs.store, fs.ino, fs.owner, fs.sp.ZonesInUse() - {}, blo.value.zone);
  }

  /** zero_block on the blocks of zone z from place `from` on. */
  method ZeroBlocks(fs: Fs, z: nat, from: nat)
    requires StoreOk(fs.store) && from < fs.per
    modifies fs`store
    ensures StoreOk(fs.store) && Cleared(old(fs.store), fs.store, z, from, fs.per)
  {
    var b := from;
    while b < fs.per
      invariant from <= b <= fs.per && Cleared(old(fs.store), fs.store, z, from, b)
    {
      fs.store := fs.store[BlockRef(z, b) := ZeroBlock()];
      b := b + 1;
    }
  }

  ghost predicate SameZones(kind: Kind, store0: Store, store1: Store, ino: seq<Inode>) {
    // "true ==" makes this one fact to prove, not one for each part.
    true == (forall t: Slot {:trigger ZoneOf(kind, store1, ino, t)} :: SlotOk(kind, ino, t) ==>
      ZoneOf(kind, store1, ino, t) == ZoneOf(kind, store0, ino, t))
  }

  // ---------- clear_zone ----------

  lemma ZoneOfPosition(per: nat, pos: nat)
    requires per > 0
    ensures BLOCK_SIZE * per > 0 && pos / (BLOCK_SIZE * per) == ZoneIx(per, pos / BLOCK_SIZE)
  {
    var n, o := pos / BLOCK_SIZE, pos % BLOCK_SIZE;
    PosDiv(per, n);
    var k, f := n / per, n % per;
    assert n == k * per + f;
    assert pos == BLOCK_SIZE * (k * per + f) + o;
    assert BLOCK_SIZE * (k * per) == k * (BLOCK_SIZE * per);
    DivUnique(BLOCK_SIZE * per, pos, k, BLOCK_SIZE * f + o);
  }

  /** The first byte of the zone of a position. */
  lemma ZoneStart(per: nat, pos: nat)
    requires per > 0
    ensures var zs := BLOCK_SIZE * per; var n := pos / BLOCK_SIZE;
      zs > 0 && pos / zs * zs == BLOCK_SIZE * (n - Boff(per, n))
  {
    var n := pos / BLOCK_SIZE;
    ZoneOfPosition(per, pos);
    PosDiv(per, n);
    var k := n / per;
    assert n == k * per + n % per;
    assert k * (BLOCK_SIZE * per) == BLOCK_SIZE * (k * per);
  }

  /** The first block that clear_zone clears, if it is in the zone of `pos`. */
  ghost function ClearStart(per: nat, pos: nat, flag: bool): nat
    requires per > 0
  {
    var n := pos / BLOCK_SIZE;
    if flag then n - Boff(per, n) else (pos + BLOCK_SIZE - 1) / BLOCK_SIZE
  }

  /** What clear_zone does to the blocks of the device. */
  ghost predicate ClearedZone(kind: Kind, per: nat, store0: Store, ino: seq<Inode>, store1: Store, i: nat, pos: nat,
                              flag: bool)
    requires per > 0 && ZoneIx(per, pos / BLOCK_SIZE) < MaxZones(kind)
  {
    var n := pos / BLOCK_SIZE;
    var z, m := ZoneOf(kind, store0, ino, Slot(i, PtrFor(kind, ZoneIx(per, n)))), ClearStart(per, pos, flag);
    if per > 1 && ZoneIx(per, m) == ZoneIx(per, n) && z != 0 then Cleared(store0, store1, z, Boff(per, m), per)
    else store1 == store0
  }

  lemma StartPosition(per: nat, pos: nat, flag: bool, p: nat)
    requires per > 0
    requires p == if flag then BLOCK_SIZE * (pos / BLOCK_SIZE - Boff(per, pos / BLOCK_SIZE)) else pos
    ensures (p + BLOCK_SIZE - 1) / BLOCK_SIZE == ClearStart(per, pos, flag)
    ensures ZoneIx(per, p / BLOCK_SIZE) == ZoneIx(per, pos / BLOCK_SIZE)
  {
    var n := pos / BLOCK_SIZE;
    if flag {
      assert p / BLOCK_SIZE == n - Boff(per, n);
      SameZone(per, n, n - Boff(per, n));
    }
  }

  /** clear_zone */
  method ClearZone(fs: Fs, i: nat, pos: nat, flag: bool)
    requires fs.Valid() && i < |fs.ino| && ZoneIx(fs.per, pos / BLOCK_SIZE) < MaxZones(fs.kind)
    modifies fs`store
    ensures fs.Valid() && SameZones(fs.kind, old(fs.store), fs.store, fs.ino)
    ensures ClearedZone(fs.kind, fs.per, old(fs.store), fs.ino, fs.store, i, pos, flag)
  {
    if fs.per == 1 { return; }
    var m := ClearBlock(fs.per, pos, flag);
    if m == None { return; }
    ClearFrom(fs, i, m.value);
  }

  /** The position arithmetic of clear_zone: the block to start from, if it is in the same zone. */
  method ClearBlock(per: nat, pos: nat, flag: bool) returns (m: Option<nat>)
    requires per > 0
    ensures var s := ClearStart(per, pos, flag);
      m == if ZoneIx(per, s) == ZoneIx(per, pos / BLOCK_SIZE) then Some(s) else None
  {
    ZoneOfPosition(per, pos);
    ZoneStart(per, pos);
    var zoneSize := BLOCK_SIZE * per;
    var p := if flag then pos / zoneSize * zoneSize else pos;
    var next := p + BLOCK_SIZE - 1;
    StartPosition(per, pos, flag, p);
    ZoneOfPosition(per, next);
    ZoneOfPosition(per, p);
    m := if next / zoneSize != p / zoneSize then None else Some(next / BLOCK_SIZE);
  }

  // ---------- new_block ----------

  ghost function PlaceOf(kind: Kind, per: nat, i: nat, pos: nat): Slot
    requires per > 0 && ZoneIx(per, pos / BLOCK_SIZE) < MaxZones(kind)
  {
    Slot(i, PtrFor(kind, ZoneIx(per, pos / BLOCK_SIZE)))
  }

  /** All blocks of a zone are zero. */
  ghost predicate AllZero(store: Store, z: nat, per: nat) {
    forall off: nat :: off < per ==> BlockRef(z, off) in store && store[BlockRef(z, off)] == ZeroBlock()
  }

  /** Data place s, empty before, names the new zone z; unless the file ends at `pos`, the zone is zeroed. */
  ghost predicate ZoneAdded(kind: Kind, store0: Store, ino0: seq<Inode>, owner0: map<nat, Slot>, store1: Store,
                            ino1: seq<Inode>, s: Slot, z: nat, per: nat, zeroed: bool)
  {
    true == (
      && z != 0 && z !in owner0 && FramedSet(kind, store0, ino0, owner0, store1, ino1, s, z)
      && (zeroed ==> AllZero(store1, z, per)))
  }

  /** Clearing the whole of a new zone. */
  lemma WholeZone(kind: Kind, per: nat, store0: Store, ino: seq<Inode>, store1: Store, i: nat, pos: nat)
    requires per > 1 && ZoneIx(per, pos / BLOCK_SIZE) < MaxZones(kind)
      && ClearedZone(kind, per, store0, ino, store1, i, pos, true)
    ensures var z := ZoneOf(kind, store0, ino, PlaceOf(kind, per, i, pos));
      z != 0 ==> AllZero(store1, z, per) && forall r: BlockRef ::
        r.zone != z ==> r in store0 && r in store1 && store1[r] == store0[r]
  {
    var n := pos / BLOCK_SIZE;
    SameZone(per, n, n - Boff(per, n));
    PosUnique(per, n, n - Boff(per, n));
  }

  lemma AddedThenCleared(kind: Kind, store0: Store, ino0: seq<Inode>, owner0: map<nat, Slot>, store1: Store,
                         ino1: seq<Inode>, store2: Store, s: Slot, z: nat, per: nat)
    requires FramedSet(kind, store0, ino0, owner0, store1, ino1, s, z) && SameZones(kind, store1, store2, ino1)
    requires z != 0 && z !in owner0 && AllZero(store2, z, per)
    requires forall r: BlockRef :: r.zone != z ==> r in store1 && r in store2 && store2[r] == store1[r]
    ensures ZoneAdded(kind, store0, ino0, owner0, store2, ino1, s, z, per, true)
  {
    forall t: Slot | SlotOk(kind, ino0, t) && IsData(t.p)
      ensures ZoneOf(kind, store2, ino1, t) == if t == s then z else ZoneOf(kind, store0, ino0, t)
    {
      assert SlotOk(kind, ino1, t) && ZoneOf(kind, store1, ino1, t) == if t == s then z
        else ZoneOf(kind, store0, ino0, t);
    }
  }

  /** At most one zone is free. */
  ghost predicate Crowded(sp: SuperBlock)
    reads sp.zoneMap
  {
    exists z: nat {:trigger sp.ZonesInUse() + {z}} :: Range(sp.zoneMap.bits, sp.firstDataZone) <= sp.ZonesInUse() + {z}
  }

  /** A zone is free, and the inode itself names the zone of the position. */
  ghost predicate Room(fs: Fs, pos: nat)
    requires fs.per > 0
    reads fs, fs.sp, fs.sp.zoneMap
  {
    ZoneIx(fs.per, pos / BLOCK_SIZE) < NR_DZONES && fs.sp.ZonesInUse() != Range(fs.sp.zoneMap.bits, fs.sp.firstDataZone)
  }

  lemma CrowdedBut(sp: SuperBlock, z: nat)
    requires Range(sp.zoneMap.bits, sp.firstDataZone) <= sp.ZonesInUse() + {z}
    ensures Crowded(sp)
  {
  }

  /** The part of new_block that allocates a zone and enters it in the map. */
  method AddZone(fs: Fs, i: nat, pos: nat) returns (z: nat)
    requires fs.Valid() && i < |fs.ino| && ZoneIx(fs.per, pos / BLOCK_SIZE) < MaxZones(fs.kind)
    requires ZoneOf(fs.kind, fs.store, fs.ino, PlaceOf(fs.kind, fs.per, i, pos)) == 0
    modifies fs`store, fs`ino, fs`owner, fs.sp`zsearch, fs.sp.zoneMap
    ensures fs.Valid()
    ensures z == 0 ==>
      Framed(fs.kind, old(fs.store), old(fs.ino), old(fs.owner), fs.store, fs.ino) && Crowded(fs.sp)
      && !old(Room(fs, pos))
    ensures z != 0 ==> z == old(fs.NextFor(i)) && KeptIn(old(fs.store), fs.store, {z})
    ensures z != 0 ==>
      z !in old(fs.owner) && FramedSet(fs.kind, old(fs.store), old(fs.ino), old(fs.owner), fs.store, fs.ino,
      PlaceOf(fs.kind, fs.per, i, pos), z)
  {
    ghost var used := fs.sp.ZonesInUse();
    z := fs.Claim(if fs.ino[i].zone[0] == NO_ZONE then fs.sp.firstDataZone else fs.ino[i].zone[0]);
    if z == NO_ZONE {
      FramedNot(fs.kind, fs.store, fs.ino, fs.owner, used - {});
      CrowdedBut(fs.sp, 0);
      return;
    }
    assert used + {z} - {z} == used - {};
    var ok := fs.WriteMap(i, pos / BLOCK_SIZE, z);
    if !ok {
      GiveBack(fs, z);
      z := NO_ZONE;
    }
  }

  /** free_zone on a zone that found no place in the map. */
  method GiveBack(fs: Fs, z: nat)
    requires fs.Pending({z}) && fs.sp.ZonesInUse() == Range(fs.sp.zoneMap.bits, fs.sp.firstDataZone)
    modifies fs.sp`zsearch, fs.sp.zoneMap
    ensures fs.Valid() && Crowded(fs.sp)
  {
    var panicked := fs.sp.FreeZone(z);
    assert !panicked;
    assert fs.sp.ZonesInUse() - {} == fs.sp.ZonesInUse();
    CrowdedBut(fs.sp, z);
  }

  /** A new zone for the position, zeroed unless the file ends there. */
  method NewZone(fs: Fs, i: nat, pos: nat) returns (z: nat)
    requires fs.Valid() && i < |fs.ino| && ZoneIx(fs.per, pos / BLOCK_SIZE) < MaxZones(fs.kind)
    requires ZoneOf(fs.kind, fs.store, fs.ino, PlaceOf(fs.kind, fs.per, i, pos)) == 0
    modifies fs`store, fs`ino, fs`owner, fs.sp`zsearch, fs.sp.zoneMap
    ensures fs.Valid()
    ensures z == 0 ==>
      Framed(fs.kind, old(fs.store), old(fs.ino), old(fs.owner), fs.store, fs.ino) && Crowded(fs.sp)
      && !old(Room(fs, pos))
    ensures z != 0 ==> z == old(fs.NextFor(i)) && (pos == old(fs.ino)[i].size ==> KeptIn(old(fs.store), fs.store, {z}))
    ensures z != 0 ==>
      ZoneAdded(fs.kind, old(fs.store), old(fs.ino), old(fs.owner), fs.store, fs.ino,
      PlaceOf(fs.kind, fs.per, i, pos), z,
                                 fs.per, fs.per > 1 && pos != old(fs.ino)[i].size)
  {
    ghost var store0, ino0, owner0 := fs.store, fs.ino, fs.owner;
    z := AddZone(fs, i, pos);
    if z == NO_ZONE || pos == fs.ino[i].size || fs.per == 1 { return; }
    ghost var store1 := fs.store;
    ghost var s := PlaceOf(fs.kind, fs.per, i, pos);
    assert ZoneOf(fs.kind, store1, fs.ino, s) == z;
    ClearZone(fs, i, pos, true);
    WholeZone(fs.kind, fs.per, store1, fs.ino, fs.store, i, pos);
    AddedThenCleared(fs.kind, store0, ino0, owner0, store1, fs.ino, fs.store, s, z, fs.per);
  }

  /** What new_block does; z is the zone of the block, 0 if there is no space for it. */
  ghost predicate NewBlockOutcome(kind: Kind, store0: Store, ino0: seq<Inode>, owner0: map<nat, Slot>, store1: Store,
                                  ino1: seq<Inode>, s: Slot, z: nat, per: nat, off: nat, zeroed: bool)
  {
    var z0 := ZoneOf(kind, store0, ino0, s);
    if z0 != 0 then
      z == z0 && ino1 == ino0 && BlockRef(z, off) in store0 && store1 == store0[BlockRef(z, off) := ZeroBlock()]
        && SameZones(kind, store0, store1, ino0)
    else if z == 0 then Framed(kind, store0, ino0, owner0, store1, ino1)
    else
      ZoneAdded(kind, store0, ino0, owner0, store1, ino1, s, z, per, zeroed) && BlockRef(z, off) in store1
        && store1[BlockRef(z, off)] == ZeroBlock()
  }

  /** The blocks of the zone before b hold what they held. */
  ghost predicate LeftOver(store0: Store, store1: Store, b: BlockRef) {
    forall k: nat ::
      k < b.off ==>
      BlockRef(b.zone, k) in store0 && BlockRef(b.zone, k) in store1
      && store1[BlockRef(b.zone, k)] == store0[BlockRef(b.zone, k)]
  }

  /** zero_block on a block of a data zone. */
  method ZeroData(fs: Fs, b: BlockRef)
    requires fs.Valid() && b.zone in fs.owner && IsData(fs.owner[b.zone].p)
    modifies fs`store
    ensures fs.Valid() && fs.store == old(fs.store)[b := ZeroBlock()]
      && SameZones(fs.kind, old(fs.store), fs.store, fs.ino)
  {
    fs.store := fs.store[b := ZeroBlock()];
    DataStored(fs.kind, old(fs.store), fs.store, fs.ino, fs.owner, fs.sp.ZonesInUse() - {}, b.zone);
  }

  lemma ZeroAfterAdding(kind: Kind, store0: Store, ino0: seq<Inode>, owner0: map<nat, Slot>, store1: Store,
                        ino1: seq<Inode>, store2: Store, s: Slot, z: nat, per: nat, off: nat, zeroed: bool)
    requires ZoneAdded(kind, store0, ino0, owner0, store1, ino1, s, z, per, zeroed)
      && SameZones(kind, store1, store2, ino1)
    requires StoreOk(store1) && store2 == store1[BlockRef(z, off) := ZeroBlock()]
    ensures ZoneAdded(kind, store0, ino0, owner0, store2, ino1, s, z, per, zeroed)
  {
    forall t: Slot | SlotOk(kind, ino0, t) && IsData(t.p)
      ensures ZoneOf(kind, store2, ino1, t) == if t == s then z else ZoneOf(kind, store0, ino0, t)
    {
      assert SlotOk(kind, ino1, t) && ZoneOf(kind, store1, ino1, t) == if t == s then z
        else ZoneOf(kind, store0, ino0, t);
    }
  }

  /** new_block: a zero block for a position of a file. */
  method NewBlock(fs: Fs, i: nat, pos: nat) returns (r: Option<BlockRef>)
    requires fs.Valid() && i < |fs.ino| && ZoneIx(fs.per, pos / BLOCK_SIZE) < MaxZones(fs.kind)
    modifies fs`store, fs`ino, fs`owner, fs.sp`zsearch, fs.sp.zoneMap
    ensures fs.Valid() && (r.Some? ==> r.value.off == Boff(fs.per, pos / BLOCK_SIZE) && r.value.zone != 0)
    ensures r == None ==> Crowded(fs.sp) && !old(Room(fs, pos))
    ensures r.Some? && old(fs.ZoneAt(i, PlaceOf(fs.kind, fs.per, i, pos).p)) == 0 ==>
      r.value.zone == old(fs.NextFor(i)) && (pos == old(fs.ino)[i].size ==> LeftOver(old(fs.store), fs.store, r.value))
    ensures NewBlockOutcome(fs.kind, old(fs.store), old(fs.ino), old(fs.owner), fs.store, fs.ino,
      PlaceOf(fs.kind, fs.per, i, pos),
                            if r.Some? then r.value.zone else 0, fs.per, Boff(fs.per, pos / BLOCK_SIZE),
                            fs.per > 1 && pos != old(fs.ino)[i].size)
  {
    ghost var s := PlaceOf(fs.kind, fs.per, i, pos);
    r := fs.ReadMap(i, pos / BLOCK_SIZE);
    if r.Some? {
      OneOwner(fs.kind, fs.store, fs.ino, fs.owner, fs.sp.ZonesInUse() - {}, s, s);
      ZeroData(fs, r.value);
      return;
    }
    r := FreshBlock(fs, i, pos);
  }

  /** new_block where no block is mapped yet. */
  method FreshBlock(fs: Fs, i: nat, pos: nat) returns (r: Option<BlockRef>)
    requires fs.Valid() && i < |fs.ino| && ZoneIx(fs.per, pos / BLOCK_SIZE) < MaxZones(fs.kind)
    requires ZoneOf(fs.kind, fs.store, fs.ino, PlaceOf(fs.kind, fs.per, i, pos)) == 0
    modifies fs`store, fs`ino, fs`owner, fs.sp`zsearch, fs.sp.zoneMap
    ensures fs.Valid() && (r.Some? ==> r.value.off == Boff(fs.per, pos / BLOCK_SIZE) && r.value.zone != 0)
    ensures r == None ==> Crowded(fs.sp) && !old(Room(fs, pos))
    ensures r.Some? ==>
      r.value.zone == old(fs.NextFor(i)) && (pos == old(fs.ino)[i].size ==> LeftOver(old(fs.store), fs.store, r.value))
    ensures NewBlockOutcome(fs.kind, old(fs.store), old(fs.ino), old(fs.owner), fs.store, fs.ino,
      PlaceOf(fs.kind, fs.per, i, pos),
                            if r.Some? then r.value.zone else 0, fs.per, Boff(fs.per, pos / BLOCK_SIZE),
                            fs.per > 1 && pos != old(fs.ino)[i].size)
  {
    ghost var s := PlaceOf(fs.kind, fs.per, i, pos);
    var z := NewZone(fs, i, pos);
    if z == NO_ZONE { return None; }
    ghost var store1 := fs.store;
    var off := BlockInZone(fs.per, pos);
    var b := BlockRef(z, off);
    assert ZoneOf(fs.kind, store1, fs.ino, s) == z;
    OneOwner(fs.kind, store1, fs.ino, fs.owner, fs.sp.ZonesInUse() - {}, s, s);
    ZeroData(fs, b);
    ZeroAfterAdding(fs.kind, old(fs.store), old(fs.ino), old(fs.owner), store1, fs.ino, fs.store, s, z, fs.per, b.off,
                    fs.per > 1 && pos != old(fs.ino)[i].size);
    r := Some(b);
  }

  /** (position % zone_size) / BLOCK_SIZE */
  method BlockInZone(per: nat, pos: nat) returns (off: nat)
    requires per > 0
    ensures off == Boff(per, pos / BLOCK_SIZE)
  {
    ZoneStart(per, pos);
    var zoneSize := BLOCK_SIZE * per;
    assert pos == pos / zoneSize * zoneSize + pos % zoneSize;
    off := pos % zoneSize / BLOCK_SIZE;
  }
}
