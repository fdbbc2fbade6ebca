/**
 The zones of files: read_map, write_map, new_block, clear_zone, truncate and
 wipe_inode over the zone allocator.
 */
module Files {
  import opened Base
  import opened Indirect
  import opened ZoneMap
  import opened Geometry
  import opened Super

  /** The data places name the same zones, sizes are the same, and no block of a data zone has changed. */
  ghost predicate Framed(kind: Kind, store0: Store, ino0: seq<Inode>, owner0: map<nat, Slot>, store1: Store,
                         ino1: seq<Inode>) {
    // "true ==" makes this one fact to prove, not one for each part.
    true == (
      && |ino1| == |ino0| && (forall i :: 0 <= i < |ino0| ==> ino1[i].size == ino0[i].size)
      && (forall t: Slot {:trigger ZoneOf(kind, store1, ino1, t)} :: SlotOk(kind, ino0, t) && IsData(t.p) ==>
        ZoneOf(kind, store1, ino1, t) == ZoneOf(kind, store0, ino0, t))
      && DataKept(store0, owner0, store1))
  }

  ghost predicate DataKept(store0: Store, owner0: map<nat, Slot>, store1: Store) {
    forall r: BlockRef ::
      r.zone in owner0 && IsData(owner0[r.zone].p) ==> r in store0 && r in store1 && store1[r] == store0[r]
  }

  /** No block of these zones has changed. */
  ghost predicate KeptIn(store0: Store, store1: Store, zs: set<nat>) {
    true == (forall r: BlockRef :: r.zone in zs ==> r in store0 && r in store1 && store1[r] == store0[r])
  }

  /** Storing into the block of a named zone leaves the zones that nobody names. */
  lemma NamedApart(kind: Kind, store0: Store, store1: Store, ino: seq<Inode>, owner: map<nat, Slot>, used: set<nat>,
                   zs: set<nat>, q: Slot, d: nat, b: Block)
    requires Mapped(kind, store0, ino, owner, used - zs) && StoreOk(store1) && SlotOk(kind, ino, q)
    requires d == ZoneOf(kind, store0, ino, q) != 0 && store1 == store0[BlockRef(d, 0) := b]
    ensures KeptIn(store0, store1, zs)
  {
    OneOwner(kind, store0, ino, owner, used - zs, q, q);
  }

  /** The same, except that data place s now names z. */
  ghost predicate FramedSet(kind: Kind, store0: Store, ino0: seq<Inode>, owner0: map<nat, Slot>, store1: Store,
                            ino1: seq<Inode>, s: Slot, z: nat) {
    true == (
      && |ino1| == |ino0| && (forall i :: 0 <= i < |ino0| ==> ino1[i].size == ino0[i].size)
      && (forall t: Slot {:trigger ZoneOf(kind, store1, ino1, t)} :: SlotOk(kind, ino0, t) && IsData(t.p) ==>
        ZoneOf(kind, store1, ino1, t) == if t == s then z else ZoneOf(kind, store0, ino0, t))
      && DataKept(store0, owner0, store1))
  }

  /** The owners of data zones are determined by the places, so they carry over. */
  lemma FramedOwners(kind: Kind, store0: Store, ino0: seq<Inode>, owner0: map<nat, Slot>, used0: set<nat>,
                     store1: Store, ino1: seq<Inode>, owner1: map<nat, Slot>, used1: set<nat>, z: nat)
    requires Mapped(kind, store0, ino0, owner0, used0) && Mapped(kind, store1, ino1, owner1, used1)
    requires Framed(kind, store0, ino0, owner0, store1, ino1) && z in owner0 && IsData(owner0[z].p)
    ensures z in owner1 && owner1[z] == owner0[z]
  {
    assert ZoneOf(kind, store1, ino1, owner0[z]) == z;
  }

  lemma FramedTwice(kind: Kind, store0: Store, ino0: seq<Inode>, owner0: map<nat, Slot>, used0: set<nat>,
                    store1: Store, ino1: seq<Inode>, owner1: map<nat, Slot>, used1: set<nat>, store2: Store,
                    ino2: seq<Inode>)
    requires Mapped(kind, store0, ino0, owner0, used0) && Mapped(kind, store1, ino1, owner1, used1)
    requires Framed(kind, store0, ino0, owner0, store1, ino1) && Framed(kind, store1, ino1, owner1, store2, ino2)
    ensures Framed(kind, store0, ino0, owner0, store2, ino2)
  {
    forall t: Slot | SlotOk(kind, ino0, t) && IsData(t.p)
      ensures ZoneOf(kind, store2, ino2, t) == ZoneOf(kind, store0, ino0, t) {
      assert ZoneOf(kind, store1, ino1, t) == ZoneOf(kind, store0, ino0, t);
    }
    forall r: BlockRef | r.zone in owner0 && IsData(owner0[r.zone].p)
      ensures r in store0 && r in store2 && store2[r] == store0[r] {
      FramedOwners(kind, store0, ino0, owner0, used0, store1, ino1, owner1, used1, r.zone);
    }
  }

  lemma FramedThenSet(kind: Kind, store0: Store, ino0: seq<Inode>, owner0: map<nat, Slot>, used0: set<nat>,
                      store1: Store, ino1: seq<Inode>, owner1: map<nat, Slot>, used1: set<nat>, store2: Store,
                      ino2: seq<Inode>, s: Slot, z: nat)
    requires Mapped(kind, store0, ino0, owner0, used0) && Mapped(kind, store1, ino1, owner1, used1)
    requires Framed(kind, store0, ino0, owner0, store1, ino1)
      && FramedSet(kind, store1, ino1, owner1, store2, ino2, s, z)
    ensures FramedSet(kind, store0, ino0, owner0, store2, ino2, s, z)
  {
    forall t: Slot | SlotOk(kind, ino0, t) && IsData(t.p)
      ensures ZoneOf(kind, store2, ino2, t) == if t == s then z else ZoneOf(kind, store0, ino0, t)
    {
      assert ZoneOf(kind, store1, ino1, t) == ZoneOf(kind, store0, ino0, t);
    }
    forall r: BlockRef | r.zone in owner0 && IsData(owner0[r.zone].p)
      ensures r in store0 && r in store2 && store2[r] == store0[r] {
      FramedOwners(kind, store0, ino0, owner0, used0, store1, ino1, owner1, used1, r.zone);
    }
  }

  /** A zone for an indirect block changes no data place. */
  lemma MetaFramed(kind: Kind, store0: Store, ino0: seq<Inode>, owner0: map<nat, Slot>, used0: set<nat>,
                   store1: Store, ino1: seq<Inode>, s: Slot, z: nat)
    requires Mapped(kind, store0, ino0, owner0, used0) && PtrSet(kind, store0, ino0, store1, ino1, s, z) && !IsData(s.p)
    requires forall i :: 0 <= i < |ino0| ==> ino1[i].size == ino0[i].size
    requires StoreOk(store1) && forall r: BlockRef ::
      r.zone in owner0 && IsData(owner0[r.zone].p) ==> store1[r] == store0[r]
    ensures Framed(kind, store0, ino0, owner0, store1, ino1)
  {
  }

  lemma FramedNot(kind: Kind, store: Store, ino: seq<Inode>, owner: map<nat, Slot>, used: set<nat>)
    requires Mapped(kind, store, ino, owner, used)
    ensures Framed(kind, store, ino, owner, store, ino)
  {
  }

  /** A new zone for an indirect block. */
  lemma AddMeta(kind: Kind, store0: Store, ino0: seq<Inode>, store1: Store, ino1: seq<Inode>, owner: map<nat, Slot>,
                used: set<nat>, s: Slot, z: nat)
    requires Mapped(kind, store0, ino0, owner, used) && PtrSet(kind, store0, ino0, store1, ino1, s, z)
      && StoreOk(store1)
    requires z != 0 && z !in used && SlotOk(kind, ino0, s) && ZoneOf(kind, store0, ino0, s) == 0 && !IsData(s.p)
    requires forall i :: 0 <= i < |ino0| ==> ino1[i].size == ino0[i].size
    requires forall r: BlockRef :: r.zone in owner && IsData(owner[r.zone].p) ==> store1[r] == store0[r]
    ensures Mapped(kind, store1, ino1, owner[z := s], used + {z}) && Framed(kind, store0, ino0, owner, store1, ino1)
  {
    MappedAdd(kind, store0, ino0, store1, ino1, owner, used, s, z);
    MetaFramed(kind, store0, ino0, owner, used, store1, ino1, s, z);
  }

  /** A data zone, entered in the indirect block of place q. */
  lemma DataAdded(kind: Kind, store0: Store, ino0: seq<Inode>, store1: Store, ino1: seq<Inode>, owner: map<nat, Slot>,
                  used: set<nat>, s: Slot, z: nat, z0: nat, q: Slot)
    requires Mapped(kind, store0, ino0, owner, used) && PtrSet(kind, store0, ino0, store1, ino1, s, z)
      && StoreOk(store1)
    requires z != 0 && z !in used && SlotOk(kind, ino0, s) && ZoneOf(kind, store0, ino0, s) == z0
    requires forall i :: 0 <= i < |ino0| ==> ino1[i].size == ino0[i].size
    requires SlotOk(kind, ino0, q) && !IsData(q.p) && ZoneOf(kind, store0, ino0, q) != 0
    requires forall r: BlockRef :: r.zone != ZoneOf(kind, store0, ino0, q) ==> store1[r] == store0[r]
    ensures Mapped(kind, store1, ino1, Reowned(owner, s, z0, z), used + {z} - Displaced(z0))
      && FramedSet(kind, store0, ino0, owner, store1, ino1, s, z)
  {
    MappedSet(kind, store0, ino0, store1, ino1, owner, used, s, z, z0);
    OneOwner(kind, store0, ino0, owner, used, q, q);
  }

  lemma DataAddedInode(kind: Kind, store: Store, ino0: seq<Inode>, ino1: seq<Inode>, owner: map<nat, Slot>,
                       used: set<nat>, s: Slot, z: nat, z0: nat)
    requires Mapped(kind, store, ino0, owner, used) && PtrSet(kind, store, ino0, store, ino1, s, z)
    requires z != 0 && z !in used && SlotOk(kind, ino0, s) && ZoneOf(kind, store, ino0, s) == z0
    requires forall i :: 0 <= i < |ino0| ==> ino1[i].size == ino0[i].size
    ensures Mapped(kind, store, ino1, Reowned(owner, s, z0, z), used + {z} - Displaced(z0))
      && FramedSet(kind, store, ino0, owner, store, ino1, s, z)
  {
    MappedSet(kind, store, ino0, store, ino1, owner, used, s, z, z0);
  }

  lemma FramedAt(kind: Kind, store0: Store, ino0: seq<Inode>, owner0: map<nat, Slot>, store1: Store, ino1: seq<Inode>,
                 t: Slot)
    requires Framed(kind, store0, ino0, owner0, store1, ino1) && SlotOk(kind, ino0, t) && IsData(t.p)
    ensures ZoneOf(kind, store1, ino1, t) == ZoneOf(kind, store0, ino0, t)
  {
  }

  lemma LimitPositive(kind: Kind)
    ensures Limit(kind) > 0
  {
  }

  lemma WithPending(used: set<nat>, zs: set<nat>, z: nat)
    requires z !in used && zs <= used
    ensures used + {z} - zs == used - zs + {z} && zs <= used + {z}
  {
  }

  lemma RootAdded(kind: Kind, store0: Store, ino0: seq<Inode>, store1: Store, ino1: seq<Inode>, owner: map<nat, Slot>,
                  used: set<nat>, zs: set<nat>, s: Slot, z: nat)
    requires Mapped(kind, store0, ino0, owner, used - zs) && zs <= used && z !in used && z != 0
    requires SlotOk(kind, ino0, s) && (s.p == Ind || s.p == Dbl) && ZoneOf(kind, store0, ino0, s) == 0
    requires var n := ino0[s.i]; ino1 == ino0[s.i := n.(zone := n.zone[Root(s.p) := z])]
    requires store1 == store0[BlockRef(z, 0) := ZeroBlock()]
    ensures Mapped(kind, store1, ino1, owner[z := s], used + {z} - zs)
      && Framed(kind, store0, ino0, owner, store1, ino1)
    ensures ZoneOf(kind, store1, ino1, s) == z
  {
    WithPending(used, zs, z);
    RootStored(kind, store0, ino0, store1, ino1, owner, used - zs, s, z);
    AddMeta(kind, store0, ino0, store1, ino1, owner, used - zs, s, z);
  }

  lemma SubAdded(kind: Kind, store0: Store, store2: Store, ino: seq<Inode>, owner: map<nat, Slot>, used: set<nat>,
                 zs: set<nat>, s: Slot, b: Block, z: nat, d: nat, now: set<nat>)
    requires Mapped(kind, store0, ino, owner, used - zs) && zs <= used && z !in used && z != 0 && now == used + {z}
    requires SlotOk(kind, ino, s) && s.p.Sub? && ZoneOf(kind, store0, ino, s) == 0
    requires d == ZoneOf(kind, store0, ino, Slot(s.i, Dbl)) != 0
      && EntrySet(kind, store0[BlockRef(d, 0)], b, Index(s.p), z)
    requires store2 == store0[BlockRef(d, 0) := b][BlockRef(z, 0) := ZeroBlock()]
    ensures Mapped(kind, store2, ino, owner[z := s], now - zs) && zs <= now
    ensures SubThere(kind, store0, ino, owner, store2, s.i, s.p.j, z, zs)
  {
    WithPending(used, zs, z);
    NamedApart(kind, store0, store0[BlockRef(d, 0) := b], ino, owner, used, zs, Slot(s.i, Dbl), d, b);
    SubStored(kind, store0, store0[BlockRef(d, 0) := b], store2, ino, owner, used - zs, s, b, z);
    OneOwner(kind, store0, ino, owner, used - zs, Slot(s.i, Dbl), Slot(s.i, Dbl));
    AddMeta(kind, store0, ino, store2, ino, owner, used - zs, s, z);
  }

  lemma EntryAdded(kind: Kind, store0: Store, store1: Store, ino: seq<Inode>, owner: map<nat, Slot>, used: set<nat>,
                   s: Slot, b: Block, z: nat, z0: nat, d: nat)
    requires Mapped(kind, store0, ino, owner, used - {z}) && z in used && z != 0
    requires SlotOk(kind, ino, s) && IsData(s.p) && !IsRoot(s.p) && ZoneOf(kind, store0, ino, s) == z0
    requires d == ZoneOf(kind, store0, ino, Slot(s.i, Parent(s.p))) != 0
    requires EntrySet(kind, store0[BlockRef(d, 0)], b, Index(s.p), z) && store1 == store0[BlockRef(d, 0) := b]
    ensures Mapped(kind, store1, ino, Reowned(owner, s, z0, z), used - Displaced(z0)) && Displaced(z0) <= used
    ensures DataSet(kind, store0, ino, owner, store1, ino, s, z)
  {
    NamedApart(kind, store0, store1, ino, owner, used, {z}, Slot(s.i, Parent(s.p)), d, b);
    EntryStored(kind, store0, store1, ino, owner, used - {z}, s, b, z);
    DataAdded(kind, store0, ino, store1, ino, owner, used - {z}, s, z, z0, Slot(s.i, Parent(s.p)));
    assert used == used - {z} + {z};
    if z0 != 0 { OneOwner(kind, store0, ino, owner, used - {z}, s, s); }
  }

  /** z is the number in the double indirect block; data places and the zones nobody names are as before. */
  ghost predicate SubThere(kind: Kind, store0: Store, ino: seq<Inode>, owner0: map<nat, Slot>, store1: Store, i: nat,
                           j: nat, z: nat, zs: set<nat>) {
    true == (Framed(kind, store0, ino, owner0, store1, ino) && KeptIn(store0, store1, zs)
      && z == ZoneOf(kind, store1, ino, Slot(i, Sub(j))))
  }

  /** Data place s names z, whose blocks are as before. */
  ghost predicate DataSet(kind: Kind, store0: Store, ino0: seq<Inode>, owner0: map<nat, Slot>, store1: Store,
                          ino1: seq<Inode>, s: Slot, z: nat) {
    true == (FramedSet(kind, store0, ino0, owner0, store1, ino1, s, z) && KeptIn(store0, store1, {z}))
  }

  lemma EmptySub(kind: Kind, store: Store, ino: seq<Inode>, owner: map<nat, Slot>, used: set<nat>, zs: set<nat>,
                 i: nat, j: nat, d: nat)
    requires Mapped(kind, store, ino, owner, used - zs) && i < |ino| && j < Entries(kind)
    requires d == ZoneOf(kind, store, ino, Slot(i, Dbl)) != 0 && ZoneOf(kind, store, ino, Slot(i, Sub(j))) == 0
    ensures SubThere(kind, store, ino, owner, store, i, j, 0, zs) && StoreOk(store)
      && Entry(kind, store[BlockRef(d, 0)], j) == 0
  {
    ZoneFromParent(kind, store, ino, Slot(i, Sub(j)));
  }

  class Fs {
    const sp: SuperBlock
    const kind: Kind
    const per: nat                   // blocks per zone, 1 << s_log_zone_size
    var store: Store
    var ino: seq<Inode>
    ghost var owner: map<nat, Slot>

    /** A mounted file system whose zones in use are those its inodes name. */
    constructor (sp0: SuperBlock, kind0: Kind, per0: nat, store0: Store, ino0: seq<Inode>, ghost owner0: map<nat, Slot>)
      requires sp0.Valid() && !sp0.readOnly && per0 > 0 && sp0.zones <= Limit(kind0)
      requires Mapped(kind0, store0, ino0, owner0, sp0.ZonesInUse())
      ensures Valid() && sp == sp0 && kind == kind0 && per == per0 && store == store0 && ino == ino0 && owner == owner0
    {
      sp, kind, per, store, ino, owner := sp0, kind0, per0, store0, ino0, owner0;
      new;
      assert sp.ZonesInUse() - {} == sp.ZonesInUse();
    }

    ghost predicate Sound()
      reads this, sp, sp.inodeMap, sp.zoneMap
    {
      sp.Valid() == true && !sp.readOnly && per > 0 && sp.zones <= Limit(kind)
    }

    /** The file system is consistent, but for allocated zones that no inode names yet. */
    ghost predicate Pending(zs: set<nat>)
      reads this, sp, sp.inodeMap, sp.zoneMap
    {
      Sound() && zs <= sp.ZonesInUse() && Mapped(kind, store, ino, owner, sp.ZonesInUse() - zs)
    }

    ghost predicate Valid()
      reads this, sp, sp.inodeMap, sp.zoneMap
    {
      Pending({})
    }

    ghost function ZoneAt(i: nat, p: Ptr): nat
      reads this
    {
      ZoneOf(kind, store, ino, Slot(i, p))
    }

    /** The place that names the zone of block n of a file. */
    ghost function Place(n: nat): Ptr
      requires per > 0 && ZoneIx(per, n) < MaxZones(kind)
    {
      PtrFor(kind, ZoneIx(per, n))
    }

    /** The zone that the next new zone of a file is going to be. */
    ghost function NextFor(i: nat): nat
      reads this, sp, sp.zoneMap
      requires sp.firstDataZone >= 1 && i < |ino|
    {
      sp.NextZone(if ino[i].zone[0] == NO_ZONE then sp.firstDataZone else ino[i].zone[0])
    }

    // ---------- read_map ----------

    /** get_block and rd_indir on the indirect block of a zone. */
    method ReadEntry(z: nat, j: nat) returns (r: nat)
      requires StoreOk(store) && j < Entries(kind) && z != 0
      ensures r == At(kind, store, z, j)
    {
      r := RdIndir(kind, store[BlockRef(z, 0)], j);
    }

    /** read_map: the block of the device that holds block n of the file. */
    method ReadMap(i: nat, n: nat) returns (b: Option<BlockRef>)
      requires per > 0 && StoreOk(store) && i < |ino| && ZoneIx(per, n) < MaxZones(kind)
      ensures var z := ZoneAt(i, Place(n)); b == if z == 0 then None else Some(BlockRef(z, Boff(per, n)))
    {
      PosDiv(per, n);
      var zone, boff := n / per, n % per;
      var z := FindZone(i, zone);
      b := if z == NO_ZONE then None else Some(BlockRef(z, boff));
    }

    method FindZone(i: nat, zone: nat) returns (z: nat)
      requires StoreOk(store) && i < |ino| && zone < MaxZones(kind)
      ensures z == ZoneAt(i, PtrFor(kind, zone))
    {
      var t := ino[i].zone;
      ghost var p := PtrFor(kind, zone);
      if zone < NR_DZONES {
        NamesOne(kind, p, Direct(zone), zone);
        return t[zone];
      }
      var excess := zone - NR_DZONES;
      if excess < Entries(kind) {
        NamesOne(kind, p, Single(excess), zone);
        z := t[NR_DZONES];
      } else {
        z := t[NR_DZONES + 1];
        excess := excess - Entries(kind);
        DoubleIndex(kind, excess);
        NamesOne(kind, p, Double(excess / Entries(kind), excess % Entries(kind)), zone);
        if z == NO_ZONE { return; }
        z := ReadEntry(z, excess / Entries(kind));
        excess := excess % Entries(kind);
      }
      if z == NO_ZONE { return; }
      z := ReadEntry(z, excess);
    }

    // ---------- write_map ----------

    /** alloc_zone on the device of the file system. */
    method Claim(near: nat) returns (z: nat)
      requires Sound()
      modifies sp`zsearch, sp.zoneMap
      ensures Sound() && z < Limit(kind)
      ensures z == old(sp.NextZone(near))
      ensures z == 0 ==> sp.ZonesInUse() == old(sp.ZonesInUse()) == Range(sp.zoneMap.bits, sp.firstDataZone)
      ensures z != 0 ==> z !in old(sp.ZonesInUse()) && sp.ZonesInUse() == old(sp.ZonesInUse()) + {z}
    {
      z := sp.AllocZone(near);
      LimitPositive(kind);
    }

    /** Allocating an indirect zone that the inode itself names; its block is zeroed. */
    method NewRoot(i: nat, p: Ptr, ghost zs: set<nat>) returns (z: nat)
      requires Pending(zs) && i < |ino| && (p == Ind || p == Dbl) && ZoneAt(i, p) == 0
      modifies this`store, this`ino, this`owner, sp`zsearch, sp.zoneMap
      ensures KeptIn(old(store), store, zs)
      ensures Pending(zs) && Framed(kind, old(store), old(ino), old(owner), store, ino)
      ensures z == ZoneAt(i, p) && (z == 0 ==> sp.ZonesInUse() == Range(sp.zoneMap.bits, sp.firstDataZone))
    {
      ghost var used := sp.ZonesInUse();
      z := Claim(ino[i].zone[0]);
      if z == NO_ZONE {
        FramedNot(kind, store, ino, owner, used - zs);
        return;
      }
      ino := ino[i := ino[i].(zone := ino[i].zone[Root(p) := z])];
      store := store[BlockRef(z, 0) := ZeroBlock()];
      RootAdded(kind, old(store), old(ino), store, ino, owner, used, zs, Slot(i, p), z);
      owner := owner[z := Slot(i, p)];
    }

    /** wr_indir on the indirect block of zone d. */
    method StoreEntry(d: nat, j: nat, z: nat) returns (ghost b: Block)
      requires StoreOk(store) && j < Entries(kind) && z < Limit(kind)
      modifies this`store
      ensures store == old(store)[BlockRef(d, 0) := b] && EntrySet(kind, old(store)[BlockRef(d, 0)], b, j, z)
      ensures z == Entry(kind, old(store)[BlockRef(d, 0)], j) ==> store == old(store)
    {
      var r := WrIndir(kind, store[BlockRef(d, 0)], j, z);
      store := store[BlockRef(d, 0) := r];
      b := r;
    }

    /** Allocating a single indirect zone that the double indirect block names. */
    method NewSub(i: nat, j: nat, d: nat, ghost zs: set<nat>) returns (z: nat)
      requires Pending(zs) && i < |ino| && j < Entries(kind) && d == ZoneAt(i, Dbl) != 0 && ZoneAt(i, Sub(j)) == 0
      modifies this`store, this`owner, sp`zsearch, sp.zoneMap
      ensures Pending(zs) && SubThere(kind, old(store), ino, old(owner), store, i, j, z, zs)
      ensures (z == 0 ==> sp.ZonesInUse() == Range(sp.zoneMap.bits, sp.firstDataZone))
    {
      ghost var used := sp.ZonesInUse();
      EmptySub(kind, store, ino, owner, used, zs, i, j, d);
      z := Claim(ino[i].zone[0]);
      FillSub(i, j, d, z, used, zs);
    }

    /** The number goes into the double indirect block, also when it is NO_ZONE. */
    method FillSub(i: nat, j: nat, d: nat, z: nat, ghost used: set<nat>, ghost zs: set<nat>)
      requires Sound() && sp.ZonesInUse() == (if z == 0 then used else used + {z}) && zs <= used && z < Limit(kind)
        && (z != 0 ==> z !in used)
      requires Mapped(kind, store, ino, owner, used - zs) && i < |ino| && j < Entries(kind)
        && d == ZoneAt(i, Dbl) != 0 && ZoneAt(i, Sub(j)) == 0
      requires SubThere(kind, store, ino, owner, store, i, j, 0, zs) && Entry(kind, store[BlockRef(d, 0)], j) == 0
      modifies this`store, this`owner
      ensures Pending(zs) && SubThere(kind, old(store), ino, old(owner), store, i, j, z, zs)
    {
      ghost var b := StoreEntry(d, j, z);
      if z != NO_ZONE {
        ZeroSub(i, j, d, z, old(store), b, used, zs);
      }
    }

    /** zero_block on a new single indirect block. */
    method ZeroSub(i: nat, j: nat, ghost d: nat, z: nat, ghost store0: Store, ghost b: Block, ghost used: set<nat>,
                   ghost zs: set<nat>)
      requires Sound() && sp.ZonesInUse() == used + {z} && zs <= used && z !in used && z != 0 && i < |ino|
        && j < Entries(kind)
      requires Mapped(kind, store0, ino, owner, used - zs) && ZoneOf(kind, store0, ino, Slot(i, Sub(j))) == 0
      requires d == ZoneOf(kind, store0, ino, Slot(i, Dbl)) != 0 && EntrySet(kind, store0[BlockRef(d, 0)], b, j, z)
      requires store == store0[BlockRef(d, 0) := b]
      modifies this`store, this`owner
      ensures Pending(zs) && SubThere(kind, store0, ino, old(owner), store, i, j, z, zs)
    {
      PutSub(i, j, d, z, store0, b, used, zs, sp.ZonesInUse());
    }

    method PutSub(i: nat, j: nat, ghost d: nat, z: nat, ghost store0: Store, ghost b: Block, ghost used: set<nat>,
                  ghost zs: set<nat>, ghost now: set<nat>)
      requires now == used + {z} && zs <= used && z !in used && z != 0 && i < |ino| && j < Entries(kind)
      requires Mapped(kind, store0, ino, owner, used - zs) && ZoneOf(kind, store0, ino, Slot(i, Sub(j))) == 0
      requires d == ZoneOf(kind, store0, ino, Slot(i, Dbl)) != 0 && EntrySet(kind, store0[BlockRef(d, 0)], b, j, z)
      requires store == store0[BlockRef(d, 0) := b]
      modifies this`store, this`owner
      ensures Mapped(kind, store, ino, owner, now - zs) && zs <= now
        && SubThere(kind, store0, ino, old(owner), store, i, j, z, zs)
    {
      var s := store[BlockRef(z, 0) := ZeroBlock()];
      SubAdded(kind, store0, s, ino, owner, used, zs, Slot(i, Sub(j)), b, z, d, now);
      store, owner := s, owner[z := Slot(i, Sub(j))];
    }

    /** The single or double indirect zone of a file, allocated if need be. */
    method RootZone(i: nat, p: Ptr, ghost zs: set<nat>) returns (z: nat)
      requires Pending(zs) && i < |ino| && (p == Ind || p == Dbl)
      modifies this`store, this`ino, this`owner, sp`zsearch, sp.zoneMap
      ensures KeptIn(old(store), store, zs)
      ensures Pending(zs) && Framed(kind, old(store), old(ino), old(owner), store, ino)
      ensures z == ZoneAt(i, p) && (z == 0 ==> sp.ZonesInUse() == Range(sp.zoneMap.bits, sp.firstDataZone))
    {
      z := ino[i].zone[Root(p)];
      if z == NO_ZONE {
        z := NewRoot(i, p, zs);
      } else {
        FramedNot(kind, store, ino, owner, sp.ZonesInUse() - zs);
      }
    }

    method SubZone(i: nat, j: nat, d: nat, ghost zs: set<nat>) returns (z: nat)
      requires Pending(zs) && i < |ino| && j < Entries(kind) && d == ZoneAt(i, Dbl) != 0
      modifies this`store, this`owner, sp`zsearch, sp.zoneMap
      ensures Pending(zs) && SubThere(kind, old(store), ino, old(owner), store, i, j, z, zs)
      ensures (z == 0 ==> sp.ZonesInUse() == Range(sp.zoneMap.bits, sp.firstDataZone))
    {
      ZoneFromParent(kind, store, ino, Slot(i, Sub(j)));
      z := ReadEntry(d, j);
      if z == NO_ZONE {
        z := NewSub(i, j, d, zs);
      } else {
        FramedNot(kind, store, ino, owner, sp.ZonesInUse() - zs);
      }
    }

    /** Storing a data zone in the indirect block of zone d. */
    method SetEntry(i: nat, p: Ptr, d: nat, z: nat)
      requires Pending({z}) && i < |ino| && PtrOk(kind, p) && IsData(p) && !IsRoot(p) && d == ZoneAt(i, Parent(p)) != 0
      requires z != 0 && z < Limit(kind)
      modifies this`store, this`owner
      ensures Pending(Displaced(old(ZoneAt(i, p))))
        && DataSet(kind, old(store), ino, old(owner), store, ino, Slot(i, p), z)
    {
      PutEntry(i, p, d, z, sp.ZonesInUse());
    }

    /** wr_indir for a data zone. */
    method PutEntry(i: nat, p: Ptr, d: nat, z: nat, ghost used: set<nat>)
      requires Mapped(kind, store, ino, owner, used - {z}) && z in used && i < |ino| && PtrOk(kind, p) && IsData(p)
        && !IsRoot(p)
      requires d == ZoneAt(i, Parent(p)) != 0 && z != 0 && z < Limit(kind)
      modifies this`store, this`owner
      ensures Mapped(kind, store, ino, owner, used - Displaced(old(ZoneAt(i, p))))
        && Displaced(old(ZoneAt(i, p))) <= used
      ensures DataSet(kind, old(store), ino, old(owner), store, ino, Slot(i, p), z)
    {
      ghost var z0 := ZoneAt(i, p);
      var b := WrIndir(kind, store[BlockRef(d, 0)], Index(p), z);
      var s := store[BlockRef(d, 0) := b];
      EntryAdded(kind, store, s, ino, owner, used, Slot(i, p), b, z, z0, d);
      store, owner := s, Reowned(owner, Slot(i, p), z0, z);
    }

    method SetDirect(i: nat, k: nat, z: nat)
      requires Pending({z}) && i < |ino| && k < NR_DZONES && z != 0
      modifies this`ino, this`owner
      ensures Pending(Displaced(old(ZoneAt(i, Direct(k)))))
        && FramedSet(kind, old(store), old(ino), old(owner), store, ino, Slot(i, Direct(k)), z)
    {
      ghost var used, z0, s := sp.ZonesInUse(), ZoneAt(i, Direct(k)), Slot(i, Direct(k));
      ino := ino[i := ino[i].(zone := ino[i].zone[k := z])];
      RootStored(kind, store, old(ino), store, ino, owner, used - {z}, s, z);
      DataAddedInode(kind, store, old(ino), ino, owner, used - {z}, s, z, z0);
      if z0 != 0 { OneOwner(kind, store, old(ino), owner, used - {z}, s, s); }
      owner := Reowned(owner, s, z0, z);
      assert used == used - {z} + {z};
    }

    /**
     write_map: enter a zone in the map of a file, whose old zone is then named no more; only a lack
     of space makes it fail.
     */
    method WriteMap(i: nat, n: nat, z: nat) returns (ok: bool)
      requires Pending({z}) && i < |ino| && ZoneIx(per, n) < MaxZones(kind) && z != 0 && z < Limit(kind)
      modifies this`store, this`ino, this`owner, sp`zsearch, sp.zoneMap
      ensures KeptIn(old(store), store, {z})
      ensures ok ==>
        Pending(Displaced(old(ZoneAt(i, Place(n)))))
        && FramedSet(kind, old(store), old(ino), old(owner), store, ino, Slot(i, Place(n)), z)
      ensures !ok ==> Pending({z}) && Framed(kind, old(store), old(ino), old(owner), store, ino)
      ensures !ok ==> sp.ZonesInUse() == Range(sp.zoneMap.bits, sp.firstDataZone) && ZoneIx(per, n) >= NR_DZONES
    {
      PosDiv(per, n);
      var zone := n / per;
      ghost var p := Place(n);
      if zone < NR_DZONES {
        NamesOne(kind, p, Direct(zone), zone);
        SetDirect(i, zone, z);
        return true;
      }
      var excess := zone - NR_DZONES;
      if excess < Entries(kind) {
        NamesOne(kind, p, Single(excess), zone);
        ok := EnterSingle(i, excess, z);
      } else {
        excess := excess - Entries(kind);
        DoubleIndex(kind, excess);
        NamesOne(kind, p, Double(excess / Entries(kind), excess % Entries(kind)), zone);
        ok := EnterDouble(i, excess / Entries(kind), excess % Entries(kind), z);
      }
    }

    method EnterSingle(i: nat, j: nat, z: nat) returns (ok: bool)
      requires Pending({z}) && i < |ino| && j < Entries(kind) && z != 0 && z < Limit(kind)
      modifies this`store, this`ino, this`owner, sp`zsearch, sp.zoneMap
      ensures KeptIn(old(store), store, {z})
      ensures ok ==>
        Pending(Displaced(old(ZoneAt(i, Single(j)))))
        && FramedSet(kind, old(store), old(ino), old(owner), store, ino, Slot(i, Single(j)), z)
      ensures !ok ==> Pending({z}) && Framed(kind, old(store), old(ino), old(owner), store, ino)
      ensures !ok ==> sp.ZonesInUse() == Range(sp.zoneMap.bits, sp.firstDataZone)
    {
      ghost var used := sp.ZonesInUse();
      var z1 := RootZone(i, Ind, {z});
      if z1 == NO_ZONE { return false; }
      EnterFound(i, Single(j), z1, z, old(store), old(ino), old(owner), used);
      ok := true;
    }

    /** The indirect block is there; what has happened since store0 concerns no data place. */
    method EnterFound(i: nat, p: Ptr, d: nat, z: nat, ghost store0: Store, ghost ino0: seq<Inode>,
                      ghost owner0: map<nat, Slot>, ghost used0: set<nat>)
      requires Pending({z}) && i < |ino| && PtrOk(kind, p) && IsData(p) && !IsRoot(p)
        && d == ZoneAt(i, Parent(p)) != 0 && z != 0 && z < Limit(kind)
      requires Mapped(kind, store0, ino0, owner0, used0 - {z}) && Framed(kind, store0, ino0, owner0, store, ino)
        && KeptIn(store0, store, {z})
      modifies this`store, this`owner
      ensures Pending(Displaced(ZoneOf(kind, store0, ino0, Slot(i, p))))
      ensures DataSet(kind, store0, ino0, owner0, store, ino, Slot(i, p), z)
    {
      ghost var store1, owner1, used1 := store, owner, sp.ZonesInUse();
      FramedAt(kind, store0, ino0, owner0, store, ino, Slot(i, p));
      SetEntry(i, p, d, z);
      FramedThenSet(kind, store0, ino0, owner0, used0 - {z}, store1, ino, owner1, used1 - {z}, store, ino, Slot(i, p),
        z);
    }

    method EnterDouble(i: nat, j: nat, m: nat, z: nat) returns (ok: bool)
      requires Pending({z}) && i < |ino| && j < Entries(kind) && m < Entries(kind) && z != 0 && z < Limit(kind)
      modifies this`store, this`ino, this`owner, sp`zsearch, sp.zoneMap
      ensures KeptIn(old(store), store, {z})
      ensures ok ==>
        Pending(Displaced(old(ZoneAt(i, Double(j, m)))))
        && FramedSet(kind, old(store), old(ino), old(owner), store, ino, Slot(i, Double(j, m)), z)
      ensures !ok ==> Pending({z}) && Framed(kind, old(store), old(ino), old(owner), store, ino)
      ensures !ok ==> sp.ZonesInUse() == Range(sp.zoneMap.bits, sp.firstDataZone)
    {
      ghost var used := sp.ZonesInUse();
      var d := RootZone(i, Dbl, {z});
      if d == NO_ZONE { return false; }
      ghost var store1, ino1, owner1, used1 := store, ino, owner, sp.ZonesInUse();
      FramedAt(kind, old(store), old(ino), old(owner), store, ino, Slot(i, Double(j, m)));
      ok := EnterSub(i, j, Double(j, m), d, z);
      if ok {
        FramedThenSet(kind, old(store), old(ino), old(owner), used - {z}, store1, ino1, owner1, used1 - {z}, store,
          ino, Slot(i, Double(j, m)), z);
      } else {
        FramedTwice(kind, old(store), old(ino), old(owner), used - {z}, store1, ino1, owner1, used1 - {z}, store, ino);
      }
    }

    /** The double indirect block exists. */
    method EnterSub(i: nat, j: nat, p: Ptr, d: nat, z: nat) returns (ok: bool)
      requires Pending({z}) && i < |ino| && j < Entries(kind) && PtrOk(kind, p) && IsData(p) && !IsRoot(p)
        && Parent(p) == Sub(j)
      requires d == ZoneAt(i, Dbl) != 0 && z != 0 && z < Limit(kind)
      modifies this`store, this`owner, sp`zsearch, sp.zoneMap
      ensures ok ==>
        Pending(Displaced(old(ZoneAt(i, p)))) && DataSet(kind, old(store), ino, old(owner), store, ino, Slot(i, p), z)
      ensures !ok ==>
        Pending({z}) && Framed(kind, old(store), ino, old(owner), store, ino) && KeptIn(old(store), store, {z})
      ensures !ok ==> sp.ZonesInUse() == Range(sp.zoneMap.bits, sp.firstDataZone)
    {
      ghost var used := sp.ZonesInUse();
      var z1 := SubZone(i, j, d, {z});
      if z1 == NO_ZONE { return false; }
      EnterFound(i, p, z1, z, old(store), ino, old(owner), used);
      ok := true;
    }
  }
}
