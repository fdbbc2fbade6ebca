/**
 Zone maps: where an inode keeps the number of each of its zones, and what one
 store into an inode or an indirect block does to all zone numbers at once.
 */
module ZoneMap {
  import opened Base
  import opened Indirect

  const NR_DZONES: nat := 7
  const NR_TZONES: nat := 10

  /** Block (zone << s_log_zone_size) + off of the device. */
  datatype BlockRef = BlockRef(zone: nat, off: nat)

  /** What the block cache shows for each block of the device. */
  type Store = imap<BlockRef, Block>

  type ZoneArray = s: seq<nat> | |s| == NR_TZONES witness seq(NR_TZONES, _ => 0)

  datatype Inode = Inode(size: nat, zone: ZoneArray)

  ghost predicate StoreOk(store: Store) {
    forall r: BlockRef :: r in store && |store[r]| == BLOCK_SIZE
  }

  /**
   The places that hold zone numbers: the inode, the two indirect blocks it names, and the single
   indirect blocks named by the second.
   */
  datatype Ptr = Direct(k: nat) | Ind | Single(j: nat) | Dbl | Sub(j: nat) | Double(j: nat, m: nat)

  predicate PtrOk(kind: Kind, p: Ptr) {
    match p
    case Direct(k) => k < NR_DZONES
    case Ind => true
    case Single(j) => j < Entries(kind)
    case Dbl => true
    case Sub(j) => j < Entries(kind)
    case Double(j, m) => j < Entries(kind) && m < Entries(kind)
  }

  predicate IsData(p: Ptr) { p.Direct? || p.Single? || p.Double? }

  predicate IsRoot(p: Ptr) { p.Direct? || p.Ind? || p.Dbl? }

  /** The indirect block in which a number is kept, and its index there. */
  function Parent(p: Ptr): Ptr
    requires !IsRoot(p)
  {
    match p
    case Single(_) => Ind
    case Sub(_) => Dbl
    case Double(j, _) => Sub(j)
  }

  function Index(p: Ptr): nat
    requires !IsRoot(p)
  {
    match p
    case Single(j) => j
    case Sub(j) => j
    case Double(_, m) => m
  }

  /** The index in i_zone of a number kept in the inode. */
  function Root(p: Ptr): nat
    requires IsRoot(p)
  {
    match p
    case Direct(k) => k
    case Ind => NR_DZONES
    case Dbl => NR_DZONES + 1
  }

  ghost function At(kind: Kind, store: Store, z: nat, j: nat): nat {
    var r := BlockRef(z, 0);
    if z == 0 || r !in store || |store[r]| != BLOCK_SIZE || j >= Entries(kind) then 0 else Entry(kind, store[r], j)
  }

  /** The zone number in a place, 0 where there is none. */
  ghost function Zone(kind: Kind, store: Store, t: ZoneArray, p: Ptr): nat {
    match p
    case Direct(k) => if k < NR_DZONES then t[k] else 0
    case Ind => t[NR_DZONES]
    case Dbl => t[NR_DZONES + 1]
    case Single(j) => At(kind, store, t[NR_DZONES], j)
    case Sub(j) => At(kind, store, t[NR_DZONES + 1], j)
    case Double(j, m) => At(kind, store, At(kind, store, t[NR_DZONES + 1], j), m)
  }

  datatype Slot = Slot(i: nat, p: Ptr)

  predicate SlotOk(kind: Kind, ino: seq<Inode>, s: Slot) {
    s.i < |ino| && PtrOk(kind, s.p)
  }

  ghost function ZoneOf(kind: Kind, store: Store, ino: seq<Inode>, s: Slot): nat {
    if s.i < |ino| then Zone(kind, store, ino[s.i].zone, s.p) else 0
  }

  /** The zones in use are exactly those some inode names, and each is named in one place only. */
  ghost predicate MappedParts(kind: Kind, store: Store, ino: seq<Inode>, owner: map<nat, Slot>, used: set<nat>) {
    && StoreOk(store) && owner.Keys == used && 0 !in used
    && (forall z :: z in owner ==> SlotOk(kind, ino, owner[z]) && ZoneOf(kind, store, ino, owner[z]) == z)
    && (forall s: Slot {:trigger ZoneOf(kind, store, ino, s)} ::
      SlotOk(kind, ino, s) && ZoneOf(kind, store, ino, s) != 0 ==>
      ZoneOf(kind, store, ino, s) in owner && owner[ZoneOf(kind, store, ino, s)] == s)
  }

  ghost predicate Mapped(kind: Kind, store: Store, ino: seq<Inode>, owner: map<nat, Slot>, used: set<nat>) {
    MappedParts(kind, store, ino, owner, used) == true
  }

  /** Only the number in place s has changed, to z. */
  ghost predicate PtrSet(kind: Kind, store0: Store, ino0: seq<Inode>, store1: Store, ino1: seq<Inode>, s: Slot,
                         z: nat) {
    |ino1| == |ino0| && forall t: Slot {:trigger ZoneOf(kind, store1, ino1, t)} :: SlotOk(kind, ino0, t) ==>
      ZoneOf(kind, store1, ino1, t) == if t == s then z else ZoneOf(kind, store0, ino0, t)
  }

  /** A free zone put where there was none. */
  lemma MappedAdd(kind: Kind, store0: Store, ino0: seq<Inode>, store1: Store, ino1: seq<Inode>, owner: map<nat, Slot>,
                  used: set<nat>, s: Slot, z: nat)
    requires Mapped(kind, store0, ino0, owner, used) && PtrSet(kind, store0, ino0, store1, ino1, s, z)
      && StoreOk(store1)
    requires z != 0 && z !in used && SlotOk(kind, ino0, s) && ZoneOf(kind, store0, ino0, s) == 0
    ensures Mapped(kind, store1, ino1, owner[z := s], used + {z})
  {
    var o1 := owner[z := s];
    forall y | y in o1 ensures SlotOk(kind, ino1, o1[y]) && ZoneOf(kind, store1, ino1, o1[y]) == y {
      if y != z { assert ZoneOf(kind, store0, ino0, o1[y]) == y && o1[y] != s; }
    }
    forall t: Slot | SlotOk(kind, ino1, t) && ZoneOf(kind, store1, ino1, t) != 0
      ensures ZoneOf(kind, store1, ino1, t) in o1 && o1[ZoneOf(kind, store1, ino1, t)] == t
    {
      if t != s { assert ZoneOf(kind, store0, ino0, t) in owner; }
    }
  }

  /** The zone that a place named, if there was one. */
  function Displaced(z0: nat): set<nat> {
    if z0 == 0 then {} else {z0}
  }

  /** The owners once s names z instead of z0. */
  function Reowned(owner: map<nat, Slot>, s: Slot, z0: nat, z: nat): map<nat, Slot> {
    (owner - {z0})[z := s]
  }

  /** A free zone put in any place: the zone that was there is named no more. */
  lemma MappedSet(kind: Kind, store0: Store, ino0: seq<Inode>, store1: Store, ino1: seq<Inode>, owner: map<nat, Slot>,
                  used: set<nat>, s: Slot, z: nat, z0: nat)
    requires Mapped(kind, store0, ino0, owner, used) && PtrSet(kind, store0, ino0, store1, ino1, s, z)
      && StoreOk(store1)
    requires z != 0 && z !in used && SlotOk(kind, ino0, s) && ZoneOf(kind, store0, ino0, s) == z0
    ensures Mapped(kind, store1, ino1, Reowned(owner, s, z0, z), used + {z} - Displaced(z0))
  {
    var o1 := Reowned(owner, s, z0, z);
    assert o1.Keys == used + {z} - Displaced(z0);
    forall y | y in o1 ensures SlotOk(kind, ino1, o1[y]) && ZoneOf(kind, store1, ino1, o1[y]) == y {
      if y != z { assert ZoneOf(kind, store0, ino0, o1[y]) == y && o1[y] != s; }
    }
    forall t: Slot | SlotOk(kind, ino1, t) && ZoneOf(kind, store1, ino1, t) != 0
      ensures ZoneOf(kind, store1, ino1, t) in o1 && o1[ZoneOf(kind, store1, ino1, t)] == t
    {
      if t != s { assert ZoneOf(kind, store0, ino0, t) in owner && owner[ZoneOf(kind, store0, ino0, t)] == t; }
    }
  }

  // ---------- one store ----------

  /** A number outside the inode is read from its parent's block. */
  lemma ZoneFromParent(kind: Kind, store: Store, ino: seq<Inode>, t: Slot)
    requires SlotOk(kind, ino, t) && !IsRoot(t.p)
    ensures ZoneOf(kind, store, ino, t) == At(kind, store, ZoneOf(kind, store, ino, Slot(t.i, Parent(t.p))), Index(t.p))
    ensures SlotOk(kind, ino, Slot(t.i, Parent(t.p)))
  {
  }

  lemma OneOwner(kind: Kind, store: Store, ino: seq<Inode>, owner: map<nat, Slot>, used: set<nat>, s: Slot, t: Slot)
    requires Mapped(kind, store, ino, owner, used) && SlotOk(kind, ino, s) && SlotOk(kind, ino, t)
    requires ZoneOf(kind, store, ino, s) == ZoneOf(kind, store, ino, t) != 0
    ensures s == t && ZoneOf(kind, store, ino, s) in used
  {
  }

  /** The block that a store goes to is the indirect block of place s, or belongs to no place at all. */
  ghost predicate Aimed(kind: Kind, store: Store, ino: seq<Inode>, used: set<nat>, s: Slot, z: nat) {
    z != 0 && (ZoneOf(kind, store, ino, s) == z || z !in used)
  }

  /** A number kept elsewhere does not change. */
  lemma {:induction false} OtherPlace(kind: Kind, store0: Store, store1: Store, ino: seq<Inode>, owner: map<nat,
                                      Slot>, used: set<nat>, s: Slot, z: nat, t: Slot)
    requires Mapped(kind, store0, ino, owner, used) && SlotOk(kind, ino, s) && SlotOk(kind, ino, t)
      && Aimed(kind, store0, ino, used, s, z)
    requires forall r: BlockRef :: r != BlockRef(z, 0) ==> r in store1 && store1[r] == store0[r]
    requires IsRoot(t.p) || (Slot(t.i, Parent(t.p)) != s
      && (IsRoot(Parent(t.p)) || Slot(t.i, Parent(Parent(t.p))) != s))
    ensures ZoneOf(kind, store1, ino, t) == ZoneOf(kind, store0, ino, t)
    decreases if IsRoot(t.p) then 0 else if IsRoot(Parent(t.p)) then 1 else 2
  {
    if !IsRoot(t.p) {
      var q := Slot(t.i, Parent(t.p));
      ZoneFromParent(kind, store0, ino, t);
      ZoneFromParent(kind, store1, ino, t);
      OtherPlace(kind, store0, store1, ino, owner, used, s, z, q);
      var y := ZoneOf(kind, store0, ino, q);
      if y == z {
        OneOwner(kind, store0, ino, owner, used, q, if ZoneOf(kind, store0, ino, s) == z then s else q);
        assert false;
      }
    }
  }

  /** Storing one entry of the indirect block of place q: the number in place (q, e) and nothing else. */
  lemma EntryStored(kind: Kind, store0: Store, store1: Store, ino: seq<Inode>, owner: map<nat, Slot>, used: set<nat>,
                    s: Slot, b: Block, z: nat)
    requires Mapped(kind, store0, ino, owner, used) && SlotOk(kind, ino, s) && IsData(s.p) && !IsRoot(s.p)
    requires var d := ZoneOf(kind, store0, ino, Slot(s.i, Parent(s.p)));
      d != 0 && EntrySet(kind, store0[BlockRef(d, 0)], b, Index(s.p), z) && store1 == store0[BlockRef(d, 0) := b]
    ensures PtrSet(kind, store0, ino, store1, ino, s, z) && StoreOk(store1)
  {
    var q := Slot(s.i, Parent(s.p));
    var d := ZoneOf(kind, store0, ino, q);
    forall t: Slot | SlotOk(kind, ino, t)
      ensures ZoneOf(kind, store1, ino, t) == if t == s then z else ZoneOf(kind, store0, ino, t)
    {
      EntryStoredAt(kind, store0, store1, ino, owner, used, s, b, z, d, t);
    }
  }

  lemma EntryStoredAt(kind: Kind, store0: Store, store1: Store, ino: seq<Inode>, owner: map<nat, Slot>,
                      used: set<nat>, s: Slot, b: Block, z: nat, d: nat, t: Slot)
    requires Mapped(kind, store0, ino, owner, used) && SlotOk(kind, ino, s) && IsData(s.p) && !IsRoot(s.p)
      && SlotOk(kind, ino, t)
    requires d == ZoneOf(kind, store0, ino, Slot(s.i, Parent(s.p))) != 0
    requires EntrySet(kind, store0[BlockRef(d, 0)], b, Index(s.p), z) && store1 == store0[BlockRef(d, 0) := b]
    ensures ZoneOf(kind, store1, ino, t) == if t == s then z else ZoneOf(kind, store0, ino, t)
  {
    var q := Slot(s.i, Parent(s.p));
    OtherPlace(kind, store0, store1, ino, owner, used, q, d, q);
    if !IsRoot(t.p) && Slot(t.i, Parent(t.p)) == q {
      ZoneFromParent(kind, store0, ino, t);
      ZoneFromParent(kind, store1, ino, t);
    } else {
      OtherPlace(kind, store0, store1, ino, owner, used, q, d, t);
    }
  }

  /** A new double indirect block's entry: the new single indirect block is zeroed. */
  lemma SubStored(kind: Kind, store0: Store, store1: Store, store2: Store, ino: seq<Inode>, owner: map<nat, Slot>,
                  used: set<nat>, s: Slot, b: Block, z: nat)
    requires Mapped(kind, store0, ino, owner, used) && SlotOk(kind, ino, s) && s.p.Sub? && z !in used && z != 0
    requires ZoneOf(kind, store0, ino, s) == 0
    requires var d := ZoneOf(kind, store0, ino, Slot(s.i, Dbl));
      d != 0 && EntrySet(kind, store0[BlockRef(d, 0)], b, Index(s.p), z) && store1 == store0[BlockRef(d, 0) := b]
    requires store2 == store1[BlockRef(z, 0) := ZeroBlock()]
    ensures PtrSet(kind, store0, ino, store2, ino, s, z) && StoreOk(store2)
  {
    var d := ZoneOf(kind, store0, ino, Slot(s.i, Dbl));
    forall t: Slot | SlotOk(kind, ino, t)
      ensures ZoneOf(kind, store2, ino, t) == if t == s then z else ZoneOf(kind, store0, ino, t)
    {
      SubStoredAt(kind, store0, store1, store2, ino, owner, used, s, b, z, d, t);
    }
  }

  lemma SubStoredAt(kind: Kind, store0: Store, store1: Store, store2: Store, ino: seq<Inode>, owner: map<nat, Slot>,
                    used: set<nat>, s: Slot, b: Block, z: nat, d: nat, t: Slot)
    requires Mapped(kind, store0, ino, owner, used) && SlotOk(kind, ino, s) && s.p.Sub? && z !in used && z != 0
      && SlotOk(kind, ino, t)
    requires ZoneOf(kind, store0, ino, s) == 0 && d == ZoneOf(kind, store0, ino, Slot(s.i, Dbl)) != 0
    requires EntrySet(kind, store0[BlockRef(d, 0)], b, Index(s.p), z) && store1 == store0[BlockRef(d, 0) := b]
    requires store2 == store1[BlockRef(z, 0) := ZeroBlock()]
    ensures ZoneOf(kind, store2, ino, t) == if t == s then z else ZoneOf(kind, store0, ino, t)
  {
    assert d in used by { OneOwner(kind, store0, ino, owner, used, Slot(s.i, Dbl), Slot(s.i, Dbl)); }
    if t == s {
    } else if t.p.Sub? && t.i == s.i {
      SubSibling(kind, store0, store1, store2, ino, owner, used, s, b, z, d, t);
    } else if t.p.Double? && Slot(t.i, Sub(t.p.j)) == s {
      ZeroEntry(kind, t.p.m);
    } else {
      SubElsewhere(kind, store0, store1, store2, ino, owner, used, s, b, z, d, t);
    }
  }

  lemma SubElsewhere(kind: Kind, store0: Store, store1: Store, store2: Store, ino: seq<Inode>, owner: map<nat, Slot>,
                     used: set<nat>, s: Slot, b: Block, z: nat, d: nat, t: Slot)
    requires Mapped(kind, store0, ino, owner, used) && SlotOk(kind, ino, s) && s.p.Sub? && z !in used && z != 0
      && SlotOk(kind, ino, t)
    requires d == ZoneOf(kind, store0, ino, Slot(s.i, Dbl)) != 0
    requires EntrySet(kind, store0[BlockRef(d, 0)], b, Index(s.p), z) && store1 == store0[BlockRef(d, 0) := b]
    requires store2 == store1[BlockRef(z, 0) := ZeroBlock()]
    requires !(t.p.Sub? && t.i == s.i) && !(t.p.Double? && Slot(t.i, Sub(t.p.j)) == s)
    ensures ZoneOf(kind, store2, ino, t) == ZoneOf(kind, store0, ino, t)
  {
    if !IsRoot(t.p) {
      var q := Slot(t.i, Parent(t.p));
      if !IsRoot(q.p) {
        SubSibling(kind, store0, store1, store2, ino, owner, used, s, b, z, d, q);
      }
      ReadElsewhere(kind, store0, store2, ino, owner, used, s, z, d, t);
    }
  }

  /** A number whose indirect block is neither of the two written is still the same. */
  lemma ReadElsewhere(kind: Kind, store0: Store, store2: Store, ino: seq<Inode>, owner: map<nat, Slot>,
                      used: set<nat>, s: Slot, z: nat, d: nat, t: Slot)
    requires Mapped(kind, store0, ino, owner, used) && s.i < |ino| && z !in used && SlotOk(kind, ino, t)
    requires d == ZoneOf(kind, store0, ino, Slot(s.i, Dbl)) != 0
    requires forall r: BlockRef :: r != BlockRef(d, 0) && r != BlockRef(z, 0) ==> r in store2 && store2[r] == store0[r]
    requires !IsRoot(t.p) && Slot(t.i, Parent(t.p)) != Slot(s.i, Dbl)
    requires ZoneOf(kind, store2, ino, Slot(t.i, Parent(t.p))) == ZoneOf(kind, store0, ino, Slot(t.i, Parent(t.p)))
    ensures ZoneOf(kind, store2, ino, t) == ZoneOf(kind, store0, ino, t)
  {
    var q := Slot(t.i, Parent(t.p));
    ZoneFromParent(kind, store0, ino, t);
    ZoneFromParent(kind, store2, ino, t);
    var y := ZoneOf(kind, store0, ino, q);
    if y != 0 { OneOwner(kind, store0, ino, owner, used, q, q); }
    assert y != d by { if y == d { OneOwner(kind, store0, ino, owner, used, q, Slot(s.i, Dbl)); } }
  }

  /** The number of another single indirect block. */
  lemma SubSibling(kind: Kind, store0: Store, store1: Store, store2: Store, ino: seq<Inode>, owner: map<nat, Slot>,
                   used: set<nat>, s: Slot, b: Block, z: nat, d: nat, q: Slot)
    requires Mapped(kind, store0, ino, owner, used) && SlotOk(kind, ino, s) && s.p.Sub? && z !in used && z != 0
      && SlotOk(kind, ino, q)
    requires d == ZoneOf(kind, store0, ino, Slot(s.i, Dbl)) != 0 && q.p.Sub? && q != s
    requires EntrySet(kind, store0[BlockRef(d, 0)], b, Index(s.p), z) && store1 == store0[BlockRef(d, 0) := b]
    requires store2 == store1[BlockRef(z, 0) := ZeroBlock()]
    ensures ZoneOf(kind, store2, ino, q) == ZoneOf(kind, store0, ino, q)
  {
    OneOwner(kind, store0, ino, owner, used, Slot(s.i, Dbl), Slot(s.i, Dbl));
    if q.i != s.i {
      ReadElsewhere(kind, store0, store2, ino, owner, used, s, z, d, q);
    }
  }

  /** Storing a zone number in the inode; the block of a new indirect zone is zeroed. */
  lemma RootStored(kind: Kind, store0: Store, ino0: seq<Inode>, store1: Store, ino1: seq<Inode>, owner: map<nat,
                   Slot>, used: set<nat>, s: Slot, z: nat)
    requires Mapped(kind, store0, ino0, owner, used) && SlotOk(kind, ino0, s) && IsRoot(s.p)
    requires var n := ino0[s.i]; ino1 == ino0[s.i := n.(zone := n.zone[Root(s.p) := z])]
    requires if s.p.Direct? then store1 == store0
      else z != 0 && z !in used && ZoneOf(kind, store0, ino0, s) == 0 && store1 == store0[BlockRef(z, 0) := ZeroBlock()]
    ensures PtrSet(kind, store0, ino0, store1, ino1, s, z) && StoreOk(store1)
  {
    forall t: Slot | SlotOk(kind, ino0, t)
      ensures ZoneOf(kind, store1, ino1, t) == if t == s then z else ZoneOf(kind, store0, ino0, t)
    {
      RootStoredAt(kind, store0, ino0, store1, ino1, owner, used, s, z, t);
    }
  }

  lemma RootStoredAt(kind: Kind, store0: Store, ino0: seq<Inode>, store1: Store, ino1: seq<Inode>, owner: map<nat,
                     Slot>, used: set<nat>, s: Slot, z: nat, t: Slot)
    requires Mapped(kind, store0, ino0, owner, used) && SlotOk(kind, ino0, s) && IsRoot(s.p) && SlotOk(kind, ino0, t)
    requires var n := ino0[s.i]; ino1 == ino0[s.i := n.(zone := n.zone[Root(s.p) := z])]
    requires if s.p.Direct? then store1 == store0
      else z != 0 && z !in used && ZoneOf(kind, store0, ino0, s) == 0 && store1 == store0[BlockRef(z, 0) := ZeroBlock()]
    ensures ZoneOf(kind, store1, ino1, t) == if t == s then z else ZoneOf(kind, store0, ino0, t)
    decreases if IsRoot(t.p) then 0 else if IsRoot(Parent(t.p)) then 1 else 2
  {
    if !IsRoot(t.p) {
      var q := Slot(t.i, Parent(t.p));
      ZoneFromParent(kind, store0, ino0, t);
      ZoneFromParent(kind, store1, ino1, t);
      RootStoredAt(kind, store0, ino0, store1, ino1, owner, used, s, z, q);
      var y := ZoneOf(kind, store0, ino0, q);
      if q == s {
        ZeroEntry(kind, Index(t.p));
      } else if y != 0 {
        OneOwner(kind, store0, ino0, owner, used, q, q);
      }
    }
  }
}
