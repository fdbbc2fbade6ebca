/** truncate and wipe_inode: every zone of a file is freed exactly once. */
module Truncate {
  import opened Indirect
  import opened ZoneMap
  import opened Geometry
  import opened Super
  import opened Files
  import opened FileZones

  /** The size is within the range of the map. */
  ghost predicate SizeInMap(kind: Kind, per: nat, ino: seq<Inode>, i: nat) {
    i < |ino| && ino[i].size <= MaxZones(kind) * (BLOCK_SIZE * per)
  }

  /** Every zone of the file starts below its size. */
  ghost predicate StartsBelow(kind: Kind, per: nat, store: Store, ino: seq<Inode>, i: nat)
    requires i < |ino|
  {
    forall p {:trigger ZoneOf(kind, store, ino, Slot(i, p))} ::
      IsData(p) && PtrOk(kind, p) && ZoneOf(kind, store, ino, Slot(i, p)) != 0 ==>
      KeyOf(kind, p) * (BLOCK_SIZE * per) < ino[i].size
  }

  /** The data zones of inode i from the k-th on. */
  ghost function From(kind: Kind, owner: map<nat, Slot>, i: nat, k: nat): set<nat> {
    set z | z in owner && owner[z].i == i && IsData(owner[z].p) && KeyOf(kind, owner[z].p) >= k
  }

  /** The data zones of inode i that start at or behind its end. */
  ghost function Beyond(kind: Kind, per: nat, owner: map<nat, Slot>, i: nat, size: nat): set<nat> {
    set z | z in owner && owner[z].i == i && IsData(owner[z].p) && KeyOf(kind, owner[z].p) * (BLOCK_SIZE * per) >= size
  }

  lemma NoneBeyondIff(kind: Kind, per: nat, store: Store, ino: seq<Inode>, owner: map<nat, Slot>, used: set<nat>,
                      i: nat)
    requires Mapped(kind, store, ino, owner, used) && i < |ino|
    ensures Beyond(kind, per, owner, i, ino[i].size) == {} <==> StartsBelow(kind, per, store, ino, i)
  {
    var b := Beyond(kind, per, owner, i, ino[i].size);
    if StartsBelow(kind, per, store, ino, i) {
      forall z | z in owner && owner[z].i == i && IsData(owner[z].p) ensures z !in b {
        assert ZoneOf(kind, store, ino, Slot(i, owner[z].p)) == z;
      }
    } else {
      var p :| IsData(p) && PtrOk(kind, p) && ZoneOf(kind, store, ino, Slot(i, p)) != 0
        && KeyOf(kind, p) * (BLOCK_SIZE * per) >= ino[i].size;
      assert ZoneOf(kind, store, ino, Slot(i, p)) in b;
    }
  }

  /**
   What truncate has freed of inode i: its first k data zones, the single indirect zone, j zones
   named by the double indirect block, that block.
   */
  ghost predicate Gone(kind: Kind, i: nat, s: Slot, k: nat, ind: bool, j: nat, dbl: bool) {
    s.i == i && match s.p
      case Ind => ind
      case Dbl => dbl
      case Sub(m) => m < j
      case _ => KeyOf(kind, s.p) < k
  }

  ghost function Left(kind: Kind, owner: map<nat, Slot>, i: nat, k: nat, ind: bool, j: nat, dbl: bool): set<nat> {
    set z | z in owner && !Gone(kind, i, owner[z], k, ind, j, dbl)
  }

  ghost function Others(owner: map<nat, Slot>, i: nat): set<nat> {
    set z | z in owner && owner[z].i != i
  }

  /** Freeing what one place names. */
  lemma FreeStep(kind: Kind, store: Store, ino: seq<Inode>, owner: map<nat, Slot>, used: set<nat>, i: nat, p: Ptr,
                 z: nat, k: nat, ind: bool, j: nat, dbl: bool, k1: nat, ind1: bool, j1: nat, dbl1: bool)
    requires Mapped(kind, store, ino, owner, used) && i < |ino| && PtrOk(kind, p)
      && z == ZoneOf(kind, store, ino, Slot(i, p))
    requires !Gone(kind, i, Slot(i, p), k, ind, j, dbl)
    requires forall s: Slot :: SlotOk(kind, ino, s) ==>
      (Gone(kind, i, s, k1, ind1, j1, dbl1) <==> Gone(kind, i, s, k, ind, j, dbl) || s == Slot(i, p))
    ensures Left(kind, owner, i, k1, ind1, j1, dbl1) == Left(kind, owner, i, k, ind, j, dbl) - {z}
    ensures z != 0 ==> z in Left(kind, owner, i, k, ind, j, dbl)
  {
    forall y | y in owner
      ensures Gone(kind, i, owner[y], k1, ind1, j1, dbl1) <==> Gone(kind, i, owner[y], k, ind, j, dbl) || y == z {
      assert ZoneOf(kind, store, ino, owner[y]) == y;
    }
  }

  lemma KthZone(per: nat, k: nat)
    requires per > 0
    ensures var zs := BLOCK_SIZE * per; zs > 0 && ZoneIx(per, k * zs / BLOCK_SIZE) == k
  {
    var zs := BLOCK_SIZE * per;
    ZoneOfPosition(per, k * zs);
    DivUnique(zs, k * zs, k, 0);
  }

  /** The position of the loop after k rounds. */
  ghost function Steps(k: nat, zs: nat): nat {
    if k == 0 then 0 else Steps(k - 1, zs) + zs
  }

  lemma {:induction false} StepsMultiple(k: nat, zs: nat)
    ensures Steps(k, zs) == k * zs
  {
    if k > 0 {
      StepsMultiple(k - 1, zs);
      assert k * zs == (k - 1) * zs + zs;
    }
  }

  /** k rounds, the last of them before the end, have led to the position. */
  ghost predicate Reached(position: nat, k: nat, zs: nat, size: nat) {
    position == Steps(k, zs) && (k == 0 || Steps(k - 1, zs) < size)
  }

  /** The k-th round is the first one at or behind the end. */
  ghost predicate Passed(k: nat, zs: nat, size: nat) {
    Steps(k, zs) >= size && Reached(Steps(k, zs), k, zs, size)
  }

  /** A round before the end asks for the k-th zone. */
  lemma RoundZone(kind: Kind, per: nat, ino: seq<Inode>, i: nat, position: nat, k: nat)
    requires per > 0 && SizeInMap(kind, per, ino, i) && position == Steps(k, BLOCK_SIZE * per) < ino[i].size
    ensures ZoneIx(per, position / BLOCK_SIZE) == k < MaxZones(kind)
  {
    StepsMultiple(k, BLOCK_SIZE * per);
    KthZone(per, k);
    ZoneInRange(k, BLOCK_SIZE * per, ino[i].size, MaxZones(kind));
  }

  lemma ZoneInRange(k: nat, zs: nat, size: nat, m: nat)
    requires k * zs < size <= m * zs
    ensures k < m
  {
    assert k >= m ==> k * zs >= m * zs;
  }

  lemma BelowIff(k: nat, key: nat, zs: nat, size: nat)
    requires k * zs >= size && (k == 0 || (k - 1) * zs < size)
    ensures key < k <==> key * zs < size
  {
    assert key >= k ==> key * zs >= k * zs;
    assert key < k ==> key * zs <= (k - 1) * zs;
  }

  /** When the loop has passed the end of the file, the zones from there on are those behind the end. */
  lemma FromIsBeyond(kind: Kind, per: nat, owner: map<nat, Slot>, i: nat, k: nat, size: nat)
    requires Passed(k, BLOCK_SIZE * per, size)
    ensures From(kind, owner, i, k) == Beyond(kind, per, owner, i, size)
  {
    StepsMultiple(k, BLOCK_SIZE * per);
    if k > 0 { StepsMultiple(k - 1, BLOCK_SIZE * per); }
    forall z | z in owner && owner[z].i == i && IsData(owner[z].p)
      ensures z in From(kind, owner, i, k) <==> z in Beyond(kind, per, owner, i, size) {
      BelowIff(k, KeyOf(kind, owner[z].p), BLOCK_SIZE * per, size);
    }
  }

  /** The state of truncate: the maps are as before, and the zones in use are those not freed yet. */
  ghost predicate Freeing(fs: Fs, used: set<nat>, i: nat, k: nat, ind: bool, j: nat, dbl: bool)
    reads fs, fs.sp, fs.sp.inodeMap, fs.sp.zoneMap
  {
    && fs.Sound() && i < |fs.ino| && Mapped(fs.kind, fs.store, fs.ino, fs.owner, used)
    && (forall z :: z in used ==> fs.sp.firstDataZone <= z < fs.sp.zones)
    && fs.sp.ZonesInUse() == Left(fs.kind, fs.owner, i, k, ind, j, dbl)
  }

  /** free_zone on what one place names; it never panics. */
  method FreePlace(fs: Fs, ghost used: set<nat>, i: nat, ghost p: Ptr, z: nat, ghost k: nat, ghost ind: bool,
                   ghost j: nat, ghost dbl: bool, ghost k1: nat, ghost ind1: bool, ghost j1: nat, ghost dbl1: bool)
    returns (panicked: bool)
    requires Freeing(fs, used, i, k, ind, j, dbl) && PtrOk(fs.kind, p) && z == fs.ZoneAt(i, p)
      && !Gone(fs.kind, i, Slot(i, p), k, ind, j, dbl)
    requires forall s: Slot :: SlotOk(fs.kind, fs.ino, s) ==>
      (Gone(fs.kind, i, s, k1, ind1, j1, dbl1) <==> Gone(fs.kind, i, s, k, ind, j, dbl) || s == Slot(i, p))
    modifies fs.sp`zsearch, fs.sp.zoneMap
    ensures !panicked && Freeing(fs, used, i, k1, ind1, j1, dbl1)
  {
    FreeStep(fs.kind, fs.store, fs.ino, fs.owner, used, i, p, z, k, ind, j, dbl, k1, ind1, j1, dbl1);
    panicked := fs.sp.FreeZone(z);
  }

  /** The first loop of truncate: one round per zone up to the size of the file. */
  method FreeData(fs: Fs, ghost used: set<nat>, i: nat) returns (ghost k: nat, panicked: bool)
    requires Freeing(fs, used, i, 0, false, 0, false) && SizeInMap(fs.kind, fs.per, fs.ino, i)
    modifies fs.sp`zsearch, fs.sp.zoneMap
    ensures !panicked && Freeing(fs, used, i, k, false, 0, false) && Passed(k, BLOCK_SIZE * fs.per, fs.ino[i].size)
  {
    var position, zoneSize, size := 0, BLOCK_SIZE * fs.per, fs.ino[i].size;
    k, panicked := 0, false;
    KthZone(fs.per, 0);
    while position < size
      invariant Freeing(fs, used, i, k, false, 0, false) && Reached(position, k, zoneSize, size) && zoneSize > 0
        && !panicked
      decreases size - position
    {
      panicked := FreeDataRound(fs, used, i, position, k);
      position, k := position + zoneSize, k + 1;
    }
  }

  /** One round of that loop. */
  method FreeDataRound(fs: Fs, ghost used: set<nat>, i: nat, position: nat, ghost k: nat) returns (panicked: bool)
    requires Freeing(fs, used, i, k, false, 0, false) && SizeInMap(fs.kind, fs.per, fs.ino, i)
    requires position == Steps(k, BLOCK_SIZE * fs.per) < fs.ino[i].size
    modifies fs.sp`zsearch, fs.sp.zoneMap
    ensures !panicked && Freeing(fs, used, i, k + 1, false, 0, false)
  {
    RoundZone(fs.kind, fs.per, fs.ino, i, position, k);
    panicked := FreeKth(fs, used, i, position / BLOCK_SIZE, k);
  }

  method FreeKth(fs: Fs, ghost used: set<nat>, i: nat, n: nat, ghost k: nat) returns (panicked: bool)
    requires Freeing(fs, used, i, k, false, 0, false) && ZoneIx(fs.per, n) == k < MaxZones(fs.kind)
    modifies fs.sp`zsearch, fs.sp.zoneMap
    ensures !panicked && Freeing(fs, used, i, k + 1, false, 0, false)
  {
    ghost var p := PtrFor(fs.kind, k);
    var b := fs.ReadMap(i, n);
    DataStep(fs.kind, fs.ino, i, k, p);
    if b.Some? {
      panicked := FreePlace(fs, used, i, p, b.value.zone, k, false, 0, false, k + 1, false, 0, false);
    } else {
      FreeStep(fs.kind, fs.store, fs.ino, fs.owner, used, i, p, 0, k, false, 0, false, k + 1, false, 0, false);
      assert 0 !in fs.sp.ZonesInUse();
      panicked := false;
    }
  }

  lemma DataStep(kind: Kind, ino: seq<Inode>, i: nat, k: nat, p: Ptr)
    requires Names(kind, p, k)
    ensures !Gone(kind, i, Slot(i, p), k, false, 0, false)
    ensures forall s: Slot :: SlotOk(kind, ino, s) ==>
      (Gone(kind, i, s, k + 1, false, 0, false) <==> Gone(kind, i, s, k, false, 0, false) || s == Slot(i, p))
  {
    forall s: Slot | SlotOk(kind, ino, s) && IsData(s.p) && KeyOf(kind, s.p) == k ensures s.p == p {
      NamesOne(kind, s.p, p, k);
    }
  }

  method FreeSub(fs: Fs, ghost used: set<nat>, i: nat, d: nat, ghost k: nat, j: nat) returns (panicked: bool)
    requires Freeing(fs, used, i, k, true, j, false) && d == fs.ZoneAt(i, Dbl) != 0 && j < Entries(fs.kind)
    modifies fs.sp`zsearch, fs.sp.zoneMap
    ensures !panicked && Freeing(fs, used, i, k, true, j + 1, false)
  {
    ZoneFromParent(fs.kind, fs.store, fs.ino, Slot(i, Sub(j)));
    var z1 := fs.ReadEntry(d, j);
    SubStep(fs.kind, fs.ino, i, k, j);
    panicked := FreePlace(fs, used, i, Sub(j), z1, k, true, j, false, k, true, j + 1, false);
  }

  lemma SubStep(kind: Kind, ino: seq<Inode>, i: nat, k: nat, j: nat)
    ensures !Gone(kind, i, Slot(i, Sub(j)), k, true, j, false)
    ensures forall s: Slot :: SlotOk(kind, ino, s) ==>
      (Gone(kind, i, s, k, true, j + 1, false) <==> Gone(kind, i, s, k, true, j, false) || s == Slot(i, Sub(j)))
  {
  }

  lemma DblStep(kind: Kind, ino: seq<Inode>, i: nat, k: nat, j: nat)
    ensures !Gone(kind, i, Slot(i, Dbl), k, true, j, false)
    ensures forall s: Slot :: SlotOk(kind, ino, s) ==>
      (Gone(kind, i, s, k, true, j, true) <==> Gone(kind, i, s, k, true, j, false) || s == Slot(i, Dbl))
  {
  }

  /** The zones of the single indirect blocks, and the double indirect block itself. */
  method FreeSubs(fs: Fs, ghost used: set<nat>, i: nat, d: nat, ghost k: nat) returns (panicked: bool)
    requires Freeing(fs, used, i, k, true, 0, false) && d == fs.ZoneAt(i, Dbl) != 0
    modifies fs.sp`zsearch, fs.sp.zoneMap
    ensures !panicked && Freeing(fs, used, i, k, true, Entries(fs.kind), true)
  {
    panicked := false;
    var j := 0;
    while j < Entries(fs.kind)
      invariant 0 <= j <= Entries(fs.kind) && !panicked && Freeing(fs, used, i, k, true, j, false)
    {
      panicked := FreeSub(fs, used, i, d, k, j);
      j := j + 1;
    }
    DblStep(fs.kind, fs.ino, i, k, j);
    panicked := FreePlace(fs, used, i, Dbl, d, k, true, j, false, k, true, j, true);
  }

  /** truncate: it frees every zone of the file once, but those behind its end, and free_bit does not panic. */
  method Truncate(fs: Fs, i: nat) returns (panicked: bool)
    requires fs.Valid() && SizeInMap(fs.kind, fs.per, fs.ino, i)
    modifies fs.sp`zsearch, fs.sp.zoneMap
    ensures !panicked && fs.Sound()
    ensures fs.sp.ZonesInUse() == Others(fs.owner, i) + Beyond(fs.kind, fs.per, fs.owner, i, fs.ino[i].size)
    ensures fs.sp.ZonesInUse() == Others(fs.owner, i) <==> StartsBelow(fs.kind, fs.per, fs.store, fs.ino, i)
  {
    ghost var used := fs.sp.ZonesInUse() - {};
    StartFreeing(fs, used, i);
    ghost var k;
    k, panicked := FreeData(fs, used, i);
    panicked := FreeIndirect(fs, used, i, k);
    FromIsBeyond(fs.kind, fs.per, fs.owner, i, k, fs.ino[i].size);
    LeftIff(fs.kind, fs.per, fs.store, fs.ino, fs.owner, used, i);
  }

  lemma LeftIff(kind: Kind, per: nat, store: Store, ino: seq<Inode>, owner: map<nat, Slot>, used: set<nat>, i: nat)
    requires Mapped(kind, store, ino, owner, used) && i < |ino|
    ensures Others(owner, i) + Beyond(kind, per, owner, i, ino[i].size) == Others(owner, i) <==>
      StartsBelow(kind, per, store, ino, i)
  {
    NoneBeyondIff(kind, per, store, ino, owner, used, i);
    var b := Beyond(kind, per, owner, i, ino[i].size);
    if z :| z in b { assert z !in Others(owner, i) && z in Others(owner, i) + b; }
  }

  /** The indirect zones, once the data zones are gone. */
  method FreeIndirect(fs: Fs, ghost used: set<nat>, i: nat, ghost k: nat) returns (panicked: bool)
    requires Freeing(fs, used, i, k, false, 0, false)
    modifies fs.sp`zsearch, fs.sp.zoneMap
    ensures !panicked && fs.Sound() && fs.sp.ZonesInUse() == Others(fs.owner, i) + From(fs.kind, fs.owner, i, k)
  {
    panicked := FreePlace(fs, used, i, Ind, fs.ino[i].zone[NR_DZONES], k, false, 0, false, k, true, 0, false);
    var d := fs.ino[i].zone[NR_DZONES + 1];
    if d != NO_ZONE {
      panicked := FreeSubs(fs, used, i, d, k);
      AllFreed(fs.kind, fs.store, fs.ino, fs.owner, used, i, k, Entries(fs.kind), true);
    } else {
      AllFreed(fs.kind, fs.store, fs.ino, fs.owner, used, i, k, 0, false);
    }
  }

  /** Nothing has been freed yet. */
  lemma StartFreeing(fs: Fs, used: set<nat>, i: nat)
    requires fs.Valid() && i < |fs.ino| && used == fs.sp.ZonesInUse() - {}
    ensures Freeing(fs, used, i, 0, false, 0, false)
  {
    assert used == fs.sp.ZonesInUse();
    NothingGone(fs.kind, fs.owner, i);
  }

  lemma NothingGone(kind: Kind, owner: map<nat, Slot>, i: nat)
    ensures Left(kind, owner, i, 0, false, 0, false) == owner.Keys
  {
  }

  lemma AllFreed(kind: Kind, store: Store, ino: seq<Inode>, owner: map<nat, Slot>, used: set<nat>, i: nat, k: nat,
                 j: nat, dbl: bool)
    requires Mapped(kind, store, ino, owner, used) && i < |ino|
    requires if ZoneOf(kind, store, ino, Slot(i, Dbl)) != 0 then j == Entries(kind) && dbl else j == 0 && !dbl
    ensures Left(kind, owner, i, k, true, j, dbl) == Others(owner, i) + From(kind, owner, i, k)
  {
    forall z | z in owner && owner[z].i == i
      ensures Gone(kind, i, owner[z], k, true, j, dbl) <==> z !in From(kind, owner, i, k) {
      assert ZoneOf(kind, store, ino, owner[z]) == z && SlotOk(kind, ino, owner[z]);
      if owner[z].p.Sub? {
        ZoneFromParent(kind, store, ino, owner[z]);
      }
    }
  }

  // ---------- wipe_inode ----------

  function Wiped(n: Inode): Inode { n.(size := 0, zone := seq(NR_TZONES, _ => 0)) }

  lemma {:induction false} WipedAt(kind: Kind, store: Store, ino: seq<Inode>, i: nat, t: Slot)
    requires i < |ino| && SlotOk(kind, ino, t)
    ensures ZoneOf(kind, store, ino[i := Wiped(ino[i])], t) == if t.i == i then 0 else ZoneOf(kind, store, ino, t)
  {
  }

  /** File i names no zone any more; every other place names what it did. */
  ghost predicate Emptied(kind: Kind, store: Store, ino0: seq<Inode>, ino1: seq<Inode>, i: nat) {
    && |ino1| == |ino0| && i < |ino0| && ino1 == ino0[i := Wiped(ino0[i])]
    && forall t: Slot {:trigger ZoneOf(kind, store, ino1, t)} :: SlotOk(kind, ino0, t) ==>
      ZoneOf(kind, store, ino1, t) == if t.i == i then 0 else ZoneOf(kind, store, ino0, t)
  }

  ghost function OwnersBut(owner: map<nat, Slot>, i: nat): map<nat, Slot> {
    map z | z in owner && owner[z].i != i :: owner[z]
  }

  lemma WipedMapped(kind: Kind, store: Store, ino: seq<Inode>, owner: map<nat, Slot>, used: set<nat>, i: nat)
    requires Mapped(kind, store, ino, owner, used) && i < |ino|
    ensures Mapped(kind, store, ino[i := Wiped(ino[i])], OwnersBut(owner, i), Others(owner, i))
    ensures Emptied(kind, store, ino, ino[i := Wiped(ino[i])], i)
  {
    var ino1 := ino[i := Wiped(ino[i])];
    assert OwnersBut(owner, i).Keys == Others(owner, i);
    forall t: Slot | SlotOk(kind, ino, t)
      ensures ZoneOf(kind, store, ino1, t) == if t.i == i then 0 else ZoneOf(kind, store, ino, t)
    {
      WipedAt(kind, store, ino, i, t);
    }
  }

  /**
   truncate followed by wipe_inode, as creat and put_inode use them: the file is empty, the others
   are as before; zones behind the end stay allocated.
   */
  method Empty(fs: Fs, i: nat) returns (panicked: bool)
    requires fs.Valid() && SizeInMap(fs.kind, fs.per, fs.ino, i)
    modifies fs`ino, fs`owner, fs.sp`zsearch, fs.sp.zoneMap
    ensures !panicked && Emptied(fs.kind, fs.store, old(fs.ino), fs.ino, i)
    ensures fs.Pending(Beyond(fs.kind, fs.per, old(fs.owner), i, old(fs.ino)[i].size))
    ensures fs.Valid() <==> old(StartsBelow(fs.kind, fs.per, fs.store, fs.ino, i))
    ensures old(StartsBelow(fs.kind, fs.per, fs.store, fs.ino, i)) ==> fs.sp.ZonesInUse() == Others(old(fs.owner), i)
  {
    ghost var used, lost := fs.sp.ZonesInUse() - {}, Beyond(fs.kind, fs.per, fs.owner, i, fs.ino[i].size);
    NoneBeyondIff(fs.kind, fs.per, fs.store, fs.ino, fs.owner, used, i);
    panicked := Truncate(fs, i);
    Wipe(fs, i, used, fs.sp.ZonesInUse(), lost);
  }

  /** wipe_inode, after truncate has left the zones of the others and those that are lost. */
  method Wipe(fs: Fs, i: nat, ghost used: set<nat>, ghost now: set<nat>, ghost lost: set<nat>)
    requires Mapped(fs.kind, fs.store, fs.ino, fs.owner, used) && i < |fs.ino|
    requires now == Others(fs.owner, i) + lost && forall z :: z in lost ==> z !in Others(fs.owner, i)
    modifies fs`ino, fs`owner
    ensures Emptied(fs.kind, fs.store, old(fs.ino), fs.ino, i)
    ensures Mapped(fs.kind, fs.store, fs.ino, fs.owner, now - lost) && lost <= now
    ensures Mapped(fs.kind, fs.store, fs.ino, fs.owner, now - {}) <==> lost == {}
  {
    WipedMapped(fs.kind, fs.store, fs.ino, fs.owner, used, i);
    ghost var owner := OwnersBut(fs.owner, i);
    assert owner.Keys == Others(fs.owner, i) == now - lost;
    fs.ino := fs.ino[i := Wiped(fs.ino[i])];
    fs.owner := owner;
    if lost != {} { assert now - {} != owner.Keys by { var z :| z in lost; assert z in now - {}; } }
  }
}
