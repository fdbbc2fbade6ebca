/** Zones and inodes of one file system: the two bit maps with their search hints. */
module Super {
  import opened Bitmap

  const NO_ZONE: nat := 0
  const BIT_T: nat := 0x1_0000_0000     // bit_t is an unsigned 32-bit number

  datatype Failure = ENOSPC | EROFS | ENFILE

  /** A hint makes the search find the least clear bit of all. */
  lemma HintFinds(blocks: MapBlocks, native: bool, bits: nat, hint: nat, b: nat)
    requires Full(blocks, native, bits, 0, hint) && Chosen(blocks, native, bits, WordStart(hint, bits), b)
    ensures Least(blocks, native, bits, 0, b)
  {
    assert WordStart(hint, bits) <= hint;
  }

  lemma ChosenClear(blocks: MapBlocks, native: bool, bits: nat, start: nat, b: nat)
    requires Chosen(blocks, native, bits, start, b)
    ensures b < bits && !Bit(blocks, native, b)
  {
  }

  /** The bit that alloc_bit is going to take. */
  ghost function NextBit(blocks: MapBlocks, native: bool, bits: nat, start: nat): nat {
    if exists b: nat :: Chosen(blocks, native, bits, start, b) then
      var b: nat :| Chosen(blocks, native, bits, start, b); b
    else NO_BIT
  }

  lemma IsNextBit(b0: MapBlocks, b1: MapBlocks, native: bool, bits: nat, origin: nat, b: nat)
    requires AllocBitSpec(b0, b1, native, bits, origin, b)
    ensures b == NextBit(b0, native, bits, WordStart(origin, bits))
  {
    var start := WordStart(origin, bits);
    if b == NO_BIT {
      forall c: nat ensures !Chosen(b0, native, bits, start, c) {
        if Chosen(b0, native, bits, start, c) { ChosenClear(b0, native, bits, start, c); }
      }
    } else {
      OneChosen(b0, native, bits, start, b, NextBit(b0, native, bits, start));
    }
  }

  lemma OneChosen(blocks: MapBlocks, native: bool, bits: nat, start: nat, b: nat, c: nat)
    requires Chosen(blocks, native, bits, start, b) && Chosen(blocks, native, bits, start, c)
    ensures b == c
  {
  }

  lemma StaysFull(b0: MapBlocks, b1: MapBlocks, native: bool, bits: nat, hint: nat, b: nat)
    requires OneChanged(b0, b1, native, b, true) && Full(b0, native, bits, 0, hint)
    ensures Full(b1, native, bits, 0, hint)
  {
  }

  /** The numbers first, first + 1, ... stand for the bits 1, 2, ... of a map: those in use. */
  ghost function InUse(blocks: MapBlocks, native: bool, bits: nat, first: nat): set<nat> {
    set z: nat | z < first + bits && Numbered(z, bits, first) && Bit(blocks, native, BitFor(z, first))
  }

  ghost function BitFor(z: nat, first: nat): nat
    requires first <= z
  {
    z - first + 1
  }

  /** All of them, whether in use or not. */
  ghost function Range(bits: nat, first: nat): set<nat> {
    set z: nat | z < first + bits && Numbered(z, bits, first)
  }

  ghost predicate Numbered(z: nat, bits: nat, first: nat) {
    first <= z < first + bits - 1
  }

  /** A map without a clear bit has all its numbers in use. */
  lemma AllInUse(blocks: MapBlocks, native: bool, bits: nat, first: nat)
    requires Full(blocks, native, bits, 0, bits)
    ensures InUse(blocks, native, bits, first) == Range(bits, first)
  {
  }

  /** Taking or returning one bit takes or returns one number. */
  lemma OneInUse(b0: MapBlocks, b1: MapBlocks, native: bool, bits: nat, first: nat, b: nat, value: bool)
    requires OneChanged(b0, b1, native, b, value) && 0 < b < bits
    ensures var z := first + b - 1; var s := InUse(b0, native, bits, first);
      && InUse(b1, native, bits, first) == (if value then s + {z} else s - {z})
      && z in Range(bits, first) && (z in s <==> Bit(b0, native, b))
  {
    var z := first + b - 1;
    forall x | x in Range(bits, first)
      ensures x in InUse(b1, native, bits, first) <==> if x == z then value else x in InUse(b0, native, bits, first) {
      assert x == z <==> BitFor(x, first) == b;
    }
  }

  lemma LeastInUse(blocks: MapBlocks, native: bool, bits: nat, first: nat, b: nat, x: nat)
    requires Least(blocks, native, bits, 0, b) && first <= x < first + b - 1
    ensures x in InUse(blocks, native, bits, first)
  {
    assert Bit(blocks, native, BitFor(x, first));
  }

  /** What alloc_bit does to the numbers in use. */
  lemma AllocInUse(b0: MapBlocks, b1: MapBlocks, native: bool, bits: nat, first: nat, origin: nat, b: nat)
    requires AllocBitSpec(b0, b1, native, bits, origin, b)
    ensures var s, t := InUse(b0, native, bits, first), InUse(b1, native, bits, first);
      && (b == NO_BIT <==> s == Range(bits, first) && Full(b0, native, bits, 0, bits))
      && (b == NO_BIT ==> t == s)
      && (b != NO_BIT ==> first + b - 1 !in s && t == s + {first + b - 1} && first + b - 1 in Range(bits, first))
  {
    if b == NO_BIT {
      AllInUse(b0, native, bits, first);
    } else {
      ChosenClear(b0, native, bits, WordStart(origin, bits), b);
      OneInUse(b0, b1, native, bits, first, b, true);
    }
  }

  lemma ZoneTaken(b0: MapBlocks, b1: MapBlocks, native: bool, bits: nat, first: nat, origin: nat, b: nat)
    requires AllocBitSpec(b0, b1, native, bits, origin, b) && first >= 1
    ensures b == NextBit(b0, native, bits, WordStart(origin, bits))
    ensures var s, t := InUse(b0, native, bits, first), InUse(b1, native, bits, first);
      if b == NO_BIT then t == s == Range(bits, first) else t == s + {first - 1 + b} && first - 1 + b !in s
    ensures b != NO_BIT ==> b < bits && Chosen(b0, native, bits, WordStart(origin, bits), b)
  {
    IsNextBit(b0, b1, native, bits, origin, b);
    AllocInUse(b0, b1, native, bits, first, origin, b);
    assert first + b - 1 == first - 1 + b;
  }

  /** The hint after a bit has been returned. */
  lemma FreeHint(b0: MapBlocks, b1: MapBlocks, native: bool, bits: nat, hint: nat, b: nat)
    requires Full(b0, native, bits, 0, hint) && (b1 == b0 || OneChanged(b0, b1, native, b, false))
    ensures Full(b1, native, bits, 0, if b < hint then b else hint)
  {
  }

  class SuperBlock {
    const inodeMap: BitMap
    const zoneMap: BitMap
    const nInodes: nat           // s_ninodes
    const zones: nat             // s_zones
    const firstDataZone: nat     // s_firstdatazone
    const readOnly: bool         // s_rd_only
    var isearch: nat             // s_isearch
    var zsearch: nat             // s_zsearch

    constructor (inodeMap0: BitMap, zoneMap0: BitMap, nInodes0: nat, zones0: nat, firstDataZone0: nat, readOnly0: bool)
      requires inodeMap0 != zoneMap0 && inodeMap0.Valid() && zoneMap0.Valid() && 1 <= firstDataZone0 <= zones0
      requires inodeMap0.bits == nInodes0 + 1 && zoneMap0.bits == zones0 - (firstDataZone0 - 1)
      ensures Valid() && inodeMap == inodeMap0 && zoneMap == zoneMap0 && firstDataZone == firstDataZone0
        && zones == zones0
      ensures readOnly == readOnly0 && isearch == zsearch == 0
    {
      inodeMap, zoneMap, nInodes, zones, firstDataZone, readOnly := inodeMap0, zoneMap0, nInodes0, zones0,
        firstDataZone0, readOnly0;
      isearch, zsearch := 0, 0;
    }

    /** Every bit below a search hint is set. */
    ghost predicate Valid()
      reads this, inodeMap, zoneMap
    {
      && inodeMap != zoneMap && inodeMap.Valid() && zoneMap.Valid() && 1 <= firstDataZone <= zones
      && inodeMap.bits == nInodes + 1 && zoneMap.bits == zones - (firstDataZone - 1)
      && Full(inodeMap.blocks, inodeMap.native, inodeMap.bits, 0, isearch) == true
      && Full(zoneMap.blocks, zoneMap.native, zoneMap.bits, 0, zsearch) == true
    }

    /** The data zones marked in use. */
    ghost function ZonesInUse(): set<nat>
      reads zoneMap
    {
      InUse(zoneMap.blocks, zoneMap.native, zoneMap.bits, firstDataZone)
    }

    /** The inodes marked in use. */
    ghost function InodesInUse(): set<nat>
      reads inodeMap
    {
      InUse(inodeMap.blocks, inodeMap.native, inodeMap.bits, 1)
    }

    /** Where the search of alloc_zone begins. */
    ghost function Origin(z: nat): nat
      reads this
      requires firstDataZone >= 1
    {
      if z == firstDataZone then zsearch else (z - (firstDataZone - 1)) % BIT_T
    }

    /** The zone that alloc_zone is going to return for a zone near z. */
    ghost function NextZone(z: nat): nat
      reads this, zoneMap
      requires firstDataZone >= 1
    {
      var b := NextBit(zoneMap.blocks, zoneMap.native, zoneMap.bits, WordStart(Origin(z), zoneMap.bits));
      if b == NO_BIT then NO_ZONE else firstDataZone - 1 + b
    }

    /** alloc_zone: any free zone, and the least one when asked for one near the first data zone. */
    method AllocZone(z: nat) returns (r: nat)
      requires Valid() && !readOnly
      modifies this`zsearch, zoneMap
      ensures Valid() && r == old(NextZone(z))
      ensures r == NO_ZONE ==> ZonesInUse() == old(ZonesInUse()) == Range(zoneMap.bits, firstDataZone)
      ensures r != NO_ZONE ==>
        r !in old(ZonesInUse()) && ZonesInUse() == old(ZonesInUse()) + {r} && firstDataZone <= r < zones
      ensures r != NO_ZONE && z == firstDataZone ==> forall x :: firstDataZone <= x < r ==> x in old(ZonesInUse())
    {
      var origin := if z == firstDataZone then zsearch else (z - (firstDataZone - 1)) % BIT_T;
      ghost var b0 := zoneMap.blocks;
      var b := TakeBit(origin);
      if b == NO_BIT {
        return NO_ZONE;
      }
      r := firstDataZone - 1 + b;
      assert ZonesInUse() == old(ZonesInUse()) + {r};
      if z == firstDataZone { MoveHint(b0, b); }
    }

    method MoveHint(ghost b0: MapBlocks, b: nat)
      requires Valid() && Full(b0, zoneMap.native, zoneMap.bits, 0, zsearch)
      requires Chosen(b0, zoneMap.native, zoneMap.bits, WordStart(zsearch, zoneMap.bits), b)
        && OneChanged(b0, zoneMap.blocks, zoneMap.native, b, true)
      modifies this`zsearch
      ensures Valid() && ZonesInUse() == old(ZonesInUse())
      ensures forall x ::
        firstDataZone <= x < firstDataZone - 1 + b ==> x in InUse(b0, zoneMap.native, zoneMap.bits, firstDataZone)
    {
      HintFinds(b0, zoneMap.native, zoneMap.bits, zsearch, b);
      LeastZones(b0, b);
      zsearch := b;
    }

    method TakeBit(origin: nat) returns (b: nat)
      requires Valid()
      modifies zoneMap
      ensures Valid()
      ensures b == NextBit(old(zoneMap.blocks), zoneMap.native, zoneMap.bits, WordStart(origin, zoneMap.bits))
      ensures b == NO_BIT ==> ZonesInUse() == old(ZonesInUse()) == Range(zoneMap.bits, firstDataZone)
      ensures b != NO_BIT ==>
        ZonesInUse() == old(ZonesInUse()) + {firstDataZone - 1 + b} && firstDataZone - 1 + b !in old(ZonesInUse())
      ensures b != NO_BIT ==> firstDataZone <= firstDataZone - 1 + b < zones
      ensures b != NO_BIT ==>
        Chosen(old(zoneMap.blocks), zoneMap.native, zoneMap.bits, WordStart(origin, zoneMap.bits), b)
      ensures b != NO_BIT ==> OneChanged(old(zoneMap.blocks), zoneMap.blocks, zoneMap.native, b, true)
    {
      ghost var b0 := zoneMap.blocks;
      b := zoneMap.AllocBit(origin);
      ZoneTaken(b0, zoneMap.blocks, zoneMap.native, zoneMap.bits, firstDataZone, origin, b);
      if b != NO_BIT { StaysFull(b0, zoneMap.blocks, zoneMap.native, zoneMap.bits, zsearch, b); }
    }

    lemma LeastZones(b0: MapBlocks, b: nat)
      requires Least(b0, zoneMap.native, zoneMap.bits, 0, b)
      ensures forall x ::
        firstDataZone <= x < firstDataZone - 1 + b ==> x in InUse(b0, zoneMap.native, zoneMap.bits, firstDataZone)
    {
      forall x | firstDataZone <= x < firstDataZone - 1 + b
        ensures x in InUse(b0, zoneMap.native, zoneMap.bits, firstDataZone) {
        LeastInUse(b0, zoneMap.native, zoneMap.bits, firstDataZone, b, x);
      }
    }

    /** free_zone: a number outside the data zones is ignored; a zone that is not in use is a panic. */
    method FreeZone(z: nat) returns (panicked: bool)
      requires Valid() && !readOnly
      modifies this`zsearch, zoneMap
      ensures Valid()
      ensures panicked <==> firstDataZone <= z < zones && z !in old(ZonesInUse())
      ensures ZonesInUse() == old(ZonesInUse()) - {z}
    {
      if z < firstDataZone || z >= zones {
        assert z !in ZonesInUse();
        return false;
      }
      panicked := ReturnBit(z - (firstDataZone - 1), z);
    }

    method ReturnBit(bit: nat, ghost z: nat) returns (panicked: bool)
      requires Valid() && 0 < bit < zoneMap.bits && z == firstDataZone + bit - 1
      modifies this`zsearch, zoneMap
      ensures Valid()
      ensures panicked <==> z !in old(ZonesInUse())
      ensures ZonesInUse() == old(ZonesInUse()) - {z}
    {
      ghost var b0 := zoneMap.blocks;
      panicked := zoneMap.FreeBit(bit);
      FreeInUse(b0, zoneMap.blocks, zoneMap.native, zoneMap.bits, firstDataZone, bit, z, panicked);
      FreeHint(b0, zoneMap.blocks, zoneMap.native, zoneMap.bits, zsearch, bit);
      if bit < zsearch { zsearch := bit; }
    }

    /** The number half of alloc_inode; slot says whether get_inode finds room in the inode table. */
    method AllocInode(slot: bool) returns (r: Result)
      requires Valid()
      modifies this`isearch, inodeMap
      ensures Valid()
      ensures r == Failed(EROFS) <==> readOnly
      ensures r.Failed? ==> InodesInUse() == old(InodesInUse())
      ensures r == Failed(ENFILE) ==> old(InodesInUse()) == Range(inodeMap.bits, 1)
      ensures r.Number? ==>
        r.n !in old(InodesInUse()) && InodesInUse() == old(InodesInUse()) + {r.n} && 1 <= r.n <= nInodes
      ensures r.Number? ==> forall x :: 1 <= x < r.n ==> x in old(InodesInUse())
      ensures r == NoSlot ==> !slot && InodesInUse() == old(InodesInUse())
    {
      if readOnly { return Failed(EROFS); }
      var b := TakeInode();
      if b == NO_BIT { return Failed(ENFILE); }
      if !slot {
        GiveBack(b);
        return NoSlot;
      }
      r := Number(b);
    }

    /** alloc_bit on the inode map, and the hint after it. */
    method TakeInode() returns (b: nat)
      requires Valid()
      modifies this`isearch, inodeMap
      ensures Valid() && (b != NO_BIT ==> b <= nInodes && isearch == b)
      ensures b == NO_BIT ==> InodesInUse() == old(InodesInUse()) == Range(inodeMap.bits, 1)
      ensures b != NO_BIT ==> b !in old(InodesInUse()) && InodesInUse() == old(InodesInUse()) + {b}
      ensures b != NO_BIT ==> forall x :: 1 <= x < b ==> x in old(InodesInUse())
    {
      ghost var b0 := inodeMap.blocks;
      b := inodeMap.AllocBit(isearch);
      AllocInUse(b0, inodeMap.blocks, inodeMap.native, inodeMap.bits, 1, isearch, b);
      if b != NO_BIT {
        HintFinds(b0, inodeMap.native, inodeMap.bits, isearch, b);
        LeastInodes(b0, b);
        StaysFull(b0, inodeMap.blocks, inodeMap.native, inodeMap.bits, b, b);
        isearch := b;
      }
    }

    /** free_bit on a number just taken. */
    method GiveBack(b: nat)
      requires Valid() && 0 < b <= nInodes && isearch <= b
      modifies inodeMap
      ensures Valid() && InodesInUse() == old(InodesInUse()) - {b}
    {
      ghost var b1 := inodeMap.blocks;
      var panicked := inodeMap.FreeBit(b);
      FreeInUse(b1, inodeMap.blocks, inodeMap.native, inodeMap.bits, 1, b, b, panicked);
      FreeHint(b1, inodeMap.blocks, inodeMap.native, inodeMap.bits, isearch, b);
    }

    lemma LeastInodes(b0: MapBlocks, b: nat)
      requires Least(b0, inodeMap.native, inodeMap.bits, 0, b)
      ensures forall x :: 1 <= x < b ==> x in InUse(b0, inodeMap.native, inodeMap.bits, 1)
    {
      forall x | 1 <= x < b ensures x in InUse(b0, inodeMap.native, inodeMap.bits, 1) {
        LeastInUse(b0, inodeMap.native, inodeMap.bits, 1, b, x);
      }
    }

    /** free_inode */
    method FreeInode(i: nat) returns (panicked: bool)
      requires Valid() && !readOnly
      modifies this`isearch, inodeMap
      ensures Valid()
      ensures panicked <==> 0 < i <= nInodes && i !in old(InodesInUse())
      ensures InodesInUse() == old(InodesInUse()) - {i}
    {
      if i == 0 || i > nInodes { return false; }
      ghost var b0 := inodeMap.blocks;
      panicked := inodeMap.FreeBit(i);
      FreeInUse(b0, inodeMap.blocks, inodeMap.native, inodeMap.bits, 1, i, i, panicked);
      FreeHint(b0, inodeMap.blocks, inodeMap.native, inodeMap.bits, isearch, i);
      if i < isearch { isearch := i; }
    }
  }

  datatype Result = Number(n: nat) | Failed(why: Failure) | NoSlot

  /** What free_bit does to the numbers in use. */
  lemma FreeInUse(b0: MapBlocks, b1: MapBlocks, native: bool, bits: nat, first: nat, b: nat, z: nat, panicked: bool)
    requires 0 < b < bits && z == first + b - 1 && (panicked <==> !Bit(b0, native, b))
    requires if panicked then b1 == b0 else OneChanged(b0, b1, native, b, false)
    ensures var s, t := InUse(b0, native, bits, first), InUse(b1, native, bits, first);
      (panicked <==> z !in s) && t == s - {z}
  {
    if panicked {
      assert BitFor(z, first) == b;
    } else {
      OneInUse(b0, b1, native, bits, first, b, false);
    }
  }
}
