/**
 The second level block cache: a round-robin table of blocks pushed out of the
 primary cache, with the block data kept on the RAM disk.  The table is proved
 to be a bounded FIFO in which a lookup finds the most recently stored version.
 */
module Level2 {
  import opened Base

  const MAX_BUF2: nat := 1024

  function Hash2(blk: nat): nat { blk % MAX_BUF2 }

  /** One slot of the table; `count` belongs to the hash key, not to the slot's block. */
  datatype Slot = Slot(blocknr: nat, dev: nat, count: int)

  /** What a slot means: a stored version of a block (dev is NO_DEV when unused). */
  datatype Entry = Entry(dev: nat, blk: nat, data: Block)

  // ---------- The specification: a FIFO, newest entry first ----------

  /** The newest stored version of block (dev, blk). */
  function Lookup(fifo: seq<Entry>, dev: nat, blk: nat): Option<Block> {
    if fifo == [] then None
    else if fifo[0].dev == dev && fifo[0].blk == blk then Some(fifo[0].data)
    else Lookup(fifo[1..], dev, blk)
  }

  /** Storing a block pushes the oldest entry out. */
  function Push(fifo: seq<Entry>, e: Entry): seq<Entry>
    requires fifo != []
  {
    [e] + fifo[..|fifo| - 1]
  }

  function Purge(fifo: seq<Entry>, dev: nat): seq<Entry> {
    seq(|fifo|, k requires 0 <= k < |fifo| => if fifo[k].dev == dev then fifo[k].(dev := NO_DEV) else fifo[k])
  }

  /** Lookup finds the entry with the smallest age. */
  lemma {:induction false} LookupAt(fifo: seq<Entry>, dev: nat, blk: nat, k: nat)
    requires k < |fifo| && fifo[k].dev == dev && fifo[k].blk == blk
    requires forall j :: 0 <= j < k ==> fifo[j].dev != dev || fifo[j].blk != blk
    ensures Lookup(fifo, dev, blk) == Some(fifo[k].data)
  {
    if k > 0 {
      LookupAt(fifo[1..], dev, blk, k - 1);
    }
  }

  lemma {:induction false} LookupNone(fifo: seq<Entry>, dev: nat, blk: nat)
    ensures Lookup(fifo, dev, blk) == None <==> forall k :: 0 <= k < |fifo| ==> fifo[k].dev != dev || fifo[k].blk != blk
  {
    if fifo != [] {
      LookupNone(fifo[1..], dev, blk);
      if Lookup(fifo, dev, blk) == None {
        forall k | 0 <= k < |fifo| ensures fifo[k].dev != dev || fifo[k].blk != blk {
          if k > 0 { assert fifo[k] == fifo[1..][k - 1]; }
        }
      }
    }
  }

  lemma {:induction false} LookupPrefix(fifo: seq<Entry>, n: nat, dev: nat, blk: nat)
    requires n <= |fifo|
    ensures Lookup(fifo[..n], dev, blk) in {None, Lookup(fifo, dev, blk)}
  {
    if n > 0 {
      assert fifo[..n][1..] == fifo[1..][..n - 1];
      LookupPrefix(fifo[1..], n - 1, dev, blk);
    }
  }

  /** After a store, the stored block is found; any other block is found as before or has dropped out. */
  lemma LookupPush(fifo: seq<Entry>, e: Entry, dev: nat, blk: nat)
    requires fifo != []
    ensures dev == e.dev && blk == e.blk ==> Lookup(Push(fifo, e), dev, blk) == Some(e.data)
    ensures !(dev == e.dev && blk == e.blk) ==> Lookup(Push(fifo, e), dev, blk) in {None, Lookup(fifo, dev, blk)}
  {
    assert Push(fifo, e)[1..] == fifo[..|fifo| - 1];
    LookupPrefix(fifo, |fifo| - 1, dev, blk);
  }

  /** Purging a device hides its blocks and no others. */
  lemma {:induction false} LookupPurge(fifo: seq<Entry>, gone: nat, dev: nat, blk: nat)
    requires dev != NO_DEV
    ensures Lookup(Purge(fifo, gone), dev, blk) == if dev == gone then None else Lookup(fifo, dev, blk)
  {
    if fifo != [] {
      assert Purge(fifo, gone)[1..] == Purge(fifo[1..], gone);
      LookupPurge(fifo[1..], gone, dev, blk);
    }
  }

  // ---------- The table ----------

  /** The slot that was written `k` stores ago. */
  function SlotOfAge(idx: nat, nr: nat, k: nat): nat
    requires idx < nr && k < nr
  {
    if k < idx then idx - 1 - k else idx - 1 - k + nr
  }

  /** After one more store everything is one store older. */
  lemma AgeNext(idx0: nat, idx1: nat, nr: nat, k: nat)
    requires idx0 < nr && k < nr && idx1 == if idx0 + 1 == nr then 0 else idx0 + 1
    ensures SlotOfAge(idx1, nr, k) == if k == 0 then idx0 else SlotOfAge(idx0, nr, k - 1)
    ensures k > 0 ==> SlotOfAge(idx0, nr, k - 1) != idx0
  {
  }

  /** The entries in the slots, the newest first. */
  ghost function FifoOf(slot: seq<Slot>, ram: imap<nat, Block>, idx: nat, nr: nat): (f: seq<Entry>)
    requires nr <= |slot| && (nr > 0 ==> idx < nr) && forall b: nat :: b in ram
    ensures |f| == nr
  {
    seq(nr, k requires 0 <= k < nr =>
      var s := SlotOfAge(idx, nr, k);
      Entry(slot[s].dev, slot[s].blocknr, ram[s]))
  }

  lemma FifoPushed(slot0: seq<Slot>, ram0: imap<nat, Block>, idx0: nat, slot1: seq<Slot>, ram1: imap<nat, Block>,
                   idx1: nat, nr: nat, e: Entry)
    requires 0 < nr <= |slot0| == |slot1| == MAX_BUF2 && idx0 < nr && idx1 == (if idx0 + 1 == nr then 0 else idx0 + 1)
    requires (forall b: nat :: b in ram0) && ram1 == ram0[idx0 := e.data] && SameBlocks(slot0, slot1, idx0)
    requires slot1[idx0].dev == e.dev && slot1[idx0].blocknr == e.blk
    ensures FifoOf(slot1, ram1, idx1, nr) == Push(FifoOf(slot0, ram0, idx0, nr), e)
  {
    var f0, f1 := FifoOf(slot0, ram0, idx0, nr), FifoOf(slot1, ram1, idx1, nr);
    forall k | 0 <= k < nr ensures f1[k] == Push(f0, e)[k] {
      AgeNext(idx0, idx1, nr, k);
    }
  }

  ghost function Keyed(slot: seq<Slot>, nr: nat, h: nat): set<nat>
    requires nr <= |slot|
  {
    set i: nat | i < nr && slot[i].dev != NO_DEV && Hash2(slot[i].blocknr) == h
  }

  ghost predicate CountsExact(slot: seq<Slot>, nr: nat)
    requires nr <= |slot| == MAX_BUF2
  {
    forall h :: 0 <= h < MAX_BUF2 ==> slot[h].count == |Keyed(slot, nr, h)|
  }

  /** The newest k entries are of other blocks. */
  ghost predicate Missed(fifo: seq<Entry>, dev: nat, blk: nat, k: nat) {
    true == (k <= |fifo| && forall j :: 0 <= j < k ==> fifo[j].dev != dev || fifo[j].blk != blk)
  }

  class Level2 {
    var slot: seq<Slot>
    var nr: nat                   // actual cache size, 0 means disabled
    var idx: nat                  // round-robin reuse index
    var ram: imap<nat, Block>     // the medium of the RAM disk

    ghost predicate Valid()
      reads this
    {
      && |slot| == MAX_BUF2 && nr <= MAX_BUF2
      && (forall b: nat :: b in ram)
      && (nr > 0 ==> idx < nr && CountsExact(slot, nr))
    }

    /** The table as a FIFO, newest first. */
    ghost function Fifo(): (f: seq<Entry>)
      requires Valid()
      reads this
      ensures |f| == nr
    {
      FifoOf(slot, ram, idx, nr)
    }

    constructor (size: nat, medium: imap<nat, Block>)
      requires forall b: nat :: b in medium
      ensures Valid() && ram == medium
      ensures nr == if size > MAX_BUF2 then MAX_BUF2 else size
      ensures forall dev, blk :: dev != NO_DEV ==> Lookup(Fifo(), dev, blk) == None
    {
      slot := seq(MAX_BUF2, i => Slot(0, NO_DEV, 0));
      nr := if size > MAX_BUF2 then MAX_BUF2 else size;
      idx := 0;
      ram := medium;
      new;
      forall h | 0 <= h < MAX_BUF2 ensures Keyed(slot, nr, h) == {} {}
      forall dev, blk | dev != NO_DEV ensures Lookup(Fifo(), dev, blk) == None {
        LookupNone(Fifo(), dev, blk);
      }
    }

    /** get_block2: the early exit never hides a hit, and a hit is the newest version. */
    method Get(dev: nat, blk: nat, mode: Mode) returns (hit: bool, data: Block)
      requires Valid() && dev != NO_DEV
      modifies this`nr
      ensures Valid()
      ensures nr == if dev == DEV_RAM then 0 else old(nr)
      ensures nr == old(nr) ==> Fifo() == old(Fifo())
      ensures dev == DEV_RAM || mode == NoRead ==> !hit
      ensures dev != DEV_RAM && mode != NoRead ==>
        Lookup(Fifo(), dev, blk) == if hit then Some(data) else None
    {
      hit, data := false, [];
      if dev == DEV_RAM { nr := 0; }
      ghost var f := Fifo();
      if nr == 0 || mode == NoRead {
        return;
      }
      if slot[Hash2(blk)].count == 0 {
        NoneKeyed(dev, blk);
        return;
      }
      hit, data := Scan(dev, blk);
    }

    lemma NoneKeyed(dev: nat, blk: nat)
      requires Valid() && dev != NO_DEV && nr > 0 && slot[Hash2(blk)].count == 0
      ensures Lookup(Fifo(), dev, blk) == None
    {
      assert Keyed(slot, nr, Hash2(blk)) == {};
      forall k | 0 <= k < nr ensures Fifo()[k].dev != dev || Fifo()[k].blk != blk {
        var s := SlotOfAge(idx, nr, k);
        assert s !in Keyed(slot, nr, Hash2(blk));
      }
      LookupNone(Fifo(), dev, blk);
    }

    /** The backward circular scan, from the newest entry to the oldest. */
    method Scan(dev: nat, blk: nat) returns (hit: bool, data: Block)
      requires Valid() && nr > 0
      ensures Lookup(Fifo(), dev, blk) == if hit then Some(data) else None
    {
      var b := idx;
      ghost var k: nat := 0;
      while true
        invariant 0 <= k < nr && b == if k == 0 then idx else SlotOfAge(idx, nr, k - 1)
        invariant Missed(Fifo(), dev, blk, k)
        decreases nr - k
      {
        if b == 0 { b := nr; }
        b := b - 1;
        Inspect(dev, blk, k, b);
        if slot[b].blocknr == blk && slot[b].dev == dev { return true, ram[b]; }
        if b == idx { return false, []; }
        k := k + 1;
      }
    }

    /** The entry of age k is a hit, a miss, or the last miss. */
    lemma Inspect(dev: nat, blk: nat, k: nat, b: nat)
      requires Valid() && k < nr && b == SlotOfAge(idx, nr, k) && Missed(Fifo(), dev, blk, k)
      ensures if slot[b].blocknr == blk && slot[b].dev == dev then Lookup(Fifo(), dev, blk) == Some(ram[b])
              else if b == idx then Lookup(Fifo(), dev, blk) == None else k + 1 < nr && Missed(Fifo(), dev, blk, k + 1)
    {
      if slot[b].blocknr == blk && slot[b].dev == dev {
        LookupAt(Fifo(), dev, blk, k);
      } else if b == idx {
        LookupNone(Fifo(), dev, blk);
      }
    }

    /** put_block2: a store is a push on the FIFO. */
    method Put(dev: nat, blk: nat, data: Block)
      requires Valid() && dev != NO_DEV
      modifies this
      ensures Valid() && nr == old(nr)
      ensures nr > 0 ==> Fifo() == Push(old(Fifo()), Entry(dev, blk, data))
      ensures nr == 0 ==> ram == old(ram)
    {
      if nr == 0 { return; }
      ghost var f := Fifo();
      var b := idx;
      Store(b, dev, blk);
      idx := idx + 1;
      if idx == nr { idx := 0; }
      ram := ram[b := data];
      FifoPushed(old(slot), old(ram), old(idx), slot, ram, idx, nr, Entry(dev, blk, data));
    }

    /** The slot update inside put_block2. */
    method Store(b: nat, dev: nat, blk: nat)
      requires Valid() && b < nr && dev != NO_DEV
      modifies this`slot
      ensures Valid() && SameBlocks(old(slot), slot, b)
      ensures slot[b].dev == dev && slot[b].blocknr == blk
    {
      var h := Hash2(slot[b].blocknr);
      ghost var mid := slot;
      if slot[b].dev != NO_DEV {
        slot := slot[h := slot[h].(count := slot[h].count - 1)];
        mid := slot[b := slot[b].(dev := NO_DEV)];
        DropCounts(old(slot), mid, nr, b);
      }
      slot := slot[b := slot[b].(dev := dev, blocknr := blk)];
      h := Hash2(blk);
      slot := slot[h := slot[h].(count := slot[h].count + 1)];
      AddCounts(mid, slot, nr, b);
    }

    /** invalidate2: every entry of the device is dropped. */
    method Invalidate(device: nat)
      requires Valid() && device != NO_DEV
      modifies this`slot
      ensures Valid()
      ensures Fifo() == Purge(old(Fifo()), device)
    {
      var b := 0;
      while b < nr
        invariant 0 <= b <= nr && Valid()
        invariant forall i :: 0 <= i < MAX_BUF2 ==> slot[i].blocknr == old(slot)[i].blocknr
        invariant forall i :: 0 <= i < MAX_BUF2 ==>
          slot[i].dev == if i < b && old(slot)[i].dev == device then NO_DEV else old(slot)[i].dev
      {
        if slot[b].dev == device {
          Drop(b);
        }
        b := b + 1;
      }
      assert |Fifo()| == |old(Fifo())|;
    }

    /** The slot update inside invalidate2. */
    method Drop(b: nat)
      requires Valid() && b < nr && slot[b].dev != NO_DEV
      modifies this`slot
      ensures Valid() && SameBlocks(old(slot), slot, b)
      ensures slot[b].dev == NO_DEV && slot[b].blocknr == old(slot)[b].blocknr
    {
      slot := slot[b := slot[b].(dev := NO_DEV)];
      var h := Hash2(slot[b].blocknr);
      slot := slot[h := slot[h].(count := slot[h].count - 1)];
      DropCounts(old(slot), slot, nr, b);
    }

    /** dev_io to the RAM disk itself; allowed only once the cache on it is disabled. */
    method WriteRam(blk: nat, data: Block)
      requires Valid() && nr == 0
      modifies this`ram
      ensures Valid() && ram == old(ram)[blk := data]
    {
      ram := ram[blk := data];
    }
  }

  /** The counts of s1 differ from those of s0 by `d` at key `h`, and only there. */
  ghost predicate Counted(s0: seq<Slot>, s1: seq<Slot>, h: nat, d: int)
    requires |s0| == |s1| == MAX_BUF2
  {
    forall g :: 0 <= g < MAX_BUF2 ==> s1[g].count == s0[g].count + if g == h then d else 0
  }

  ghost predicate SameBlocks(s0: seq<Slot>, s1: seq<Slot>, b: nat)
    requires |s0| == |s1| == MAX_BUF2
  {
    forall i :: 0 <= i < MAX_BUF2 && i != b ==> s1[i].dev == s0[i].dev && s1[i].blocknr == s0[i].blocknr
  }

  /** Dropping or filling slot b moves exactly one key. */
  lemma DropKey(s0: seq<Slot>, s1: seq<Slot>, nr: nat, b: nat, h: nat)
    requires b < nr <= |s0| == |s1| == MAX_BUF2 && h < MAX_BUF2
    requires s0[b].dev != NO_DEV && s1[b].dev == NO_DEV && SameBlocks(s0, s1, b)
    ensures Keyed(s1, nr, h) == Keyed(s0, nr, h) - {b}
    ensures |Keyed(s1, nr, h)| == |Keyed(s0, nr, h)| - if h == Hash2(s0[b].blocknr) then 1 else 0
  {
  }

  lemma DropCounts(s0: seq<Slot>, s1: seq<Slot>, nr: nat, b: nat)
    requires b < nr <= |s0| == |s1| == MAX_BUF2 && CountsExact(s0, nr) && s0[b].dev != NO_DEV
    requires s1[b].dev == NO_DEV && SameBlocks(s0, s1, b) && Counted(s0, s1, Hash2(s0[b].blocknr), -1)
    ensures CountsExact(s1, nr)
  {
    forall h | 0 <= h < MAX_BUF2 ensures s1[h].count == |Keyed(s1, nr, h)| {
      DropKey(s0, s1, nr, b, h);
    }
  }

  lemma AddCounts(s0: seq<Slot>, s1: seq<Slot>, nr: nat, b: nat)
    requires b < nr <= |s0| == |s1| == MAX_BUF2 && CountsExact(s0, nr) && s0[b].dev == NO_DEV
    requires s1[b].dev != NO_DEV && SameBlocks(s0, s1, b) && Counted(s0, s1, Hash2(s1[b].blocknr), 1)
    ensures CountsExact(s1, nr)
  {
    forall h | 0 <= h < MAX_BUF2 ensures s1[h].count == |Keyed(s1, nr, h)| {
      DropKey(s1, s0, nr, b, h);
    }
  }
}
