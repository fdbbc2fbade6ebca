/**
 Reading ahead: the reading half of rw_scattered and rahead.  Prefetch buffers
 sit in the cache without a device until the driver has delivered their block.
 */
module ReadAhead {
  import opened Base
  import opened Lists
  import opened CacheLinks
  import opened Coherence
  import opened Cache

  /** Blocks still owned by the reader: pinned, without a device, and cached nowhere else. */
  ghost predicate Prefetched(buf: seq<Buf>, q: seq<nat>, dev: nat) {
    && InRange(q, |buf|) && Distinct(q)
    && (forall k :: 0 <= k < |q| ==>
      buf[q[k]].dev == NO_DEV && buf[q[k]].count > 0 && !Held(buf, Addr(dev, buf[q[k]].blocknr)))
    && (forall j, k :: 0 <= j < k < |q| ==> buf[q[j]].blocknr != buf[q[k]].blocknr)
  }

  lemma PrefetchedRest(b0: seq<Buf>, b1: seq<Buf>, q: seq<nat>, dev: nat)
    requires Prefetched(b0, q, dev) && q != [] && dev != NO_DEV && |b1| == |b0|
    requires forall i :: 0 <= i < |b0| && i != q[0] ==> AddrOf(b1[i]) == AddrOf(b0[i]) && b1[i].count == b0[i].count
    requires AddrOf(b1[q[0]]) in {Addr(dev, b0[q[0]].blocknr), AddrOf(b0[q[0]])}
    ensures Prefetched(b1, q[1..], dev)
  {
    forall k | 0 < k < |q| ensures !Held(b1, Addr(dev, b1[q[k]].blocknr)) {
      assert q[0] != q[k];
      forall i | 0 <= i < |b1| ensures AddrOf(b1[i]) != Addr(dev, b1[q[k]].blocknr) {
        if i != q[0] { assert AddrOf(b1[i]) == AddrOf(b0[i]); }
      }
    }
  }

  lemma PrefetchedSorted(buf: seq<Buf>, q: seq<nat>, run: seq<nat>, dev: nat)
    requires Prefetched(buf, q, dev) && multiset(run) == multiset(q)
    ensures Prefetched(buf, run, dev) && Elements(run) == Elements(q)
  {
    Sort.PermutedDistinct(q, run);
    forall k | 0 <= k < |run| ensures run[k] in q { assert run[k] in run; }
    forall j, k | 0 <= j < k < |run| ensures buf[run[j]].blocknr != buf[run[k]].blocknr {
      var j', k' :| 0 <= j' < |q| && 0 <= k' < |q| && q[j'] == run[j] && q[k'] == run[k];
    }
  }

  /** The driver has delivered a block: give the buffer its device back. */
  method Deliver(c: Cache, bp: nat, a: Addr)
    requires c.Valid() && c.pending == NIL && bp < c.nrBufs && c.buf[bp].dev == NO_DEV
    requires a.dev != NO_DEV && a.blk == c.buf[bp].blocknr && !Held(c.buf, a) && (a.dev == DEV_RAM ==> c.l2.nr == 0)
    modifies c`buf
    ensures c.Valid() && SameCounts(old(c.buf), c.buf) && AddrOf(c.buf[bp]) == a && c.buf[bp].data == c.contents[a]
    ensures forall i :: 0 <= i < c.nrBufs && i != bp ==> c.buf[i] == old(c.buf)[i]
  {
    var data := c.DevRead(a);
    assert AbsentOk(a, c.M(), c.contents);
    c.buf := c.buf[bp := c.buf[bp].(dev := a.dev, data := data)];
    ReplaceCoherent(old(c.buf), c.M(), c.contents, bp, c.buf);
    c.FillLists(old(c.buf), bp);
    assert BufferOk(c.buf[bp], c.M(), c.contents);
  }

  /** Buffers outside the queue are untouched and those in it have lost one pin. */
  ghost predicate Released(b0: seq<Buf>, b1: seq<Buf>, q: set<nat>) {
    && |b0| == |b1|
    && (forall i :: 0 <= i < |b0| && i !in q ==>
      AddrOf(b1[i]) == AddrOf(b0[i]) && b1[i].data == b0[i].data && b1[i].count == b0[i].count)
    && (forall i :: 0 <= i < |b0| && i in q ==> b1[i].count == b0[i].count - 1)
  }

  /** The first i buffers of the run are handed back; the first t of the request have arrived from base on. */
  ghost predicate Delivering(b0: seq<Buf>, buf: seq<Buf>, run: seq<nat>, i: nat, dev: nat, base: nat, t: nat)
    requires i <= |run|
  {
    // "true ==" makes this one fact to prove, not one for each part.
    true == (
      && Prefetched(buf, run[i..], dev) && Released(b0, buf, Elements(run[..i]))
      && (forall k :: i <= k < t && k < |run| ==> run[k] < |buf| && buf[run[k]].blocknr == base + k))
  }

  /** Of the first i buffers of the run, the k-th holds block base + k if k < t, and is without a device otherwise. */
  ghost predicate Arrived(b0: seq<Buf>, b1: seq<Buf>, run: seq<nat>, i: nat, dev: nat, base: nat, t: nat,
                          contents: imap<Addr, Block>) {
    true == (forall k {:trigger run[k]} :: 0 <= k < i && k < |run| ==>
      && run[k] < |b0| && run[k] < |b1| && b1[run[k]].blocknr == b0[run[k]].blocknr
      && if k < t then Holds(b1[run[k]], Addr(dev, base + k), contents) else b1[run[k]].dev == NO_DEV)
  }

  ghost predicate Holds(b: Buf, a: Addr, contents: imap<Addr, Block>) {
    AddrOf(b) == a && a in contents && b.data == contents[a]
  }

  lemma ArrivedNext(b0: seq<Buf>, b1: seq<Buf>, b2: seq<Buf>, run: seq<nat>, i: nat, dev: nat, base: nat, t: nat,
                    contents: imap<Addr, Block>)
    requires i < |run| && Distinct(run) && Delivering(b0, b1, run, i, dev, base, t)
    requires Arrived(b0, b1, run, i, dev, base, t, contents)
      && Handed(b1, b2, run[i], Addr(dev, base + i), i < t, contents)
    ensures Arrived(b0, b2, run, i + 1, dev, base, t, contents)
  {
    assert run[i] !in Elements(run[..i]);
  }

  /** Handing back the first buffer of the queue, filled or not. */
  method PutFirst(c: Cache, run: seq<nat>, i: nat, dev: nat, base: nat, t: nat, ghost b0: seq<Buf>)
    requires c.Valid() && c.pending == NIL && i < |run| && dev != NO_DEV && (dev == DEV_RAM ==> c.l2.nr == 0)
    requires Delivering(b0, c.buf, run, i, dev, base, t) && Distinct(run)
      && Arrived(b0, c.buf, run, i, dev, base, t, c.contents)
    modifies c`buf, c`front, c`rear, c`bufsInUse, c`lru, c`disk, c.l2`ram
    ensures c.Valid() && c.l2.nr == old(c.l2.nr)
    ensures Delivering(b0, c.buf, run, i + 1, dev, base, t) && Arrived(b0, c.buf, run, i + 1, dev, base, t, c.contents)
  {
    assert run[i..][0] == run[i];
    PutFilled(c, run[i], Addr(dev, base + i), i < t);
    PutFirstResult(b0, old(c.buf), c.buf, run, i, dev, base, t, c.contents);
    ArrivedNext(b0, old(c.buf), c.buf, run, i, dev, base, t, c.contents);
  }

  /** A prefetched buffer has been given block a, or nothing, and has lost its pin. */
  ghost predicate Handed(b0: seq<Buf>, b1: seq<Buf>, bp: nat, a: Addr, filled: bool, contents: imap<Addr, Block>) {
    true == (
      && bp < |b0| == |b1|
      && (forall j ::
        0 <= j < |b0| && j != bp ==>
        AddrOf(b1[j]) == AddrOf(b0[j]) && b1[j].data == b0[j].data && b1[j].count == b0[j].count)
      && b1[bp].blocknr == b0[bp].blocknr && b1[bp].count == b0[bp].count - 1
      && if filled then Holds(b1[bp], a, contents) else b1[bp].dev == NO_DEV)
  }

  method PutFilled(c: Cache, bp: nat, a: Addr, filled: bool)
    requires c.Valid() && c.pending == NIL && bp < c.nrBufs && c.buf[bp].dev == NO_DEV && c.buf[bp].count > 0
    requires filled ==>
      a.dev != NO_DEV && a.blk == c.buf[bp].blocknr && !Held(c.buf, a) && (a.dev == DEV_RAM ==> c.l2.nr == 0)
    modifies c`buf, c`front, c`rear, c`bufsInUse, c`lru, c`disk, c.l2`ram
    ensures c.Valid() && c.l2.nr == old(c.l2.nr) && Handed(old(c.buf), c.buf, bp, a, filled, c.contents)
  {
    if filled { Deliver(c, bp, a); }
    c.PutBlock(bp, false, false);
  }

  lemma PutFirstResult(b0: seq<Buf>, b1: seq<Buf>, b2: seq<Buf>, run: seq<nat>, i: nat, dev: nat, base: nat, t: nat,
                       contents: imap<Addr, Block>)
    requires i < |run| && Delivering(b0, b1, run, i, dev, base, t) && Distinct(run) && dev != NO_DEV
    requires Handed(b1, b2, run[i], Addr(dev, base + i), i < t, contents) && b1[run[i]].dev == NO_DEV
    ensures Delivering(b0, b2, run, i + 1, dev, base, t)
  {
    assert run[i..][0] == run[i];
    PrefetchedRest(b1, b2, run[i..], dev);
    assert run[i..][1..] == run[i + 1..];
    ElementsStep(run, i);
    assert run[i] !in Elements(run[..i]);
  }

  /** The queue in block order, of which the driver fills the first t buffers, all within one request. */
  ghost predicate BlockOrder(b0: seq<Buf>, q: seq<nat>, run: seq<nat>, t: nat) {
    true == (
      && multiset(run) == multiset(q) && InRange(run, |b0|) && t <= |run|
      && forall j, k :: 0 <= j < k < |run| ==> b0[run[j]].blocknr < b0[run[k]].blocknr)
  }

  /**
   rw_scattered in the reading direction: the driver may stop early or fail.
   The buffers it fills are the first of the run, the k-th with the block that
   it stood for; the rest is released without a device.
   */
  method ReadScattered(c: Cache, dev: nat, q: array<nat>) returns (ghost run: seq<nat>, ghost t: nat)
    requires c.Valid() && c.pending == NIL && dev != NO_DEV && (dev == DEV_RAM ==> c.l2.nr == 0)
    requires q.Length > 0 && Prefetched(c.buf, q[..], dev)
    modifies c`buf, c`front, c`rear, c`bufsInUse, c`lru, c`disk, c.l2`ram, q
    ensures c.Valid() && c.l2.nr == old(c.l2.nr)
    ensures Released(old(c.buf), c.buf, Elements(old(q[..])))
    ensures BlockOrder(old(c.buf), old(q[..]), run, t) && |run| > 0
    ensures Arrived(old(c.buf), c.buf, run, |run|, dev, old(c.buf)[run[0]].blocknr, t, c.contents)
  {
    var queue := c.SortQueue(q);
    PrefetchedSorted(c.buf, old(q[..]), queue, dev);
    var j := c.RunLength(queue, 0);
    var done: nat :| 0 <= done <= j;
    run, t := queue, done;
    ReadRun(c, queue, dev, c.buf[queue[0]].blocknr, done);
  }

  /** The buffers of one request, in block order. */
  method ReadRun(c: Cache, run: seq<nat>, dev: nat, base: nat, t: nat)
    requires c.Valid() && c.pending == NIL && dev != NO_DEV && (dev == DEV_RAM ==> c.l2.nr == 0)
    requires Prefetched(c.buf, run, dev) && forall k :: 0 <= k < t && k < |run| ==> c.buf[run[k]].blocknr == base + k
    modifies c`buf, c`front, c`rear, c`bufsInUse, c`lru, c`disk, c.l2`ram
    ensures c.Valid() && c.l2.nr == old(c.l2.nr)
    ensures Released(old(c.buf), c.buf, Elements(run))
      && Arrived(old(c.buf), c.buf, run, |run|, dev, base, t, c.contents)
  {
    var i := 0;
    DeliveringStart(c.buf, run, dev, base, t, c.contents);
    while i < |run|
      invariant 0 <= i <= |run| && c.Valid() == true && c.l2.nr == old(c.l2.nr)
      invariant Delivering(old(c.buf), c.buf, run, i, dev, base, t)
        && Arrived(old(c.buf), c.buf, run, i, dev, base, t, c.contents)
    {
      PutFirst(c, run, i, dev, base, t, old(c.buf));
      i := i + 1;
    }
    DeliveringEnd(old(c.buf), c.buf, run, dev, base, t);
  }

  lemma DeliveringStart(b: seq<Buf>, run: seq<nat>, dev: nat, base: nat, t: nat, contents: imap<Addr, Block>)
    requires Prefetched(b, run, dev) && forall k :: 0 <= k < t && k < |run| ==> b[run[k]].blocknr == base + k
    ensures Distinct(run) && Delivering(b, b, run, 0, dev, base, t) && Arrived(b, b, run, 0, dev, base, t, contents)
  {
    assert run[0..] == run;
  }

  lemma DeliveringEnd(b0: seq<Buf>, b1: seq<Buf>, run: seq<nat>, dev: nat, base: nat, t: nat)
    requires Delivering(b0, b1, run, |run|, dev, base, t)
    ensures Released(b0, b1, Elements(run))
  {
    assert run[..|run|] == run;
  }

  /** The read-ahead queue: every buffer in it was free before. */
  ghost predicate Queue(b0: seq<Buf>, b1: seq<Buf>, q: seq<nat>, dev: nat, block: nat) {
    && |b0| == |b1| && Prefetched(b1, q, dev)
    && (forall i :: i in q ==> b0[i].count == 0)
    && (forall i :: 0 <= i < |b1| ==> b1[i].count == b0[i].count + if i in q then 1 else 0)
    && (forall k :: 0 <= k < |q| ==> b1[q[k]].blocknr <= block)
  }

  /** Every buffer in use in b0 has kept its identity and data from b1 to b2. */
  ghost predicate KeptFor(b0: seq<Buf>, b1: seq<Buf>, b2: seq<Buf>) {
    |b0| == |b1| == |b2| && forall i :: 0 <= i < |b0| && b0[i].count > 0 ==>
      AddrOf(b2[i]) == AddrOf(b1[i]) && b2[i].data == b1[i].data
  }

  lemma QueueGrows(b0: seq<Buf>, b1: seq<Buf>, b2: seq<Buf>, q: seq<nat>, dev: nat, block: nat, bp: nat)
    requires Queue(b0, b1, q, dev, block) && dev != NO_DEV && |b2| == |b1| && bp < |b1|
    requires OnlyAdds(b1, b2, Addr(dev, block + 1))
    requires forall i :: 0 <= i < |b1| && b1[i].count > 0 ==> AddrOf(b2[i]) == AddrOf(b1[i])
    requires b1[bp].count == 0 && b2[bp].count == 1 && b2[bp].dev == NO_DEV && b2[bp].blocknr == block + 1
    requires forall i :: 0 <= i < |b1| && i != bp ==> b2[i].count == b1[i].count
    requires !Held(b2, Addr(dev, block + 1))
    ensures Queue(b0, b2, q + [bp], dev, block + 1)
  {
    var q2 := q + [bp];
    forall k | 0 <= k < |q| ensures q2[k] == q[k] && !Held(b2, Addr(dev, b2[q[k]].blocknr)) {
      assert !Held(b1, Addr(dev, b1[q[k]].blocknr));
      forall i | 0 <= i < |b2| ensures AddrOf(b2[i]) != Addr(dev, b1[q[k]].blocknr) {}
    }
    assert bp !in q;
    forall i | i in q2 ensures b0[i].count == 0 {}
  }

  const UINT_MAX: nat := 0xFFFF_FFFF

  /** The buffer holds block a with its contents. */
  ghost predicate Shows(buf: seq<Buf>, bp: int, a: Addr, contents: imap<Addr, Block>) {
    true == (0 <= bp < |buf| && AddrOf(buf[bp]) == a && a in contents && buf[bp].data == contents[a])
  }

  /** One more pin on the buffer, if there is one, and no other change of counts. */
  ghost predicate OnePin(b0: seq<Buf>, b1: seq<Buf>, bp: int) {
    true == (|b0| == |b1| && forall i :: 0 <= i < |b0| ==> b1[i].count == b0[i].count + if i == bp then 1 else 0)
  }

  /**
   rahead: fetch block blk of dev, reading up to `ahead` blocks (an unsigned
   number, so 0 wraps around) if it is not in the cache.  NIL stands for the
   panic when all buffers are in use.
   */
  method Rahead(c: Cache, dev: nat, blk: nat, ahead: nat) returns (bp: int)
    requires c.Valid() && c.pending == NIL && dev != NO_DEV && c.nrBufs >= 6 && ahead <= UINT_MAX
    modifies c, c.l2
    ensures c.Valid() && c.pending == NIL
    ensures bp == NIL <==> old(c.front == NIL && !Held(c.buf, Addr(dev, blk)))
    ensures bp == NIL ==> forall i :: 0 <= i < c.nrBufs ==> c.buf[i].count > 0
    ensures c.l2.nr == if dev == DEV_RAM && bp != NIL then 0 else old(c.l2.nr)
    ensures c.ContentsKept(old(c.contents), old(c.l2.nr)) && c.PinsKept(old(c.buf))
    ensures (bp != NIL ==> Shows(c.buf, bp, Addr(dev, blk), c.contents)) && OnePin(old(c.buf), c.buf, bp)
  {
    bp := c.GetBlock(dev, blk, Prefetch);
    if bp == NIL || c.buf[bp].dev != NO_DEV { return; }
    FirstQueued(old(c.buf), c.buf, bp, Addr(dev, blk), c.contents, NIL);
    bp := FetchAndGet(c, dev, blk, bp, ahead, old(c.buf), old(c.contents), old(c.l2.nr));
  }

  /** The buffer that get_block has left to be filled is the start of the queue. */
  lemma FirstQueued(b0: seq<Buf>, b1: seq<Buf>, bp: int, a: Addr, contents: imap<Addr, Block>, pending: int)
    requires Got(b0, b1, bp, a, Prefetch, contents, pending) && a.dev != NO_DEV && b1[bp].dev == NO_DEV
    requires forall i :: 0 <= i < |b0| && i != bp ==> b1[i].count == b0[i].count
    ensures Queue(b0, b1, [bp], a.dev, a.blk) && OnePin(b0, b1, bp)
  {
  }

  /** The rest of rahead once the block has to be read. */
  method FetchAndGet(c: Cache, dev: nat, blk: nat, first: nat, ahead: nat, ghost b0: seq<Buf>, ghost c0: imap<Addr,
                     Block>, ghost nr0: nat)
    returns (bp: int)
    requires c.Valid() && c.pending == NIL && dev != NO_DEV && c.nrBufs >= 6 && ahead <= UINT_MAX
    requires Queue(b0, c.buf, [first], dev, blk) && (dev == DEV_RAM ==> c.l2.nr == 0)
    requires c.ContentsKept(c0, nr0) && c.PinsKept(b0)
    modifies c, c.l2
    ensures c.Valid() && c.pending == NIL && c.l2.nr == old(c.l2.nr)
    ensures c.ContentsKept(c0, nr0) && c.PinsKept(b0)
    ensures Shows(c.buf, bp, Addr(dev, blk), c.contents) && OnePin(b0, c.buf, bp)
  {
    Fetch(c, dev, blk, first, ahead, b0);
    bp := c.GetBlock(dev, blk, Normal);
  }

  /** The physical read of rahead: acquire, transfer, release. */
  method Fetch(c: Cache, dev: nat, blk: nat, first: nat, ahead: nat, ghost b0: seq<Buf>)
    requires c.Valid() && c.pending == NIL && dev != NO_DEV && c.nrBufs >= 6 && ahead <= UINT_MAX
    requires Queue(b0, c.buf, [first], dev, blk) && (dev == DEV_RAM ==> c.l2.nr == 0)
    modifies c, c.l2
    ensures c.Valid() && c.pending == NIL && c.l2.nr == old(c.l2.nr) && c.front != NIL
    ensures c.ContentsKept(old(c.contents), old(c.l2.nr))
    ensures SameCounts(b0, c.buf)
    ensures KeptFor(b0, old(c.buf), c.buf)
  {
    var q := Acquire(c, dev, blk, first, ahead, b0);
    ghost var b1 := c.buf;
    ReadQueue(c, dev, q);
    ReleasedAll(b0, old(c.buf), b1, c.buf, q, dev);
    FreeInList(c, q[0]);
  }

  method ReadQueue(c: Cache, dev: nat, q: seq<nat>)
    requires c.Valid() && c.pending == NIL && dev != NO_DEV && (dev == DEV_RAM ==> c.l2.nr == 0)
    requires q != [] && Prefetched(c.buf, q, dev)
    modifies c`buf, c`front, c`rear, c`bufsInUse, c`lru, c`disk, c.l2`ram
    ensures c.Valid() && c.l2.nr == old(c.l2.nr) && Released(old(c.buf), c.buf, Elements(q))
  {
    var arr := new nat[|q|](i requires 0 <= i < |q| => q[i]);
    assert arr[..] == q;
    ghost var _, _ := ReadScattered(c, dev, arr);
  }

  lemma FreeInList(c: Cache, bp: nat)
    requires c.Lists(NIL, NIL) && bp < c.nrBufs && c.buf[bp].count == 0
    ensures c.front != NIL
  {
    assert bp in c.lru;
  }

  lemma ReleasedAll(b0: seq<Buf>, b1: seq<Buf>, b2: seq<Buf>, b3: seq<Buf>, q: seq<nat>, dev: nat)
    requires |q| > 0 && (exists block :: Queue(b0, b2, q, dev, block))
    requires Released(b2, b3, Elements(q)) && KeptFor(b0, b1, b2)
    ensures SameCounts(b0, b3) && KeptFor(b0, b1, b3) && q[0] < |b3| && b3[q[0]].count == 0
  {
    assert q[0] in q;
  }

  /** The loop of rahead that acquires prefetch buffers. */
  method Acquire(c: Cache, dev: nat, blk: nat, first: nat, ahead: nat, ghost b0: seq<Buf>) returns (q: seq<nat>)
    requires c.Valid() && c.pending == NIL && dev != NO_DEV && c.nrBufs >= 6 && ahead <= UINT_MAX
    requires Queue(b0, c.buf, [first], dev, blk) && (dev == DEV_RAM ==> c.l2.nr == 0)
    modifies c, c.l2
    ensures c.Valid() && c.pending == NIL && |q| > 0 && c.l2.nr == old(c.l2.nr)
    ensures c.ContentsKept(old(c.contents), old(c.l2.nr)) && KeptFor(b0, old(c.buf), c.buf)
    ensures exists block :: Queue(b0, c.buf, q, dev, block)
  {
    q := [first];
    var block := blk;
    var left := ahead;
    while true
      invariant c.Valid() == true && c.pending == NIL && |q| > 0 && c.l2.nr == old(c.l2.nr)
      invariant c.ContentsKept(old(c.contents), old(c.l2.nr)) && KeptFor(b0, old(c.buf), c.buf)
      invariant Queue(b0, c.buf, q, dev, block) == true
      invariant left <= UINT_MAX
      decreases c.nrBufs - |q|
    {
      left := if left == 0 then UINT_MAX else left - 1;
      if left == 0 { break; }
      if c.bufsInUse >= c.nrBufs - 4 { break; }
      var got;
      block, got, q := AcquireOne(c, dev, block, q, b0);
      if !got { break; }
      DistinctBound(q, c.nrBufs);
    }
  }

  /** Getting the prefetch buffer for the next block, unless that block turns out to be cached. */
  method AcquireOne(c: Cache, dev: nat, last: nat, q0: seq<nat>, ghost b0: seq<Buf>)
      returns (block: nat, got: bool, q: seq<nat>)
    requires c.Valid() && c.pending == NIL && dev != NO_DEV && c.bufsInUse < c.nrBufs - 4
    requires Queue(b0, c.buf, q0, dev, last) && (dev == DEV_RAM ==> c.l2.nr == 0)
    modifies c, c.l2
    ensures c.Valid() && c.pending == NIL && c.l2.nr == old(c.l2.nr)
    ensures c.ContentsKept(old(c.contents), old(c.l2.nr)) && c.PinsKept(old(c.buf))
    ensures Queue(b0, c.buf, q, dev, block) && |q| == |q0| + if got then 1 else 0
  {
    block, got, q := last + 1, false, q0;
    var bp := PrefetchOne(c, dev, block);
    if c.buf[bp].dev != NO_DEV {
      LeaveCached(c, dev, last, block, bp, q, b0, old(c.buf));
    } else {
      QueueGrows(b0, old(c.buf), c.buf, q, dev, last, bp);
      got, q := true, q + [bp];
    }
  }

  /** There is a free buffer. */
  method PrefetchOne(c: Cache, dev: nat, block: nat) returns (bp: nat)
    requires c.Valid() && c.pending == NIL && dev != NO_DEV && c.bufsInUse < c.nrBufs - 4
      && (dev == DEV_RAM ==> c.l2.nr == 0)
    modifies c, c.l2
    ensures c.Valid() && c.pending == NIL && c.l2.nr == old(c.l2.nr)
    ensures c.ContentsKept(old(c.contents), old(c.l2.nr)) && c.PinsKept(old(c.buf))
      && OnlyAdds(old(c.buf), c.buf, Addr(dev, block))
    ensures Got(old(c.buf), c.buf, bp, Addr(dev, block), Prefetch, c.contents, NIL) && OnePin(old(c.buf), c.buf, bp)
  {
    bp := c.GetBlock(dev, block, Prefetch);
  }

  /** The block is in the cache already: its buffer is put back. */
  method LeaveCached(c: Cache, dev: nat, ghost last: nat, block: nat, bp: nat, q: seq<nat>, ghost b0: seq<Buf>,
                     ghost b1: seq<Buf>)
    requires c.Valid() && c.pending == NIL && dev != NO_DEV && block == last + 1 && bp < c.nrBufs && c.buf[bp].count > 0
    requires Queue(b0, b1, q, dev, last) && OnlyAdds(b1, c.buf, Addr(dev, block)) && c.PinsKept(b1)
    requires OnePin(b1, c.buf, bp)
    modifies c`buf, c`front, c`rear, c`bufsInUse, c`lru, c`disk, c.l2`ram
    ensures c.Valid() && c.l2.nr == old(c.l2.nr) && c.PinsKept(b1) && Queue(b0, c.buf, q, dev, block)
  {
    c.PutBlock(bp, false, false);
    QueueKept(b0, b1, c.buf, q, dev, last, block);
  }

  lemma QueueKept(b0: seq<Buf>, b1: seq<Buf>, b2: seq<Buf>, q: seq<nat>, dev: nat, last: nat, block: nat)
    requires block == last + 1 && Queue(b0, b1, q, dev, last) && dev != NO_DEV && SameCounts(b1, b2)
    requires OnlyAdds(b1, b2, Addr(dev, block))
    requires forall i :: 0 <= i < |b1| && b1[i].count > 0 ==> AddrOf(b2[i]) == AddrOf(b1[i])
    ensures Queue(b0, b2, q, dev, block)
  {
    forall k | 0 <= k < |q| ensures !Held(b2, Addr(dev, b2[q[k]].blocknr)) {
      assert !Held(b1, Addr(dev, b1[q[k]].blocknr));
      forall i | 0 <= i < |b2| ensures AddrOf(b2[i]) != Addr(dev, b1[q[k]].blocknr) {}
    }
  }
}
