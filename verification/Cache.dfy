/**
 The primary block cache: get_block, put_block, rw_block, rw_scattered,
 flushall, invalidate, rahead and buf_pool.  The two levels together are proved
 to show exactly one contents map, whatever mix of buffers, second level
 entries and disk blocks serves a request.
 */
module Cache {
  import opened Base
  import opened Lists
  import opened CacheLinks
  import opened Coherence
  import Sort = ShellSort

  const NR_IOREQS: nat := 64

  class Cache {
    const nrBufs: nat
    const nrHash: nat
    const l2: L2.Level2
    var buf: seq<Buf>
    var bufHash: seq<int>
    var front: int
    var rear: int
    var bufsInUse: int
    var disk: imap<Addr, Block>           // the media of all devices but the RAM disk

    ghost var lru: seq<nat>               // the LRU list, least recently used first
    ghost var chains: seq<seq<nat>>       // the hash chains
    ghost var contents: imap<Addr, Block> // what clients see
    ghost var pending: int                // a NO_READ buffer not yet overwritten, or NIL

    // ---------- invariants ----------

    ghost predicate Lists(lruOut: int, hashOut: int)
      reads this
    {
      // "true ==" makes this one fact to prove, not one for each part.
      true == (
        && |buf| == nrBufs && |bufHash| == |chains| == nrHash
        && LruOk(buf, front, rear, lru, lruOut)
        && HashOk(buf, bufHash, chains, hashOut)
        && bufsInUse == nrBufs - |lru|)
    }

    ghost function M(): Media
      requires l2.Valid()
      reads this, l2
    {
      Media(disk, l2.ram, l2.nr, l2.Fifo())
    }

    ghost predicate Valid()
      reads this, l2
    {
      && Lists(NIL, NIL) && l2.Valid()
      && Coherent(buf, M(), contents, pending)
      && (pending == NIL || (0 <= pending < nrBufs && buf[pending].count > 0))
    }

    /** Buffers that are in use keep their identity and their data. */
    ghost predicate PinsKept(b0: seq<Buf>)
      reads this
    {
      |b0| == |buf| && forall i :: 0 <= i < |b0| && b0[i].count > 0 ==>
        buf[i].dev == b0[i].dev && buf[i].blocknr == b0[i].blocknr && buf[i].data == b0[i].data
    }

    /** The contents are unchanged, except that the RAM disk shows its raw blocks once the second level is off. */
    ghost predicate ContentsKept(c0: imap<Addr, Block>, nr0: nat)
      reads this, l2
    {
      forall a: Addr :: a in c0 && a in contents && (a.dev != DEV_RAM || nr0 == l2.nr ==> contents[a] == c0[a])
    }

    /** buf_pool: all buffers are free, without a device, and on hash chain 0. */
    constructor (n: nat, hashes: nat, second: L2.Level2, media: imap<Addr, Block>)
      requires n > 0 && hashes > 0 && second.Valid()
      requires forall a: Addr :: a in media
      requires forall dev, blk :: dev != NO_DEV ==> L2.Lookup(second.Fifo(), dev, blk) == None
      ensures Valid() && nrBufs == n && nrHash == hashes && l2 == second
      ensures pending == NIL && bufsInUse == 0 && disk == media
      ensures forall i :: 0 <= i < n ==> buf[i].count == 0 && buf[i].dev == NO_DEV
      ensures forall a: Addr :: Visible(M(), a) ==> a in contents && contents[a] == Medium(M(), a)
    {
      nrBufs, nrHash, l2, disk := n, hashes, second, media;
      var pool := seq(n, i requires 0 <= i < n =>
        Buf([], if i == n - 1 then NIL else i + 1, i - 1, if i == n - 1 then NIL else i + 1, NO_BLOCK, NO_DEV, false,
          0));
      buf := pool;
      front, rear, bufsInUse := 0, n - 1, 0;
      bufHash := seq(hashes, h => if h == 0 then 0 else NIL);
      var all := seq(n, i requires 0 <= i < n => i);
      lru := all;
      chains := seq(hashes, h => if h == 0 then all else []);
      contents := imap a: Addr :: if a.dev == DEV_RAM then second.ram[a.blk] else media[a];
      pending := NIL;
      new;
      PoolLists(n, hashes, pool, all, bufHash, chains);
      PoolCoherent(buf, M(), contents);
    }

    // ---------- list surgery ----------

    /** rm_lru */
    method RmLru(bp: nat)
      requires Lists(NIL, NIL) && bp < nrBufs && buf[bp].count == 0
      modifies this`buf, this`front, this`rear, this`bufsInUse, this`lru
      ensures Lists(bp, NIL) && Taken(old(lru), lru, bp)
      ensures SameHash(old(buf), buf) && SameData(old(buf), buf) && SameCounts(old(buf), buf)
    {
      ghost var k :| 0 <= k < |lru| && lru[k] == bp;
      RmLruStep(buf, front, rear, lru, bufHash, chains, k, bp);
      var n, p := buf[bp].next, buf[bp].prev;
      bufsInUse, buf := bufsInUse + 1, Unlinked(buf, bp);
      front, rear := if p != NIL then front else n, if n != NIL then rear else p;
      lru := Without(lru, k);
    }

    /** Removing a buffer from its hash chain, inside get_block. */
    method Unhash(bp: nat)
      requires bp < nrBufs && Lists(bp, NIL)
      modifies this`buf, this`bufHash, this`chains
      ensures Lists(bp, bp)
      ensures SameLru(old(buf), buf) && SameData(old(buf), buf)
    {
      var b := buf[bp].blocknr % nrHash;
      assert Placed(buf, chains, b, bp, NIL) && ChainOk(buf, bufHash[b], chains[b]);
      ghost var kk :| 0 <= kk < |chains[b]| && chains[b][kk] == bp;
      var p := bufHash[b];
      if p == bp {
        assert kk == 0;
        bufHash := bufHash[b := buf[bp].hash];
      } else {
        ghost var k := 0;
        assert HashAt(buf, chains[b], 0);
        while buf[p].hash != NIL
          invariant 0 <= k < kk && p == chains[b][k] && buf == old(buf)
          invariant HashAt(buf, chains[b], k)
          decreases kk - k
        {
          if buf[p].hash == bp {
            assert k == kk - 1;
            buf := buf[p := buf[p].(hash := buf[bp].hash)];
            break;
          }
          p := buf[p].hash;
          k := k + 1;
          assert HashAt(buf, chains[b], k);
        }
        assert k == kk - 1;
      }
      SpliceKeepsChains(old(buf), old(bufHash), chains, bp, b, kk, buf, bufHash);
      chains := chains[b := Without(chains[b], kk)];
      FrameLru(old(buf), buf, front, rear, lru, bp);
    }

    /** The hash chain search of get_block. */
    method Find(dev: nat, blk: nat) returns (bp: int)
      requires Lists(NIL, NIL)
      ensures bp == NIL <==> !Held(buf, Addr(dev, blk))
      ensures bp != NIL ==> 0 <= bp < nrBufs && AddrOf(buf[bp]) == Addr(dev, blk)
    {
      var b := blk % nrHash;
      bp := bufHash[b];
      ghost var k := 0;
      assert ChainOk(buf, bufHash[b], chains[b]);
      while bp != NIL
        invariant 0 <= k <= |chains[b]| && bp == At(chains[b], k)
        invariant forall j :: 0 <= j < k ==> AddrOf(buf[chains[b][j]]) != Addr(dev, blk)
        decreases |chains[b]| - k
      {
        if buf[bp].blocknr == blk && buf[bp].dev == dev { return; }
        assert HashAt(buf, chains[b], k);
        bp := buf[bp].hash;
        k := k + 1;
      }
      forall i | 0 <= i < nrBufs ensures AddrOf(buf[i]) != Addr(dev, blk) {
        assert Placed(buf, chains, b, i, NIL);
      }
    }

    // ---------- device transfers ----------

    /** dev_io for one block. */
    method DevWrite(a: Addr, data: Block)
      requires l2.Valid() && (a.dev == DEV_RAM ==> l2.nr == 0)
      modifies this`disk, l2`ram
      ensures l2.Valid()
      ensures M().nr == old(M()).nr && M().fifo == old(M()).fifo
      ensures if a.dev == DEV_RAM then disk == old(disk) && l2.ram == old(l2.ram)[a.blk := data]
              else l2.ram == old(l2.ram) && disk == old(disk)[a := data]
    {
      if a.dev == DEV_RAM {
        l2.WriteRam(a.blk, data);
      } else {
        disk := disk[a := data];
      }
    }

    method DevRead(a: Addr) returns (data: Block)
      requires l2.Valid() && (forall a: Addr :: a in disk)
      ensures data == Medium(M(), a)
    {
      data := if a.dev == DEV_RAM then l2.ram[a.blk] else disk[a];
    }

    /** The run of consecutive block numbers that rw_scattered puts in one request. */
    method RunLength(q: seq<nat>, done: nat) returns (j: nat)
      requires done < |q| && InRange(q, |buf|)
      ensures 1 <= j <= |q| - done && j <= NR_IOREQS
      ensures forall k :: done <= k < done + j ==> buf[q[k]].blocknr == buf[q[done]].blocknr + k - done
      ensures j < NR_IOREQS && done + j < |q| ==> buf[q[done + j]].blocknr != buf[q[done]].blocknr + j
    {
      j := 0;
      while j < NR_IOREQS && j < |q| - done
        invariant 0 <= j <= |q| - done && j <= NR_IOREQS
        invariant forall k :: done <= k < done + j ==> buf[q[k]].blocknr == buf[q[done]].blocknr + k - done
      {
        if buf[q[done + j]].blocknr != buf[q[done]].blocknr + j { break; }
        j := j + 1;
      }
    }

    /** Writing one buffer to its own block. */
    method WriteOut(bp: nat, a: Addr, ghost b0: seq<Buf>, ghost m0: Media, ghost w: set<nat>)
      requires l2.Valid() && bp < |b0| && Unique(b0)
      requires Written(b0, m0, buf, M(), w) && forall j :: j in w ==> b0[j].dev != NO_DEV
      requires a == AddrOf(b0[bp]) && a.dev != NO_DEV && (a.dev == DEV_RAM ==> l2.nr == 0)
      modifies this`buf, this`disk, l2`ram
      ensures l2.Valid() && l2.nr == old(l2.nr)
      ensures Written(b0, m0, buf, M(), w + {bp})
    {
      ghost var b1, m1 := buf, M();
      DevWrite(a, buf[bp].data);
      buf := buf[bp := buf[bp].(dirty := false)];
      WriteOne(b0, m0, b1, m1, w, bp, buf, M());
    }

    /** The Shell sort of rw_scattered: the same buffers, ordered by block number. */
    method SortQueue(q: array<nat>) returns (run: seq<nat>)
      requires InRange(q[..], |buf|)
      modifies q
      ensures InRange(run, |buf|) && |run| == q.Length && multiset(run) == multiset(old(q[..]))
      ensures Elements(run) == Elements(old(q[..]))
      ensures forall i, j :: 0 <= i < j < |run| ==> buf[run[i]].blocknr <= buf[run[j]].blocknr
    {
      var key := seq(|buf|, i requires 0 <= i < |buf| reads this => buf[i].blocknr);
      Sort.Sort(q, key);
      run := q[..];
      SameQueue(old(q[..]), run);
    }

    /** The writing half of rw_scattered: every queued buffer ends on its own block and clean. */
    method WriteScattered(dev: nat, q: array<nat>)
      requires l2.Valid() && dev != NO_DEV && (dev == DEV_RAM ==> l2.nr == 0)
      requires Unique(buf) && (forall a: Addr :: a in disk) && InRange(q[..], |buf|)
      requires forall i :: i in Elements(q[..]) ==> buf[i].dev == dev
      modifies this`buf, this`disk, l2`ram, q
      ensures l2.Valid()
      ensures Written(old(buf), old(M()), buf, M(), Elements(old(q[..])))
    {
      var run := SortQueue(q);
      forall k | 0 <= k < |run| ensures run[k] < |buf| && buf[run[k]].dev == dev {
        assert run[k] in Elements(run);
      }
      var done := 0;
      while done < |run|
        invariant 0 <= done <= |run| && l2.Valid() && l2.nr == old(l2.nr)
        invariant Writing(old(buf), old(M()), buf, M(), run, done)
      {
        done := WriteRequest(dev, run, done, old(buf), old(M()));
      }
      assert run[..done] == run;
    }

    /** One request, of which the device transfers at least one block. */
    method WriteRequest(dev: nat, run: seq<nat>, done: nat, ghost b0: seq<Buf>, ghost m0: Media) returns (next: nat)
      requires l2.Valid() && dev != NO_DEV && done < |run| && (dev == DEV_RAM ==> l2.nr == 0)
      requires Writing(b0, m0, buf, M(), run, done) && Unique(b0)
      requires forall k :: 0 <= k < |run| ==> run[k] < |b0| && b0[run[k]].dev == dev
      modifies this`buf, this`disk, l2`ram
      ensures l2.Valid() && l2.nr == old(l2.nr)
      ensures done < next <= |run| && Writing(b0, m0, buf, M(), run, next)
    {
      var j := RunLength(run, done);
      var t: nat :| 1 <= t <= j;
      WriteRun(dev, run, done, t, buf[run[done]].blocknr, b0, m0);
      next := done + t;
    }

    /** One transfer: the device stores block i of the request at base + i. */
    method WriteRun(dev: nat, run: seq<nat>, done: nat, t: nat, base: nat, ghost b0: seq<Buf>, ghost m0: Media)
      requires l2.Valid() && dev != NO_DEV && done + t <= |run| && (dev == DEV_RAM ==> l2.nr == 0)
      requires Writing(b0, m0, buf, M(), run, done) && Unique(b0)
      requires forall k :: 0 <= k < |run| ==> run[k] < |b0| && b0[run[k]].dev == dev
      requires forall k :: done <= k < done + t ==> b0[run[k]].blocknr == base + k - done
      modifies this`buf, this`disk, l2`ram
      ensures l2.Valid() && l2.nr == old(l2.nr)
      ensures Writing(b0, m0, buf, M(), run, done + t)
    {
      var i := done;
      while i < done + t
        invariant done <= i <= done + t && l2.Valid() && l2.nr == old(l2.nr)
        invariant Writing(b0, m0, buf, M(), run, i)
      {
        WriteNext(dev, run, i, base + i - done, b0, m0);
        i := i + 1;
      }
    }

    method WriteNext(dev: nat, run: seq<nat>, i: nat, blk: nat, ghost b0: seq<Buf>, ghost m0: Media)
      requires l2.Valid() && dev != NO_DEV && i < |run| && (dev == DEV_RAM ==> l2.nr == 0)
      requires Writing(b0, m0, buf, M(), run, i) && Unique(b0)
      requires forall k :: 0 <= k < |run| ==> run[k] < |b0| && b0[run[k]].dev == dev
      requires b0[run[i]].blocknr == blk
      modifies this`buf, this`disk, l2`ram
      ensures l2.Valid() && l2.nr == old(l2.nr)
      ensures Writing(b0, m0, buf, M(), run, i + 1)
    {
      WriteOut(run[i], Addr(dev, blk), b0, m0, Elements(run[..i]));
      ElementsStep(run, i);
    }

    /** flushall: every dirty block of the device reaches the disk. */
    method FlushAll(dev: nat)
      requires l2.Valid() && Coherent(buf, M(), contents, NIL) && dev != NO_DEV
      modifies this`buf, this`disk, l2`ram
      ensures l2.Valid() && l2.nr == old(l2.nr)
      ensures Coherent(buf, M(), contents, NIL)
      ensures Written(old(buf), old(M()), buf, M(), DirtyOn(old(buf), dev))
    {
      var dirty: seq<nat> := [];
      var i := 0;
      while i < |buf|
        invariant 0 <= i <= |buf|
        invariant forall j :: j in dirty <==> 0 <= j < i && j in DirtyOn(buf, dev)
      {
        if buf[i].dirty && buf[i].dev == dev { dirty := dirty + [i]; }
        i := i + 1;
      }
      assert Elements(dirty) == DirtyOn(buf, dev);
      if dirty == [] {
        assert Written(buf, M(), buf, M(), {});
        return;
      }
      var q := new nat[|dirty|](i requires 0 <= i < |dirty| => dirty[i]);
      assert q[..] == dirty;
      forall k | 0 <= k < |dirty| ensures dirty[k] in DirtyOn(buf, dev) { assert dirty[k] in dirty; }
      assert dirty[0] in DirtyOn(buf, dev);
      WriteScattered(dev, q);
      WrittenCoherent(old(buf), old(M()), buf, M(), DirtyOn(old(buf), dev), contents);
    }

    // ---------- get_block ----------

    /** Taking the least recently used buffer out of the cache, writing it back if need be. */
    method Evict() returns (bp: nat)
      requires Valid() && pending == NIL && front != NIL
      modifies this`buf, this`bufHash, this`front, this`rear, this`bufsInUse, this`lru, this`chains, this`disk, l2
      ensures Lists(bp, bp) && l2.Valid() && l2.nr == old(l2.nr)
      ensures Evicted(old(buf), buf, bp) && Coherent(Emptied(buf, bp), M(), contents, NIL)
      ensures bp == old(front) && Taken(old(lru), lru, bp)
    {
      bp := TakeOldest();
      if buf[bp].dev != NO_DEV {
        if buf[bp].dirty { FlushEvicted(bp); }
        DropTo2(bp);
      } else {
        DropCoherent(buf, M(), contents, bp, Emptied(buf, bp), M());
      }
    }

    /** The buffer at the front of the LRU list leaves that list and its hash chain. */
    method TakeOldest() returns (bp: nat)
      requires Valid() && pending == NIL && front != NIL
      modifies this`buf, this`bufHash, this`front, this`rear, this`bufsInUse, this`lru, this`chains
      ensures Lists(bp, bp) && l2.Valid() && Coherent(buf, M(), contents, NIL)
      ensures bp < nrBufs && old(buf)[bp].count == 0 && SameData(old(buf), buf) && SameCounts(old(buf), buf)
      ensures bp == old(front) && Taken(old(lru), lru, bp)
    {
      bp := TakeFront();
      ghost var b1 := buf;
      Unhash(bp);
      FrameCoherent(b1, M(), contents, NIL, buf);
    }

    method TakeFront() returns (bp: nat)
      requires Valid() && pending == NIL && front != NIL
      modifies this`buf, this`front, this`rear, this`bufsInUse, this`lru
      ensures Lists(bp, NIL) && l2.Valid() && Coherent(buf, M(), contents, NIL)
      ensures bp < nrBufs && old(buf)[bp].count == 0 && SameData(old(buf), buf) && SameCounts(old(buf), buf)
      ensures bp == old(front) && Taken(old(lru), lru, bp)
    {
      bp := front;
      assert lru[0] in lru;
      RmLru(bp);
      FrameCoherent(old(buf), M(), contents, NIL, buf);
    }

    method FlushEvicted(bp: nat)
      requires bp < nrBufs && Lists(bp, bp) && l2.Valid() && Coherent(buf, M(), contents, NIL) && buf[bp].dev != NO_DEV
      modifies this`buf, this`disk, l2`ram
      ensures Lists(bp, bp) && l2.Valid() && l2.nr == old(l2.nr) && Coherent(buf, M(), contents, NIL)
      ensures !buf[bp].dirty && SameCounts(old(buf), buf) && KeptIdentity(old(buf), buf)
    {
      FlushAll(buf[bp].dev);
      FrameLru(old(buf), buf, front, rear, lru, bp);
      FrameHash(old(buf), buf, bufHash, chains, bp);
    }

    method DropTo2(bp: nat)
      requires bp < nrBufs && Lists(bp, bp) && l2.Valid() && Coherent(buf, M(), contents, NIL)
      requires buf[bp].dev != NO_DEV && !buf[bp].dirty
      modifies l2
      ensures l2.Valid() && l2.nr == old(l2.nr)
      ensures Coherent(Emptied(buf, bp), M(), contents, NIL)
    {
      ghost var m := M();
      l2.Put(buf[bp].dev, buf[bp].blocknr, buf[bp].data);
      DropCoherent(buf, m, contents, bp, Emptied(buf, bp), M());
    }

    /** The new identity of the buffer and its place in the hash table. */
    method Claim(bp: nat, dev: nat, blk: nat)
      requires bp < nrBufs && Lists(bp, bp)
      modifies this`buf, this`bufHash, this`chains
      ensures Lists(NIL, NIL)
      ensures |buf| == |old(buf)| && forall i :: 0 <= i < |buf| && i != bp ==> buf[i] == old(buf)[i]
      ensures AddrOf(buf[bp]) == Addr(dev, blk) && buf[bp].count == old(buf)[bp].count + 1
    {
      var h := blk % nrHash;
      var b2 := buf[bp].(dev := dev, blocknr := blk, count := buf[bp].count + 1, hash := bufHash[h]);
      PrependKeepsChains(buf, bufHash, chains, bp, b2);
      PinLists(buf, front, rear, lru, bp, bp, b2);
      buf := buf[bp := b2];
      bufHash := bufHash[h := bp];
      chains := chains[h := [bp] + chains[h]];
    }

    /** Getting the data of a newly claimed buffer: second level, disk, or not at all. */
    method Fill(bp: nat, mode: Mode, ghost b0: seq<Buf>)
      requires bp < nrBufs && Lists(NIL, NIL) && l2.Valid() && pending == NIL && buf[bp].count > 0
      requires Coherent(b0, M(), contents, NIL) && OthersKept(b0, buf, bp) && b0[bp].dev == NO_DEV
      requires buf[bp].dev != NO_DEV && !Held(b0, AddrOf(buf[bp]))
      modifies this`buf, this`contents, this`pending, l2`nr
      ensures Valid() && l2.nr == (if old(buf)[bp].dev == DEV_RAM then 0 else old(l2.nr))
      ensures contents == if old(buf)[bp].dev == DEV_RAM then Rebased(old(M()), old(contents)) else old(contents)
      ensures forall i :: 0 <= i < |buf| && i != bp ==> buf[i] == old(buf)[i]
      ensures buf[bp].blocknr == old(buf)[bp].blocknr && buf[bp].count == old(buf)[bp].count
      ensures mode == Normal ==> buf[bp].dev == old(buf)[bp].dev && pending == NIL
      ensures mode == Prefetch ==> buf[bp].dev in {NO_DEV, old(buf)[bp].dev} && pending == NIL
      ensures mode == NoRead ==> buf[bp].dev == old(buf)[bp].dev && pending == bp
    {
      var b := Fetch(bp, mode, b0);
      ghost var was := buf;
      buf := buf[bp := b];
      OthersStill(b0, was, buf, bp);
      FillLists(was, bp);
      if mode == NoRead {
        pending := bp;
        ClaimCoherent(b0, M(), contents, bp, buf);
      } else {
        ReplaceCoherent(b0, M(), contents, bp, buf);
      }
    }

    /** What get_block puts into the buffer. */
    method Fetch(bp: nat, mode: Mode, ghost b0: seq<Buf>) returns (b: Buf)
      requires bp < |buf| && l2.Valid() && Coherent(b0, M(), contents, NIL) && buf[bp].dev != NO_DEV
        && !Held(b0, AddrOf(buf[bp]))
      modifies this`contents, l2`nr
      ensures l2.Valid() && Coherent(b0, M(), contents, NIL)
      ensures l2.nr == (if buf[bp].dev == DEV_RAM then 0 else old(l2.nr))
      ensures contents == if buf[bp].dev == DEV_RAM then Rebased(old(M()), old(contents)) else old(contents)
      ensures b == buf[bp].(dev := b.dev, data := b.data, dirty := b.dirty)
      ensures b.dev == buf[bp].dev || (mode == Prefetch && b.dev == NO_DEV)
      ensures mode != NoRead ==> BufferOk(b, M(), contents)
    {
      b := buf[bp];
      var a := AddrOf(b);
      var hit, data := Consult2(a, mode, b0);
      assert AbsentOk(a, M(), contents);
      if hit {
        b := b.(data := data);
      } else if mode == Prefetch {
        b := b.(dev := NO_DEV);
      } else if mode == Normal {
        data := DevRead(a);
        b := b.(data := data, dirty := false);
      }
    }

    /** The call of get_block2; the first block wanted from the RAM disk ends the second level. */
    method Consult2(a: Addr, mode: Mode, ghost b0: seq<Buf>) returns (hit: bool, data: Block)
      requires l2.Valid() && a.dev != NO_DEV && Coherent(b0, M(), contents, NIL)
      modifies this`contents, l2`nr
      ensures l2.Valid() && Coherent(b0, M(), contents, NIL)
      ensures l2.nr == (if a.dev == DEV_RAM then 0 else old(l2.nr))
      ensures contents == if a.dev == DEV_RAM then Rebased(old(M()), old(contents)) else old(contents)
      ensures hit ==> mode != NoRead && L2.Lookup(M().fifo, a.dev, a.blk) == Some(data)
    {
      hit, data := l2.Get(a.dev, a.blk, mode);
      if a.dev == DEV_RAM {
        DisableCoherent(b0, old(M()), contents, M());
        contents := Rebased(old(M()), contents);
      }
    }

    lemma FillLists(b0: seq<Buf>, bp: nat)
      requires bp < nrBufs == |b0| == |buf| && |bufHash| == |chains| == nrHash && bufsInUse == nrBufs - |lru|
      requires LruOk(b0, front, rear, lru, NIL) && HashOk(b0, bufHash, chains, NIL)
      requires SameLru(b0, buf) && SameHash(b0, buf)
      ensures Lists(NIL, NIL)
    {
      FrameLru(b0, buf, front, rear, lru, NIL);
      FrameHash(b0, buf, bufHash, chains, NIL);
    }

    /** One more user of a buffer that is in the cache. */
    method Pin(bp: nat)
      requires Valid() && pending == NIL && bp < nrBufs
      modifies this`buf, this`front, this`rear, this`bufsInUse, this`lru
      ensures Valid() && SameData(old(buf), buf)
      ensures buf[bp].count == old(buf)[bp].count + 1
      ensures forall i :: 0 <= i < |buf| && i != bp ==> buf[i].count == old(buf)[i].count
      ensures if old(buf)[bp].count == 0 then Taken(old(lru), lru, bp) else lru == old(lru)
    {
      ghost var out := NIL;
      if buf[bp].count == 0 {
        RmLru(bp);
        out := bp;
      }
      AddPin(bp, out);
      FrameCoherent(old(buf), M(), contents, pending, buf);
    }

    method AddPin(bp: nat, ghost out: int)
      requires bp < nrBufs && Lists(out, NIL) && if out == NIL then buf[bp].count > 0 else out == bp
      modifies this`buf
      ensures Lists(NIL, NIL) && SameData(old(buf), buf) && buf[bp].count == old(buf)[bp].count + 1
      ensures forall i :: 0 <= i < |buf| && i != bp ==> buf[i].count == old(buf)[i].count
    {
      PinStep(buf, front, rear, lru, bufHash, chains, out, bp);
      buf := buf[bp := buf[bp].(count := buf[bp].count + 1)];
    }

    /** get_block: NIL stands for the panic when all buffers are in use. */
    method GetBlock(dev: nat, blk: nat, mode: Mode) returns (bp: int)
      requires Valid() && pending == NIL
      modifies this, l2
      ensures Valid()
      ensures bp == NIL <==> old(front == NIL && (dev == NO_DEV || !Held(buf, Addr(dev, blk))))
      ensures bp == NIL ==> buf == old(buf) && contents == old(contents) && pending == NIL && l2.nr == old(l2.nr)
      ensures bp == NIL ==> forall i :: 0 <= i < nrBufs ==> buf[i].count > 0
      ensures PinsKept(old(buf)) && ContentsKept(old(contents), old(l2.nr))
      ensures l2.nr == if dev == DEV_RAM && bp != NIL then 0 else old(l2.nr)
      ensures bp != NIL ==> Got(old(buf), buf, bp, Addr(dev, blk), mode, contents, pending)
      ensures forall i :: 0 <= i < nrBufs && i != bp ==> buf[i].count == old(buf)[i].count
      ensures OnlyAdds(old(buf), buf, Addr(dev, blk))
      ensures bp != NIL ==> if old(buf)[bp].count == 0 then Taken(old(lru), lru, bp) else lru == old(lru)
      ensures bp != NIL && (dev == NO_DEV || !old(Held(buf, Addr(dev, blk)))) ==> bp == old(front)
    {
      if dev != NO_DEV {
        bp := Find(dev, blk);
        if bp != NIL {
          Pin(bp);
          assert BufferOk(buf[bp], M(), contents);
          return;
        }
      }
      if front == NIL { return NIL; }
      bp := Load(dev, blk, mode);
      LoadedGot(old(buf), buf, bp, Addr(dev, blk), mode, contents, pending);
    }

    /** get_block on a miss. */
    method Load(dev: nat, blk: nat, mode: Mode) returns (bp: nat)
      requires Valid() && pending == NIL && front != NIL
      requires dev != NO_DEV ==> !Held(buf, Addr(dev, blk))
      modifies this, l2
      ensures Valid() && bp < nrBufs
      ensures Loaded(old(buf), buf, bp, Addr(dev, blk), mode, contents, pending)
      ensures ContentsKept(old(contents), old(l2.nr)) && l2.nr == if dev == DEV_RAM then 0 else old(l2.nr)
      ensures bp == old(front) && Taken(old(lru), lru, bp)
    {
      ghost var b1;
      bp, b1 := TakeOver(dev, blk);
      Supply(bp, dev, blk, mode, old(buf), b1);
    }

    /** The least recently used buffer gets a new identity; b1 is the cache without it. */
    method TakeOver(dev: nat, blk: nat) returns (bp: nat, ghost b1: seq<Buf>)
      requires Valid() && pending == NIL && front != NIL && (dev != NO_DEV ==> !Held(buf, Addr(dev, blk)))
      modifies this`buf, this`bufHash, this`front, this`rear, this`bufsInUse, this`lru, this`chains, this`disk, l2
      ensures Lists(NIL, NIL) && l2.Valid() && l2.nr == old(l2.nr) && bp < nrBufs && buf[bp].count == 1
      ensures Coherent(b1, M(), contents, NIL) && Claimed(old(buf), b1, buf, bp, Addr(dev, blk))
      ensures bp == old(front) && Taken(old(lru), lru, bp)
    {
      ghost var b0 := buf;
      bp := Evict();
      b1 := Emptied(buf, bp);
      Rename(bp, dev, blk, b0);
    }

    /** The evicted buffer is claimed for another block. */
    method Rename(bp: nat, dev: nat, blk: nat, ghost b0: seq<Buf>)
      requires bp < nrBufs && Lists(bp, bp) && Evicted(b0, buf, bp)
      modifies this`buf, this`bufHash, this`chains
      requires dev != NO_DEV ==> !Held(b0, Addr(dev, blk))
      ensures Lists(NIL, NIL) && buf[bp].count == 1
      ensures Claimed(b0, Emptied(old(buf), bp), buf, bp, Addr(dev, blk))
    {
      ghost var bE := buf;
      Claim(bp, dev, blk);
      ClaimReady(b0, bE, buf, bp, Addr(dev, blk));
    }

    /** The last part of get_block: the data of the buffer that has just been claimed. */
    method Supply(bp: nat, dev: nat, blk: nat, mode: Mode, ghost b0: seq<Buf>, ghost b1: seq<Buf>)
      requires Lists(NIL, NIL) && l2.Valid() && pending == NIL
      requires Coherent(b1, M(), contents, NIL) && Claimed(b0, b1, buf, bp, Addr(dev, blk))
      modifies this`buf, this`contents, this`pending, l2`nr
      ensures Valid() && Loaded(b0, buf, bp, Addr(dev, blk), mode, contents, pending)
      ensures ContentsKept(old(contents), old(l2.nr)) && l2.nr == if dev == DEV_RAM then 0 else old(l2.nr)
    {
      ghost var bC := buf;
      if dev != NO_DEV {
        Fill(bp, mode, b1);
        assert mode != NoRead ==> BufferOk(buf[bp], M(), contents);
      } else {
        ReplaceCoherent(b1, M(), contents, bp, buf);
      }
      LoadReplaced(b0, bC, buf, bp);
    }

    // ---------- put_block and the users of a buffer ----------

    /** rw_block in the writing direction. */
    method WriteBlock(bp: nat)
      requires Valid() && pending == NIL && bp < nrBufs && buf[bp].dev != NO_DEV
      modifies this`buf, this`disk, l2`ram
      ensures Valid() && KeptIdentity(old(buf), buf) && SameCounts(old(buf), buf) && !buf[bp].dirty
        && l2.nr == old(l2.nr)
    {
      WriteOut(bp, AddrOf(buf[bp]), buf, M(), {});
      WrittenCoherent(old(buf), old(M()), buf, M(), {} + {bp}, contents);
      FillLists(old(buf), bp);
    }

    /** put_block; oneShot and writeImmed are the bits of block_type. */
    method PutBlock(bp: int, oneShot: bool, writeImmed: bool)
      requires Valid() && pending == NIL
      requires bp != NIL ==> 0 <= bp < nrBufs && buf[bp].count > 0
      modifies this`buf, this`front, this`rear, this`bufsInUse, this`lru, this`disk, l2`ram
      ensures Valid() && KeptIdentity(old(buf), buf) && l2.nr == old(l2.nr)
      ensures forall i :: 0 <= i < nrBufs ==> buf[i].count == old(buf)[i].count - if i == bp then 1 else 0
      ensures lru == if bp == NIL then old(lru) else Relinked(old(lru), old(buf)[bp], bp, oneShot)
      ensures bp != NIL && old(buf)[bp].count == 1 && writeImmed && buf[bp].dev != NO_DEV ==> !buf[bp].dirty
    {
      if bp == NIL { return; }
      Release(bp, oneShot);
      if buf[bp].count != 0 { return; }
      if writeImmed && buf[bp].dirty && buf[bp].dev != NO_DEV { WriteBlock(bp); }
    }

    /** Dropping one pin, and relinking the buffer if it was the last. */
    method Release(bp: nat, oneShot: bool)
      requires Valid() && pending == NIL && bp < nrBufs && buf[bp].count > 0
      modifies this`buf, this`front, this`rear, this`bufsInUse, this`lru
      ensures Valid() && SameData(old(buf), buf)
      ensures forall i :: 0 <= i < nrBufs ==> buf[i].count == old(buf)[i].count - if i == bp then 1 else 0
      ensures lru == Relinked(old(lru), old(buf)[bp], bp, oneShot)
    {
      if buf[bp].count > 1 {
        UnpinStep(buf, front, rear, lru, bufHash, chains, bp);
        buf := buf[bp := buf[bp].(count := buf[bp].count - 1)];
        FrameCoherent(old(buf), M(), contents, pending, buf);
      } else {
        if oneShot { RelinkFront(bp); } else { RelinkRear(bp); }
        FrameCoherent(old(buf), M(), contents, pending, buf);
      }
    }

    /** Putting a buffer back in front of the LRU list. */
    method RelinkFront(bp: nat)
      requires Lists(NIL, NIL) && bp < nrBufs && buf[bp].count == 1
      modifies this`buf, this`front, this`rear, this`bufsInUse, this`lru
      ensures Lists(NIL, NIL) && SameData(old(buf), buf) && lru == [bp] + old(lru)
      ensures SameCounts(old(buf)[bp := old(buf)[bp].(count := 0)], buf)
    {
      PutFrontStep(buf, front, rear, lru, bufHash, chains, bp);
      buf := buf[bp := buf[bp].(count := 0)];
      bufsInUse := bufsInUse - 1;
      buf := LinkedFront(buf, front, bp);
      if front == NIL { rear := bp; }
      front := bp;
      lru := [bp] + lru;
    }

    /** Putting a buffer back at the rear of the LRU list. */
    method RelinkRear(bp: nat)
      requires Lists(NIL, NIL) && bp < nrBufs && buf[bp].count == 1
      modifies this`buf, this`front, this`rear, this`bufsInUse, this`lru
      ensures Lists(NIL, NIL) && SameData(old(buf), buf) && lru == old(lru) + [bp]
      ensures SameCounts(old(buf)[bp := old(buf)[bp].(count := 0)], buf)
    {
      PutRearStep(buf, front, rear, lru, bufHash, chains, bp);
      buf := buf[bp := buf[bp].(count := 0)];
      bufsInUse := bufsInUse - 1;
      buf := LinkedRear(buf, rear, bp);
      if rear == NIL { front := bp; }
      rear := bp;
      lru := lru + [bp];
    }

    /** What a user of the cache does to a buffer it holds: overwrite it and mark it dirty. */
    method Modify(bp: nat, data: Block)
      requires Valid() && bp < nrBufs && buf[bp].count > 0 && pending in {NIL, bp}
      modifies this`buf, this`contents, this`pending
      ensures Valid() && pending == NIL
      ensures buf == old(buf)[bp := old(buf)[bp].(data := data, dirty := true)]
      ensures contents == if buf[bp].dev == NO_DEV then old(contents) else old(contents)[AddrOf(buf[bp]) := data]
    {
      ModifyCoherent(buf, M(), contents, pending, bp, data);
      if buf[bp].dev != NO_DEV { contents := contents[AddrOf(buf[bp]) := data]; }
      buf := buf[bp := buf[bp].(data := data, dirty := true)];
      pending := NIL;
      FillLists(old(buf), bp);
    }

    /** flushall on a cache in use. */
    method Flush(dev: nat)
      requires Valid() && pending == NIL && dev != NO_DEV
      modifies this`buf, this`disk, l2`ram
      ensures Valid() && KeptIdentity(old(buf), buf) && SameCounts(old(buf), buf) && l2.nr == old(l2.nr)
      ensures forall i :: 0 <= i < nrBufs && buf[i].dev == dev ==> !buf[i].dirty
      ensures forall a: Addr :: a.dev == dev && Visible(M(), a) ==> Medium(M(), a) == contents[a]
    {
      FlushAll(dev);
      FrameLru(old(buf), buf, front, rear, lru, NIL);
      FrameHash(old(buf), buf, bufHash, chains, NIL);
      forall a: Addr | a.dev == dev && Visible(M(), a) ensures Medium(M(), a) == contents[a] {
        if i :| 0 <= i < |buf| && AddrOf(buf[i]) == a {
          assert BufferOk(buf[i], M(), contents);
        } else {
          assert AbsentOk(a, M(), contents);
        }
      }
    }

    /** invalidate: only what has not been written back is lost. */
    method Invalidate(device: nat)
      requires Valid() && pending == NIL && device != NO_DEV
      modifies this`buf, this`contents, l2
      ensures contents == Purged(old(M()), old(contents), device)
      ensures contents == old(contents) <==>
        forall i ::
          0 <= i < nrBufs && old(buf)[i].dev == device && old(buf)[i].dirty ==>
          old(buf)[i].data == Medium(old(M()), AddrOf(old(buf)[i]))
      ensures Valid() && SameCounts(old(buf), buf) && l2.nr == old(l2.nr)
      ensures forall i :: 0 <= i < nrBufs ==>
        buf[i] == if old(buf)[i].dev == device then old(buf)[i].(dev := NO_DEV) else old(buf)[i]
    {
      var i := 0;
      while i < |buf|
        modifies this`buf
        invariant 0 <= i <= |buf| == nrBufs
        invariant forall j :: 0 <= j < nrBufs ==>
          buf[j] == if j < i && old(buf)[j].dev == device then old(buf)[j].(dev := NO_DEV) else old(buf)[j]
      {
        if buf[i].dev == device { buf := buf[i := buf[i].(dev := NO_DEV)]; }
        i := i + 1;
      }
      l2.Invalidate(device);
      PurgeCoherent(old(buf), old(M()), contents, device, buf, M());
      PurgedSame(old(buf), old(M()), contents, device);
      contents := Purged(old(M()), contents, device);
      FrameLru(old(buf), buf, front, rear, lru, NIL);
      FrameHash(old(buf), buf, bufHash, chains, NIL);
    }
  }

  /** No block but a has come into the cache. */
  ghost predicate OnlyAdds(b0: seq<Buf>, b1: seq<Buf>, a: Addr) {
    |b0| == |b1| && forall i :: 0 <= i < |b1| && b1[i].dev != NO_DEV ==>
      AddrOf(b1[i]) == a || Held(b0, AddrOf(b1[i]))
  }

  /** A free buffer has a new identity and one pin; the others have kept theirs, and their data if they are in use. */
  ghost predicate Replaced(b0: seq<Buf>, b1: seq<Buf>, bp: nat) {
    true == (
      && bp < |b0| == |b1| && b0[bp].count == 0
      && (forall i ::
        0 <= i < |b0| && i != bp ==>
        b1[i].count == b0[i].count && AddrOf(b1[i]) == AddrOf(b0[i]) && b1[i].data == b0[i].data))
  }

  /** The cache without the buffer. */
  ghost function Emptied(buf: seq<Buf>, bp: nat): seq<Buf>
    requires bp < |buf|
  {
    buf[bp := buf[bp].(dev := NO_DEV)]
  }

  /** A free buffer is off the lists; a flush may have made others clean. */
  ghost predicate Evicted(b0: seq<Buf>, b1: seq<Buf>, bp: nat) {
    true == (bp < |b0| && b0[bp].count == 0 && SameCounts(b0, b1) && KeptIdentity(b0, b1))
  }

  /** The buffer is claimed for a; b1 is the cache without it. */
  ghost predicate Claimed(b0: seq<Buf>, b1: seq<Buf>, b2: seq<Buf>, bp: nat, a: Addr) {
    true == (
      && Replaced(b0, b2, bp) && OthersKept(b1, b2, bp) && b2[bp].count == 1 && AddrOf(b2[bp]) == a
      && b1[bp].dev == NO_DEV && (a.dev != NO_DEV ==> !Held(b1, a)))
  }

  /** What get_block has made of the buffer on a miss. */
  ghost predicate Loaded(b0: seq<Buf>, b1: seq<Buf>, bp: nat, a: Addr, mode: Mode, contents: imap<Addr, Block>,
                         pending: int) {
    true == (
      && Replaced(b0, b1, bp) && b1[bp].count == 1 && b1[bp].blocknr == a.blk
      && (b1[bp].dev == a.dev || (mode == Prefetch && b1[bp].dev == NO_DEV))
      && (b1[bp].dev != NO_DEV && mode != NoRead ==> a in contents && b1[bp].data == contents[a])
      && pending == if mode == NoRead && a.dev != NO_DEV then bp else NIL)
  }

  /** What get_block promises of the buffer it returns; prefetching may leave it without a device, to be filled. */
  ghost predicate Got(b0: seq<Buf>, b1: seq<Buf>, bp: int, a: Addr, mode: Mode, contents: imap<Addr, Block>,
                      pending: int) {
    true == (
      && 0 <= bp < |b0| == |b1| && b1[bp].blocknr == a.blk && b1[bp].count == b0[bp].count + 1
      && (pending == NIL || (mode == NoRead && pending == bp && a.dev != NO_DEV))
      && (b1[bp].dev == a.dev || (mode == Prefetch && b1[bp].dev == NO_DEV && b0[bp].count == 0 && !Held(b1, a)))
      && (b1[bp].dev != NO_DEV && mode != NoRead ==> a in contents && b1[bp].data == contents[a]))
  }

  lemma LoadedGot(b0: seq<Buf>, b1: seq<Buf>, bp: nat, a: Addr, mode: Mode, contents: imap<Addr, Block>, pending: int)
    requires Loaded(b0, b1, bp, a, mode, contents, pending) && (a.dev != NO_DEV ==> !Held(b0, a))
    ensures Got(b0, b1, bp, a, mode, contents, pending)
  {
    if b1[bp].dev == NO_DEV && a.dev != NO_DEV {
      forall i | 0 <= i < |b1| ensures AddrOf(b1[i]) != a {
        if i != bp { assert AddrOf(b1[i]) == AddrOf(b0[i]); }
      }
    }
  }

  lemma OthersStill(b0: seq<Buf>, b1: seq<Buf>, b2: seq<Buf>, bp: nat)
    requires OthersKept(b0, b1, bp) && |b2| == |b1| && b2 == b1[bp := b2[bp]]
    requires b2[bp] == b1[bp].(dev := b2[bp].dev, data := b2[bp].data, dirty := b2[bp].dirty)
    ensures OthersKept(b0, b2, bp) && SameLru(b1, b2) && SameHash(b1, b2)
  {
  }

  lemma ClaimReady(b0: seq<Buf>, bE: seq<Buf>, bC: seq<Buf>, bp: nat, a: Addr)
    requires Evicted(b0, bE, bp) && |bC| == |bE|
    requires AddrOf(bC[bp]) == a && bC[bp].count == 1 && (a.dev != NO_DEV ==> !Held(b0, a))
    requires forall i :: 0 <= i < |bE| && i != bp ==> bC[i] == bE[i]
    ensures Claimed(b0, Emptied(bE, bp), bC, bp, a)
  {
    var b1 := Emptied(bE, bp);
    if a.dev != NO_DEV {
      forall i | 0 <= i < |b1| ensures AddrOf(b1[i]) != a {
        if i != bp { assert AddrOf(b1[i]) == AddrOf(b0[i]); }
      }
    }
  }

  lemma LoadReplaced(b0: seq<Buf>, bC: seq<Buf>, b3: seq<Buf>, bp: nat)
    requires Replaced(b0, bC, bp) && |b3| == |bC| && forall i :: 0 <= i < |bC| && i != bp ==> b3[i] == bC[i]
    ensures Replaced(b0, b3, bp)
  {
  }

  /** A buffer has been taken off the LRU list. */
  ghost predicate Taken(l0: seq<nat>, l1: seq<nat>, bp: int) {
    exists k: nat :: k < |l0| && l0[k] == bp && l1 == Without(l0, k)
  }

  /**
   A buffer in use once goes back to the front, to be taken next, or to the rear; one in use more
   often stays off the list.
   */
  ghost function Relinked(lru: seq<nat>, b: Buf, bp: nat, oneShot: bool): seq<nat> {
    if b.count > 1 then lru else if oneShot then [bp] + lru else lru + [bp]
  }

  /** The dirty buffers of a device. */
  ghost function DirtyOn(buf: seq<Buf>, dev: nat): set<nat> {
    set i: nat | i < |buf| && buf[i].dirty && buf[i].dev == dev
  }

  ghost predicate KeptIdentity(b0: seq<Buf>, b1: seq<Buf>) {
    true == (|b0| == |b1| && forall i :: 0 <= i < |b0| ==> AddrOf(b1[i]) == AddrOf(b0[i]) && b1[i].data == b0[i].data)
  }

  /** The initial lists of buf_pool are well formed. */
  lemma PoolLists(n: nat, hashes: nat, pool: seq<Buf>, all: seq<nat>, heads: seq<int>, chains: seq<seq<nat>>)
    requires n > 0 && hashes > 0 && |pool| == |all| == n && |heads| == |chains| == hashes
    requires forall i :: 0 <= i < n ==> all[i] == i && pool[i].blocknr == NO_BLOCK && pool[i].count == 0
    requires forall i :: 0 <= i < n ==> pool[i].next == pool[i].hash == if i == n - 1 then NIL else i + 1
    requires forall i :: 0 <= i < n ==> pool[i].prev == i - 1
    requires forall h ::
      0 <= h < hashes ==> heads[h] == (if h == 0 then 0 else NIL) && chains[h] == if h == 0 then all else []
    ensures LruOk(pool, 0, n - 1, all, NIL) && HashOk(pool, heads, chains, NIL)
  {
    forall i | 0 <= i < n ensures i in all { assert all[i] == i; }
    assert NO_BLOCK % hashes == 0 by { assert NO_BLOCK == hashes * 0; }
    forall h | 0 <= h < hashes ensures ChainOk(pool, heads[h], chains[h]) {}
    forall h, i | 0 <= h < hashes && 0 <= i < n ensures Placed(pool, chains, h, i, NIL) {}
  }

  /** Nothing is cached at first. */
  lemma PoolCoherent(pool: seq<Buf>, m: Media, contents: imap<Addr, Block>)
    requires forall i :: 0 <= i < |pool| ==> pool[i].dev == NO_DEV
    requires |m.fifo| == m.nr && Total(m, contents) && forall a: Addr :: contents[a] == Medium(m, a)
    requires forall dev, blk :: dev != NO_DEV ==> L2.Lookup(m.fifo, dev, blk) == None
    ensures Coherent(pool, m, contents, NIL)
  {
    forall a: Addr ensures AbsentOk(a, m, contents) {}
  }

  /** The first i buffers of the queue have been written. */
  ghost predicate Writing(b0: seq<Buf>, m0: Media, b1: seq<Buf>, m1: Media, run: seq<nat>, i: nat) {
    true == (i <= |run| && Written(b0, m0, b1, m1, Elements(run[..i])))
  }

  ghost function Elements(s: seq<nat>): set<nat> { set x | x in s }

  lemma ElementsStep(s: seq<nat>, k: nat)
    requires k < |s|
    ensures Elements(s[..k + 1]) == Elements(s[..k]) + {s[k]}
  {
    assert s[..k + 1] == s[..k] + [s[k]];
  }

  lemma SameQueue(s: seq<nat>, t: seq<nat>)
    requires multiset(s) == multiset(t)
    ensures |s| == |t| && Elements(s) == Elements(t)
  {
    assert |multiset(s)| == |s| && |multiset(t)| == |t|;
    assert forall x :: x in s <==> x in multiset(s);
    assert forall x :: x in t <==> x in multiset(t);
  }
}
