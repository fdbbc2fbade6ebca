/**
 The shape of the primary block cache: the doubly linked LRU list of free
 buffers and the singly linked hash chains, with the list surgery of cache.c
 stated on values.  `out` names a buffer that is temporarily on neither.
 */
module CacheLinks {
  import opened Base
  import opened Lists

  datatype Buf = Buf(data: Block, next: int, prev: int, hash: int, blocknr: nat, dev: nat, dirty: bool, count: nat)

  ghost predicate LinkAt(buf: seq<Buf>, lru: seq<nat>, k: nat)
    requires InRange(lru, |buf|) && k < |lru|
  {
    buf[lru[k]].next == At(lru, k + 1) && buf[lru[k]].prev == At(lru, k - 1)
  }

  ghost predicate HashAt(buf: seq<Buf>, chain: seq<nat>, k: nat)
    requires InRange(chain, |buf|) && k < |chain|
  {
    buf[chain[k]].hash == At(chain, k + 1)
  }

  /** The LRU list is a well-formed double chain of exactly the buffers with count 0. */
  ghost predicate LruOk(buf: seq<Buf>, front: int, rear: int, lru: seq<nat>, out: int) {
    && InRange(lru, |buf|) && Distinct(lru)
    && front == At(lru, 0) && rear == At(lru, |lru| - 1)
    && (forall k :: 0 <= k < |lru| ==> LinkAt(buf, lru, k))
    && (forall i :: 0 <= i < |buf| ==> (i in lru <==> buf[i].count == 0 && i != out))
  }

  ghost predicate ChainOk(buf: seq<Buf>, head: int, chain: seq<nat>) {
    && InRange(chain, |buf|) && Distinct(chain)
    && head == At(chain, 0)
    && (forall k :: 0 <= k < |chain| ==> HashAt(buf, chain, k))
  }

  /** Buffer i is on chain h exactly when its block number hashes to h. */
  ghost predicate Placed(buf: seq<Buf>, chains: seq<seq<nat>>, h: nat, i: nat, out: int)
    requires h < |chains| && i < |buf|
  {
    i in chains[h] <==> i != out && buf[i].blocknr % |chains| == h
  }

  /** The hash chains partition the buffers by block number. */
  ghost predicate HashOk(buf: seq<Buf>, heads: seq<int>, chains: seq<seq<nat>>, out: int) {
    && |heads| == |chains| > 0
    && (forall h :: 0 <= h < |chains| ==> ChainOk(buf, heads[h], chains[h]))
    && (forall h, i :: 0 <= h < |chains| && 0 <= i < |buf| ==> Placed(buf, chains, h, i, out))
  }

  // ---------- rm_lru ----------

  /** The pointer updates of rm_lru on the buffer table. */
  function Unlinked(buf: seq<Buf>, bp: nat): (r: seq<Buf>)
    requires bp < |buf| && (buf[bp].prev != NIL ==> 0 <= buf[bp].prev < |buf|)
    requires buf[bp].next != NIL ==> 0 <= buf[bp].next < |buf|
    ensures |r| == |buf|
    ensures forall i :: 0 <= i < |buf| ==> r[i] == buf[i].(
      next := if i == buf[bp].prev then buf[bp].next else buf[i].next,
      prev := if i == buf[bp].next then buf[bp].prev else buf[i].prev)
  {
    var n, p := buf[bp].next, buf[bp].prev;
    var b1 := if p != NIL then buf[p := buf[p].(next := n)] else buf;
    if n != NIL then b1[n := b1[n].(prev := p)] else b1
  }

  lemma UnlinkedAt(buf: seq<Buf>, lru: seq<nat>, k: nat, j: nat)
    requires InRange(lru, |buf|) && Distinct(lru) && k < |lru| && j < |lru| - 1
    requires LinkAt(buf, lru, k) && LinkAt(buf, lru, if j < k then j else j + 1)
    ensures InRange(Without(lru, k), |buf|) && LinkAt(Unlinked(buf, lru[k]), Without(lru, k), j)
  {
    var bp := lru[k];
    var o := if j < k then j else j + 1;
    assert Without(lru, k)[j] == lru[o];
    assert (lru[o] == buf[bp].prev) == (o == k - 1);
    assert (lru[o] == buf[bp].next) == (o == k + 1);
  }

  /** Unlinking a free buffer leaves a well-formed list without it. */
  lemma UnlinkKeepsList(buf: seq<Buf>, front: int, rear: int, lru: seq<nat>, k: nat)
    requires LruOk(buf, front, rear, lru, NIL) && k < |lru|
    ensures var bp := lru[k];
      && LinkAt(buf, lru, k)
      && LruOk(Unlinked(buf, bp),
        if buf[bp].prev != NIL then front else buf[bp].next,
        if buf[bp].next != NIL then rear else buf[bp].prev, Without(lru, k), bp)
      && SameHash(buf, Unlinked(buf, bp)) && SameData(buf, Unlinked(buf, bp))
  {
    var l2 := Without(lru, k);
    WithoutMembers(lru, k);
    assert LinkAt(buf, lru, k);
    UnlinkedEnds(buf, front, rear, lru, k);
    forall j | 0 <= j < |l2| ensures LinkAt(Unlinked(buf, lru[k]), l2, j) {
      assert LinkAt(buf, lru, if j < k then j else j + 1);
      UnlinkedAt(buf, lru, k, j);
    }
  }

  /** The ends of the list after one buffer has gone. */
  lemma UnlinkedEnds(buf: seq<Buf>, front: int, rear: int, lru: seq<nat>, k: nat)
    requires InRange(lru, |buf|) && k < |lru| && LinkAt(buf, lru, k) && front == At(lru, 0)
      && rear == At(lru, |lru| - 1)
    ensures var bp, l := lru[k], Without(lru, k);
      && (if buf[bp].prev != NIL then front else buf[bp].next) == At(l, 0)
      && (if buf[bp].next != NIL then rear else buf[bp].prev) == At(l, |l| - 1)
  {
  }

  ghost predicate SameCounts(b0: seq<Buf>, b1: seq<Buf>) {
    // "true ==" makes this one fact to prove, not one for each part.
    true == (|b0| == |b1| && forall i :: 0 <= i < |b0| ==> b1[i].count == b0[i].count)
  }

  /** rm_lru as a whole: the list loses one free buffer and the hash chains are untouched. */
  lemma RmLruStep(buf: seq<Buf>, front: int, rear: int, lru: seq<nat>, heads: seq<int>, chains: seq<seq<nat>>, k: nat,
                  bp: nat)
    requires LruOk(buf, front, rear, lru, NIL) && HashOk(buf, heads, chains, NIL) && k < |lru| && lru[k] == bp < |buf|
    ensures
      && (buf[bp].prev != NIL ==> 0 <= buf[bp].prev < |buf|)
      && (buf[bp].next != NIL ==> 0 <= buf[bp].next < |buf|)
      && LruOk(Unlinked(buf, bp), if buf[bp].prev != NIL then front else buf[bp].next,
        if buf[bp].next != NIL then rear else buf[bp].prev, Without(lru, k), bp)
      && HashOk(Unlinked(buf, bp), heads, chains, NIL)
      && SameHash(buf, Unlinked(buf, bp)) && SameData(buf, Unlinked(buf, bp)) && SameCounts(buf, Unlinked(buf, bp))
  {
    UnlinkKeepsList(buf, front, rear, lru, k);
    FrameHash(buf, Unlinked(buf, bp), heads, chains, NIL);
  }

  // ---------- put_block ----------

  function LinkedFront(buf: seq<Buf>, front: int, bp: nat): (r: seq<Buf>)
    requires bp < |buf| && (front != NIL ==> 0 <= front < |buf|) && front != bp
    ensures |r| == |buf|
    ensures forall i :: 0 <= i < |buf| ==> r[i] == buf[i].(
      next := if i == bp then front else buf[i].next,
      prev := if i == bp then NIL else if i == front then bp else buf[i].prev)
  {
    var b1 := buf[bp := buf[bp].(prev := NIL, next := front)];
    if front == NIL then b1 else b1[front := b1[front].(prev := bp)]
  }

  function LinkedRear(buf: seq<Buf>, rear: int, bp: nat): (r: seq<Buf>)
    requires bp < |buf| && (rear != NIL ==> 0 <= rear < |buf|) && rear != bp
    ensures |r| == |buf|
    ensures forall i :: 0 <= i < |buf| ==> r[i] == buf[i].(
      next := if i == bp then NIL else if i == rear then bp else buf[i].next,
      prev := if i == bp then rear else buf[i].prev)
  {
    var b1 := buf[bp := buf[bp].(prev := rear, next := NIL)];
    if rear == NIL then b1 else b1[rear := b1[rear].(next := bp)]
  }

  lemma LinkFrontKeepsList(buf: seq<Buf>, front: int, rear: int, lru: seq<nat>, bp: nat)
    requires LruOk(buf, front, rear, lru, bp) && bp < |buf| && buf[bp].count == 0
    ensures (front != NIL ==> 0 <= front < |buf|) && front != bp
    ensures LruOk(LinkedFront(buf, front, bp), bp, if front == NIL then bp else rear, [bp] + lru, NIL)
  {
    var l2 := [bp] + lru;
    var b2 := LinkedFront(buf, front, bp);
    forall j | 0 <= j < |l2| ensures LinkAt(b2, l2, j) {
      if j > 0 {
        assert l2[j] == lru[j - 1] && LinkAt(buf, lru, j - 1);
        assert (lru[j - 1] == front) == (j == 1);
      }
    }
  }

  lemma LinkRearKeepsList(buf: seq<Buf>, front: int, rear: int, lru: seq<nat>, bp: nat)
    requires LruOk(buf, front, rear, lru, bp) && bp < |buf| && buf[bp].count == 0
    ensures (rear != NIL ==> 0 <= rear < |buf|) && rear != bp
    ensures LruOk(LinkedRear(buf, rear, bp), if rear == NIL then bp else front, bp, lru + [bp], NIL)
  {
    var l2 := lru + [bp];
    var b2 := LinkedRear(buf, rear, bp);
    forall j | 0 <= j < |l2| ensures LinkAt(b2, l2, j) {
      if j < |lru| {
        assert l2[j] == lru[j] && LinkAt(buf, lru, j);
        assert (lru[j] == rear) == (j == |lru| - 1);
      }
    }
  }

  // ---------- hash chains ----------

  /** Splicing element k out of its chain. */
  lemma SpliceKeepsChains(buf: seq<Buf>, heads: seq<int>, chains: seq<seq<nat>>, bp: nat, h: nat, k: nat,
                          buf2: seq<Buf>, heads2: seq<int>)
    requires HashOk(buf, heads, chains, NIL) && bp < |buf| && h < |chains| && k < |chains[h]| && chains[h][k] == bp
    requires k == 0 ==> buf2 == buf && heads2 == heads[h := buf[bp].hash]
    requires k > 0 ==> heads2 == heads && buf2 == buf[chains[h][k - 1] := buf[chains[h][k - 1]].(hash := buf[bp].hash)]
    ensures HashOk(buf2, heads2, chains[h := Without(chains[h], k)], bp)
  {
    var c2 := Without(chains[h], k);
    WithoutMembers(chains[h], k);
    var chains2 := chains[h := c2];
    assert HashAt(buf, chains[h], k) && Placed(buf, chains, h, bp, NIL);
    forall j | 0 <= j < |c2| ensures HashAt(buf2, c2, j) {
      var o := if j < k then j else j + 1;
      assert c2[j] == chains[h][o] && HashAt(buf, chains[h], o);
    }
    forall g | 0 <= g < |chains2| && g != h ensures ChainOk(buf2, heads2[g], chains2[g]) {
      assert ChainOk(buf, heads[g], chains[g]);
      forall j | 0 <= j < |chains[g]| ensures HashAt(buf2, chains[g], j) {
        assert HashAt(buf, chains[g], j);
        assert Placed(buf, chains, g, chains[g][j], NIL) && Placed(buf, chains, h, chains[g][j], NIL);
      }
    }
    forall g, i | 0 <= g < |chains2| && 0 <= i < |buf2|
      ensures Placed(buf2, chains2, g, i, bp) {
      assert Placed(buf, chains, g, i, NIL);
    }
  }

  /** Adding the buffer at the head of the chain of its new block number. */
  lemma PrependKeepsChains(buf: seq<Buf>, heads: seq<int>, chains: seq<seq<nat>>, bp: nat, b2: Buf)
    requires HashOk(buf, heads, chains, bp) && bp < |buf|
    requires b2.hash == heads[b2.blocknr % |chains|]
    ensures var h := b2.blocknr % |chains|;
      HashOk(buf[bp := b2], heads[h := bp], chains[h := [bp] + chains[h]], NIL)
  {
    var h := b2.blocknr % |chains|;
    var buf2, heads2, chains2 := buf[bp := b2], heads[h := bp], chains[h := [bp] + chains[h]];
    forall g | 0 <= g < |chains| ensures ChainOk(buf2, heads2[g], chains2[g]) {
      assert ChainOk(buf, heads[g], chains[g]);
      assert Placed(buf, chains, g, bp, bp);
      forall j | 0 <= j < |chains2[g]| ensures HashAt(buf2, chains2[g], j) {
        if g == h && j > 0 {
          assert chains2[g][j] == chains[g][j - 1] && HashAt(buf, chains[g], j - 1);
        } else if g != h {
          assert HashAt(buf, chains[g], j);
        }
      }
    }
    forall g, i | 0 <= g < |chains2| && 0 <= i < |buf2|
      ensures Placed(buf2, chains2, g, i, NIL) {
      assert Placed(buf, chains, g, i, bp);
    }
  }

  // ---------- frames ----------

  ghost predicate SameLru(b0: seq<Buf>, b1: seq<Buf>) {
    true == (|b0| == |b1| && forall i :: 0 <= i < |b0| ==>
      b1[i].next == b0[i].next && b1[i].prev == b0[i].prev && b1[i].count == b0[i].count)
  }

  ghost predicate SameHash(b0: seq<Buf>, b1: seq<Buf>) {
    true == (|b0| == |b1| && forall i :: 0 <= i < |b0| ==> b1[i].hash == b0[i].hash && b1[i].blocknr == b0[i].blocknr)
  }

  /** Everything but the list pointers and the pin count. */
  ghost predicate SameData(b0: seq<Buf>, b1: seq<Buf>) {
    true == (|b0| == |b1| && forall i :: 0 <= i < |b0| ==>
      b1[i].data == b0[i].data && b1[i].blocknr == b0[i].blocknr && b1[i].dev == b0[i].dev
        && b1[i].dirty == b0[i].dirty)
  }

  lemma FrameLru(b0: seq<Buf>, b1: seq<Buf>, front: int, rear: int, lru: seq<nat>, out: int)
    requires LruOk(b0, front, rear, lru, out) && SameLru(b0, b1)
    ensures LruOk(b1, front, rear, lru, out)
  {
    forall k | 0 <= k < |lru| ensures LinkAt(b1, lru, k) {
      assert LinkAt(b0, lru, k);
    }
  }

  lemma FrameHash(b0: seq<Buf>, b1: seq<Buf>, heads: seq<int>, chains: seq<seq<nat>>, out: int)
    requires HashOk(b0, heads, chains, out) && SameHash(b0, b1)
    ensures HashOk(b1, heads, chains, out)
  {
    forall h | 0 <= h < |chains| ensures ChainOk(b1, heads[h], chains[h]) {
      assert ChainOk(b0, heads[h], chains[h]);
      forall k | 0 <= k < |chains[h]| ensures HashAt(b1, chains[h], k) {
        assert HashAt(b0, chains[h], k);
      }
    }
    forall h, i | 0 <= h < |chains| && 0 <= i < |b1|
      ensures Placed(b1, chains, h, i, out) {
      assert Placed(b0, chains, h, i, out);
    }
  }

  /** A buffer off the LRU list may be pinned: it was already not a free one. */
  lemma PinLists(buf: seq<Buf>, front: int, rear: int, lru: seq<nat>, out: int, bp: nat, b2: Buf)
    requires LruOk(buf, front, rear, lru, out) && bp < |buf| && b2.count > 0
    requires if out == NIL then buf[bp].count > 0 else out == bp
    ensures LruOk(buf[bp := b2], front, rear, lru, NIL)
  {
    var buf2 := buf[bp := b2];
    assert bp !in lru;
    forall k | 0 <= k < |lru| ensures LinkAt(buf2, lru, k) {
      assert LinkAt(buf, lru, k);
    }
  }

  /** One more pin on a buffer: both kinds of list and all data are kept. */
  lemma PinStep(buf: seq<Buf>, front: int, rear: int, lru: seq<nat>, heads: seq<int>, chains: seq<seq<nat>>, out: int,
                bp: nat)
    requires LruOk(buf, front, rear, lru, out) && HashOk(buf, heads, chains, NIL) && bp < |buf|
    requires if out == NIL then buf[bp].count > 0 else out == bp
    ensures var b2 := buf[bp := buf[bp].(count := buf[bp].count + 1)];
      LruOk(b2, front, rear, lru, NIL) && HashOk(b2, heads, chains, NIL) && SameData(buf, b2)
  {
    PinLists(buf, front, rear, lru, out, bp, buf[bp].(count := buf[bp].count + 1));
    FrameHash(buf, buf[bp := buf[bp].(count := buf[bp].count + 1)], heads, chains, NIL);
  }

  /** The last user of a buffer lets go: it is off both the list and the set of pinned buffers for a moment. */
  lemma UnpinLists(buf: seq<Buf>, front: int, rear: int, lru: seq<nat>, bp: nat, b2: Buf)
    requires LruOk(buf, front, rear, lru, NIL) && bp < |buf| && buf[bp].count > 0
    ensures LruOk(buf[bp := b2], front, rear, lru, if b2.count == 0 then bp else NIL)
  {
    var buf2 := buf[bp := b2];
    assert bp !in lru;
    forall k | 0 <= k < |lru| ensures LinkAt(buf2, lru, k) {
      assert LinkAt(buf, lru, k);
    }
  }

  /** put_block of the last user, in front of the list. */
  lemma PutFrontStep(buf: seq<Buf>, front: int, rear: int, lru: seq<nat>, heads: seq<int>, chains: seq<seq<nat>>,
                     bp: nat)
    requires LruOk(buf, front, rear, lru, NIL) && HashOk(buf, heads, chains, NIL) && bp < |buf| && buf[bp].count == 1
    ensures var b1 := buf[bp := buf[bp].(count := 0)];
      && (front != NIL ==> 0 <= front < |buf|) && front != bp
      && var b2 := LinkedFront(b1, front, bp);
      && LruOk(b2, bp, if front == NIL then bp else rear, [bp] + lru, NIL) && HashOk(b2, heads, chains, NIL)
      && SameData(buf, b2) && SameCounts(b1, b2)
  {
    var b1 := buf[bp := buf[bp].(count := 0)];
    UnpinLists(buf, front, rear, lru, bp, b1[bp]);
    LinkFrontKeepsList(b1, front, rear, lru, bp);
    FrameHash(buf, LinkedFront(b1, front, bp), heads, chains, NIL);
  }

  /** put_block of the last user, at the rear of the list. */
  lemma PutRearStep(buf: seq<Buf>, front: int, rear: int, lru: seq<nat>, heads: seq<int>, chains: seq<seq<nat>>,
                    bp: nat)
    requires LruOk(buf, front, rear, lru, NIL) && HashOk(buf, heads, chains, NIL) && bp < |buf| && buf[bp].count == 1
    ensures var b1 := buf[bp := buf[bp].(count := 0)];
      && (rear != NIL ==> 0 <= rear < |buf|) && rear != bp
      && var b2 := LinkedRear(b1, rear, bp);
      && LruOk(b2, if rear == NIL then bp else front, bp, lru + [bp], NIL) && HashOk(b2, heads, chains, NIL)
      && SameData(buf, b2) && SameCounts(b1, b2)
  {
    var b1 := buf[bp := buf[bp].(count := 0)];
    UnpinLists(buf, front, rear, lru, bp, b1[bp]);
    LinkRearKeepsList(b1, front, rear, lru, bp);
    FrameHash(buf, LinkedRear(b1, rear, bp), heads, chains, NIL);
  }

  /** put_block when other users remain. */
  lemma UnpinStep(buf: seq<Buf>, front: int, rear: int, lru: seq<nat>, heads: seq<int>, chains: seq<seq<nat>>, bp: nat)
    requires LruOk(buf, front, rear, lru, NIL) && HashOk(buf, heads, chains, NIL) && bp < |buf| && buf[bp].count > 1
    ensures var b2 := buf[bp := buf[bp].(count := buf[bp].count - 1)];
      LruOk(b2, front, rear, lru, NIL) && HashOk(b2, heads, chains, NIL) && SameData(buf, b2)
  {
    var b2 := buf[bp := buf[bp].(count := buf[bp].count - 1)];
    UnpinLists(buf, front, rear, lru, bp, b2[bp]);
    FrameHash(buf, b2, heads, chains, NIL);
  }

  ghost function Pinned(buf: seq<Buf>): set<nat> {
    set i: nat | i < |buf| && buf[i].count > 0
  }

  /** The buffers off the LRU list are exactly the pinned ones, so the list length gives their number. */
  lemma PinnedCount(buf: seq<Buf>, front: int, rear: int, lru: seq<nat>)
    requires LruOk(buf, front, rear, lru, NIL)
    ensures |buf| - |lru| == |Pinned(buf)|
  {
    var all := UpTo(|buf|);
    var free := set i: nat | i in lru;
    UpToSize(|buf|);
    DistinctSize(lru);
    assert all == free + Pinned(buf);
  }
}
