/**
 Coherence of the two cache levels with the devices: the invariant under which
 the caches are invisible, and the steps of cache.c that keep it, on values.
 `contents` is what a client must see; `pending` names a buffer obtained with
 NO_READ that its user has not overwritten yet.
 */
module Coherence {
  import opened Base
  import opened Lists
  import opened CacheLinks
  import L2 = Level2

  /** The devices and the second level cache. */
  datatype Media = Media(disk: imap<Addr, Block>, ram: imap<nat, Block>, nr: nat, fifo: seq<L2.Entry>)

  ghost predicate Total(m: Media, contents: imap<Addr, Block>) {
    (forall a: Addr :: a in m.disk) && (forall a: Addr :: a in contents) && (forall b: nat :: b in m.ram)
  }

  /** What dev_io would read at address a. */
  ghost function Medium(m: Media, a: Addr): Block
    requires (forall a: Addr :: a in m.disk) && (forall b: nat :: b in m.ram)
  {
    if a.dev == DEV_RAM then m.ram[a.blk] else m.disk[a]
  }

  function AddrOf(b: Buf): Addr { Addr(b.dev, b.blocknr) }

  ghost predicate Held(buf: seq<Buf>, a: Addr) {
    exists i :: 0 <= i < |buf| && AddrOf(buf[i]) == a
  }

  /** While the second level cache is enabled, the RAM disk is its scratch area. */
  predicate Visible(m: Media, a: Addr) {
    a.dev != NO_DEV && (a.dev == DEV_RAM ==> m.nr == 0)
  }

  ghost predicate Unique(buf: seq<Buf>) {
    forall i, j :: 0 <= i < j < |buf| && buf[i].dev != NO_DEV ==> AddrOf(buf[i]) != AddrOf(buf[j])
  }

  ghost predicate BufferOk(b: Buf, m: Media, contents: imap<Addr, Block>)
    requires Total(m, contents)
  {
    b.dev != NO_DEV ==> b.data == contents[AddrOf(b)] && (b.dirty || b.data == Medium(m, AddrOf(b)))
  }

  ghost predicate AbsentOk(a: Addr, m: Media, contents: imap<Addr, Block>)
    requires Total(m, contents)
  {
    Visible(m, a) ==>
      && Medium(m, a) == contents[a]
      && L2.Lookup(m.fifo, a.dev, a.blk) in {None, Some(contents[a])}
  }

  ghost predicate Coherent(buf: seq<Buf>, m: Media, contents: imap<Addr, Block>, pending: int) {
    // "true ==" makes this one fact to prove, not one for each part.
    true == (
      && Total(m, contents) && |m.fifo| == m.nr
      && Unique(buf)
      && (forall i :: 0 <= i < |buf| && buf[i].dev == DEV_RAM ==> m.nr == 0)
      && (forall i :: 0 <= i < |buf| && i != pending ==> BufferOk(buf[i], m, contents))
      && (forall a: Addr :: !Held(buf, a) ==> AbsentOk(a, m, contents)))
  }

  // ---------- writing back ----------

  /** The buffers in w, and only those, have been written to their own blocks and marked clean. */
  ghost predicate Written(b0: seq<Buf>, m0: Media, b1: seq<Buf>, m1: Media, w: set<nat>) {
    && (forall a: Addr :: a in m0.disk) && (forall b: nat :: b in m0.ram)
    && (forall a: Addr :: a in m1.disk) && (forall b: nat :: b in m1.ram)
    && |b1| == |b0| && m1.nr == m0.nr && m1.fifo == m0.fifo
    && (forall i :: 0 <= i < |b0| ==> b1[i] == if i in w then b0[i].(dirty := false) else b0[i])
    && (forall i :: i in w ==> 0 <= i < |b0| && Medium(m1, AddrOf(b0[i])) == b0[i].data)
    && (forall a: Addr :: (forall i :: i in w ==> i < |b0| && AddrOf(b0[i]) != a) ==> Medium(m1, a) == Medium(m0, a))
  }

  /** Writing back keeps the caches coherent, with the same contents. */
  lemma WrittenCoherent(b0: seq<Buf>, m0: Media, b1: seq<Buf>, m1: Media, w: set<nat>, contents: imap<Addr, Block>)
    requires Coherent(b0, m0, contents, NIL) && Written(b0, m0, b1, m1, w)
    requires forall i :: i in w ==> 0 <= i < |b0| && b0[i].dev != NO_DEV
    ensures Coherent(b1, m1, contents, NIL)
  {
    forall i | 0 <= i < |b1| ensures BufferOk(b1[i], m1, contents) {
      assert BufferOk(b0[i], m0, contents);
      if i !in w && b1[i].dev != NO_DEV {
        assert forall j :: j in w ==> j < |b0| && AddrOf(b0[j]) != AddrOf(b0[i]);
      }
    }
    forall a: Addr | !Held(b1, a) ensures AbsentOk(a, m1, contents) {
      forall i | 0 <= i < |b0| ensures AddrOf(b0[i]) != a { assert AddrOf(b1[i]) == AddrOf(b0[i]); }
      assert AbsentOk(a, m0, contents);
    }
  }

  /** One more buffer written to its own block. */
  lemma WriteOne(b0: seq<Buf>, m0: Media, b1: seq<Buf>, m1: Media, w: set<nat>, i: nat, b2: seq<Buf>, m2: Media)
    requires Written(b0, m0, b1, m1, w) && i < |b0| && Unique(b0)
    requires forall j :: j in w ==> b0[j].dev != NO_DEV
    requires b0[i].dev != NO_DEV && b2 == b1[i := b1[i].(dirty := false)]
    requires m2.nr == m1.nr && m2.fifo == m1.fifo
    requires if b0[i].dev == DEV_RAM then m2.disk == m1.disk && m2.ram == m1.ram[b0[i].blocknr := b0[i].data]
             else m2.ram == m1.ram && m2.disk == m1.disk[AddrOf(b0[i]) := b0[i].data]
    ensures Written(b0, m0, b2, m2, w + {i})
  {
    forall a: Addr ensures Medium(m2, a) == if a == AddrOf(b0[i]) then b0[i].data else Medium(m1, a) {}
    forall j | j in w + {i} ensures Medium(m2, AddrOf(b0[j])) == b0[j].data {}
    forall a: Addr | forall j :: j in w + {i} ==> j < |b0| && AddrOf(b0[j]) != a
      ensures Medium(m2, a) == Medium(m0, a)
    {
      assert i in w + {i};
      forall j | j in w ensures j < |b0| && AddrOf(b0[j]) != a { assert j in w + {i}; }
    }
  }

  // ---------- replacing a buffer ----------

  /** A clean buffer may be dropped once its block has been pushed to the second level. */
  lemma DropCoherent(b0: seq<Buf>, m0: Media, contents: imap<Addr, Block>, bp: nat, b1: seq<Buf>, m1: Media)
    requires Coherent(b0, m0, contents, NIL) && bp < |b0| && (b0[bp].dev != NO_DEV ==> !b0[bp].dirty)
    requires b1 == b0[bp := b0[bp].(dev := NO_DEV)]
    requires m1.disk == m0.disk && m1.nr == m0.nr && (forall b: nat :: b in m1.ram)
    requires m0.nr == 0 || b0[bp].dev == NO_DEV ==> m1.ram == m0.ram && m1.fifo == m0.fifo
    requires m0.nr > 0 && b0[bp].dev != NO_DEV ==>
      m1.fifo == L2.Push(m0.fifo, L2.Entry(b0[bp].dev, b0[bp].blocknr, b0[bp].data))
    ensures Coherent(b1, m1, contents, NIL)
  {
    assert BufferOk(b0[bp], m0, contents);
    forall i | 0 <= i < |b1| ensures BufferOk(b1[i], m1, contents) {
      assert BufferOk(b0[i], m0, contents);
    }
    forall a: Addr | !Held(b1, a) ensures AbsentOk(a, m1, contents) {
      if a.dev != NO_DEV {
        DropAbsent(b0, m0, contents, bp, b1, m1, a);
      }
    }
  }

  lemma DropAbsent(b0: seq<Buf>, m0: Media, contents: imap<Addr, Block>, bp: nat, b1: seq<Buf>, m1: Media, a: Addr)
    requires Coherent(b0, m0, contents, NIL) && bp < |b0| && (b0[bp].dev != NO_DEV ==> !b0[bp].dirty)
    requires b1 == b0[bp := b0[bp].(dev := NO_DEV)]
    requires m1.disk == m0.disk && m1.nr == m0.nr && (forall b: nat :: b in m1.ram)
    requires m0.nr == 0 || b0[bp].dev == NO_DEV ==> m1.ram == m0.ram && m1.fifo == m0.fifo
    requires m0.nr > 0 && b0[bp].dev != NO_DEV ==>
      m1.fifo == L2.Push(m0.fifo, L2.Entry(b0[bp].dev, b0[bp].blocknr, b0[bp].data))
    requires !Held(b1, a) && a.dev != NO_DEV
    ensures AbsentOk(a, m1, contents)
  {
    assert BufferOk(b0[bp], m0, contents);
    if AddrOf(b0[bp]) != a {
      forall i | 0 <= i < |b0| ensures AddrOf(b0[i]) != a { if i != bp { assert b1[i] == b0[i]; } }
      assert AbsentOk(a, m0, contents);
    }
    if m0.nr > 0 && b0[bp].dev != NO_DEV {
      L2.LookupPush(m0.fifo, L2.Entry(b0[bp].dev, b0[bp].blocknr, b0[bp].data), a.dev, a.blk);
    }
  }

  /** The first access to the RAM disk itself switches the second level off. */
  lemma DisableCoherent(buf: seq<Buf>, m0: Media, contents: imap<Addr, Block>, m1: Media)
    requires Coherent(buf, m0, contents, NIL)
    requires m1 == m0.(nr := 0, fifo := [])
    ensures Coherent(buf, m1, Rebased(m0, contents), NIL)
  {
    forall i | 0 <= i < |buf| ensures BufferOk(buf[i], m1, Rebased(m0, contents)) {
      assert BufferOk(buf[i], m0, contents);
    }
    forall a: Addr | !Held(buf, a) ensures AbsentOk(a, m1, Rebased(m0, contents)) {
      assert AbsentOk(a, m0, contents);
    }
  }

  /** If the second level was in use, the RAM disk now holds what the cache left on it. */
  ghost function Rebased(m: Media, contents: imap<Addr, Block>): imap<Addr, Block>
    requires Total(m, contents)
  {
    imap a: Addr :: if a.dev == DEV_RAM && m.nr > 0 then m.ram[a.blk] else contents[a]
  }

  /** A free buffer may take on a block that no other buffer holds. */
  lemma ClaimCoherent(b0: seq<Buf>, m: Media, contents: imap<Addr, Block>, bp: nat, b1: seq<Buf>)
    requires Coherent(b0, m, contents, NIL) && OthersKept(b0, b1, bp) && b0[bp].dev == NO_DEV
    requires b1[bp].dev != NO_DEV ==> !Held(b0, AddrOf(b1[bp]))
    requires b1[bp].dev == DEV_RAM ==> m.nr == 0
    ensures Coherent(b1, m, contents, bp)
  {
    forall i | 0 <= i < |b1| && i != bp ensures BufferOk(b1[i], m, contents) {
      assert BufferOk(b0[i], m, contents);
    }
    forall i, j | 0 <= i < j < |b1| && b1[i].dev != NO_DEV ensures AddrOf(b1[i]) != AddrOf(b1[j]) {
      if j == bp { assert AddrOf(b0[i]) != AddrOf(b1[bp]); }
      if i == bp { assert AddrOf(b0[j]) != AddrOf(b1[bp]); }
    }
    forall a: Addr | !Held(b1, a) ensures AbsentOk(a, m, contents) {
      if a.dev != NO_DEV {
        forall i | 0 <= i < |b0| ensures AddrOf(b0[i]) != a { if i != bp { assert AddrOf(b1[i]) != a; } }
      }
    }
  }

  /** Once its data is right, the claimed buffer is an ordinary one. */
  lemma FillCoherent(b0: seq<Buf>, m: Media, contents: imap<Addr, Block>, bp: nat, b1: seq<Buf>)
    requires Coherent(b0, m, contents, bp) && bp < |b0|
    requires |b1| == |b0| && AddrOf(b1[bp]) == AddrOf(b0[bp]) && BufferOk(b1[bp], m, contents)
    requires forall i :: 0 <= i < |b0| && i != bp ==> b1[i] == b0[i]
    ensures Coherent(b1, m, contents, NIL)
  {
    forall i, j | 0 <= i < j < |b1| && b1[i].dev != NO_DEV ensures AddrOf(b1[i]) != AddrOf(b1[j]) {
      assert AddrOf(b0[i]) != AddrOf(b0[j]);
    }
    forall a: Addr | !Held(b1, a) ensures AbsentOk(a, m, contents) {
      forall i | 0 <= i < |b0| ensures AddrOf(b0[i]) != a { assert AddrOf(b1[i]) != a; }
    }
  }

  /** b1 differs from b0 only in buffer bp, apart from pins and list pointers. */
  ghost predicate OthersKept(b0: seq<Buf>, b1: seq<Buf>, bp: nat) {
    true == (
      && bp < |b0| == |b1|
      && forall i :: 0 <= i < |b0| && i != bp ==>
        AddrOf(b1[i]) == AddrOf(b0[i]) && b1[i].data == b0[i].data && b1[i].dirty == b0[i].dirty)
  }

  /** Replacing a dropped buffer by a correctly filled one, or by one without a device. */
  lemma ReplaceCoherent(b0: seq<Buf>, m: Media, contents: imap<Addr, Block>, bp: nat, b1: seq<Buf>)
    requires Coherent(b0, m, contents, NIL) && OthersKept(b0, b1, bp) && b0[bp].dev == NO_DEV
    requires BufferOk(b1[bp], m, contents)
    requires b1[bp].dev != NO_DEV ==> !Held(b0, AddrOf(b1[bp])) && (b1[bp].dev == DEV_RAM ==> m.nr == 0)
    ensures Coherent(b1, m, contents, NIL)
  {
    ClaimCoherent(b0, m, contents, bp, b1);
    FillCoherent(b1, m, contents, bp, b1);
  }

  /** A user overwriting a buffer it holds changes the contents of that one block. */
  lemma ModifyCoherent(b0: seq<Buf>, m: Media, contents: imap<Addr, Block>, pending: int, bp: nat, data: Block)
    requires Coherent(b0, m, contents, pending) && bp < |b0| && pending in {NIL, bp}
    ensures Coherent(b0[bp := b0[bp].(data := data, dirty := true)], m,
      if b0[bp].dev == NO_DEV then contents else contents[AddrOf(b0[bp]) := data], NIL)
  {
    var b1 := b0[bp := b0[bp].(data := data, dirty := true)];
    var c1 := if b0[bp].dev == NO_DEV then contents else contents[AddrOf(b0[bp]) := data];
    forall i | 0 <= i < |b1| ensures BufferOk(b1[i], m, c1) {
      if i != bp { assert BufferOk(b0[i], m, contents); }
    }
    forall a: Addr | !Held(b1, a) ensures AbsentOk(a, m, c1) {
      forall i | 0 <= i < |b0| ensures AddrOf(b0[i]) != a { assert AddrOf(b1[i]) != a; }
      assert AbsentOk(a, m, contents);
    }
  }

  /** Only pins and list pointers differ. */
  lemma FrameCoherent(b0: seq<Buf>, m: Media, contents: imap<Addr, Block>, pending: int, b1: seq<Buf>)
    requires Coherent(b0, m, contents, pending) && SameData(b0, b1)
    ensures Coherent(b1, m, contents, pending)
  {
    forall i | 0 <= i < |b1| && i != pending ensures BufferOk(b1[i], m, contents) {
      assert BufferOk(b0[i], m, contents);
    }
    forall a: Addr | !Held(b1, a) ensures AbsentOk(a, m, contents) {
      forall i | 0 <= i < |b0| ensures AddrOf(b0[i]) != a { assert AddrOf(b1[i]) != a; }
    }
  }

  /** Once a device is purged, it shows what its medium holds. */
  lemma PurgeCoherent(b0: seq<Buf>, m0: Media, contents: imap<Addr, Block>, device: nat, b1: seq<Buf>, m1: Media)
    requires Coherent(b0, m0, contents, NIL) && device != NO_DEV
    requires |b1| == |b0| && forall i :: 0 <= i < |b0| ==>
      b1[i] == if b0[i].dev == device then b0[i].(dev := NO_DEV) else b0[i]
    requires m1 == m0.(fifo := L2.Purge(m0.fifo, device))
    ensures Coherent(b1, m1, Purged(m0, contents, device), NIL)
  {
    var c1 := Purged(m0, contents, device);
    forall i | 0 <= i < |b1| ensures BufferOk(b1[i], m1, c1) {
      assert BufferOk(b0[i], m0, contents);
    }
    forall a: Addr | !Held(b1, a) && a.dev != NO_DEV ensures AbsentOk(a, m1, c1) {
      L2.LookupPurge(m0.fifo, device, a.dev, a.blk);
      if i :| 0 <= i < |b0| && AddrOf(b0[i]) == a {
        assert BufferOk(b0[i], m0, contents);
        assert AddrOf(b1[i]) != a;
      } else {
        assert AbsentOk(a, m0, contents);
      }
    }
  }

  /** The contents once everything cached of the device is forgotten: what its medium holds. */
  ghost function Purged(m: Media, contents: imap<Addr, Block>, device: nat): (c: imap<Addr, Block>)
    requires Total(m, contents)
    ensures forall a: Addr :: a in c
  {
    imap a: Addr :: if a.dev == device && Visible(m, a) then Medium(m, a) else contents[a]
  }

  /** That loses nothing if and only if every dirty buffer of the device agrees with its block. */
  lemma PurgedSame(buf: seq<Buf>, m: Media, contents: imap<Addr, Block>, device: nat)
    requires Coherent(buf, m, contents, NIL) && device != NO_DEV
    ensures Purged(m, contents, device) == contents <==>
      forall i :: 0 <= i < |buf| && buf[i].dev == device && buf[i].dirty ==> buf[i].data == Medium(m, AddrOf(buf[i]))
  {
    var c := Purged(m, contents, device);
    forall i | 0 <= i < |buf| && buf[i].dev == device
      ensures contents[AddrOf(buf[i])] == buf[i].data && Visible(m, AddrOf(buf[i])) {
      assert BufferOk(buf[i], m, contents);
    }
    if forall i :: 0 <= i < |buf| && buf[i].dev == device && buf[i].dirty ==> buf[i].data == Medium(m, AddrOf(buf[i])) {
      forall a: Addr ensures c[a] == contents[a] {
        if i :| 0 <= i < |buf| && AddrOf(buf[i]) == a {
          assert BufferOk(buf[i], m, contents);
        } else {
          assert AbsentOk(a, m, contents);
        }
      }
    } else {
      var i :| 0 <= i < |buf| && buf[i].dev == device && buf[i].dirty && buf[i].data != Medium(m, AddrOf(buf[i]));
      assert c[AddrOf(buf[i])] != contents[AddrOf(buf[i])];
    }
  }
}
