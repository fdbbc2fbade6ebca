/**
 Whole runs of the block cache.  A client works on blocks through handles; the
 specification is a plain map from block addresses to contents.  Every run of
 the two-level cache shows the client exactly what the map would.
 */
module CacheRuns {
  import opened Base
  import opened Lists
  import opened CacheLinks
  import opened Coherence
  import opened Cache
  import opened ReadAhead

  datatype Op =
    | Get(dev: nat, blk: nat)                        // get_block, NORMAL
    | GetNew(dev: nat, blk: nat, data: Block)        // get_block, NO_READ, and overwrite the block
    | GetZero                                        // get_block without a device, zeroed: a hole that is read
    | Ahead(dev: nat, blk: nat, blocks: nat)         // rahead
    | Peek(h: nat)                                   // look at a block in hand
    | Store(h: nat, data: Block)                     // overwrite a block in hand
    | Put(h: nat, oneShot: bool, writeImmed: bool)   // put_block
    | Flush(dev: nat)                                // flushall
    | Purge(dev: nat)                                // sync, then invalidate a device not in use

  predicate Legal(op: Op) {
    match op
    case Get(dev, _) => dev != NO_DEV
    case GetNew(dev, _, _) => dev != NO_DEV
    case Ahead(dev, _, blocks) => dev != NO_DEV && blocks <= UINT_MAX
    case Flush(dev) => dev != NO_DEV
    case Purge(dev) => dev != NO_DEV
    case _ => true
  }

  // ---------- the specification ----------

  /** What a handle stands for: a block of a device, or a buffer of the client's own. */
  datatype Hold = Named(a: Addr) | Scratch(data: Block)

  /** The blocks, the client's handles, and whether the RAM disk still holds the second level cache. */
  datatype Plain = Plain(contents: imap<Addr, Block>, held: seq<Hold>, on: bool)

  function Zeros(): Block { seq(1024, _ => 0) }

  /** The first use of the RAM disk as a device ends the second level; the disk shows what was left there. */
  ghost function Touch(s: Plain, dev: nat, raw: imap<Addr, Block>): Plain {
    if dev == DEV_RAM && s.on then
      Plain(imap a: Addr | a in s.contents && a in raw ::
        if a.dev == DEV_RAM then raw[a] else s.contents[a], s.held, false)
    else s
  }

  ghost function Hand(s: Plain, h: Hold): Plain { s.(held := s.held + [h]) }

  ghost function Next(s: Plain, op: Op, raw: imap<Addr, Block>): Plain {
    match op
    case Get(dev, blk) => Hand(Touch(s, dev, raw), Named(Addr(dev, blk)))
    case GetNew(dev, blk, data) =>
      var t := Touch(s, dev, raw);
      Hand(t.(contents := t.contents[Addr(dev, blk) := data]), Named(Addr(dev, blk)))
    case GetZero => Hand(s, Scratch(Zeros()))
    case Ahead(dev, blk, _) => Hand(Touch(s, dev, raw), Named(Addr(dev, blk)))
    case Store(h, data) =>
      if h >= |s.held| then s
      else if s.held[h].Named? then s.(contents := s.contents[s.held[h].a := data])
      else s.(held := s.held[h := Scratch(data)])
    case Put(h, _, _) => if h < |s.held| then s.(held := Without(s.held, h)) else s
    case _ => s
  }

  ghost function Show(s: Plain, h: Hold): Option<Block> {
    match h
    case Named(a) => if a in s.contents then Some(s.contents[a]) else None
    case Scratch(data) => Some(data)
  }

  /** What the client sees of the block an operation is about. */
  ghost function Seen(s: Plain, op: Op, raw: imap<Addr, Block>): Option<Block> {
    match op
    case Get(dev, blk) => Show(Touch(s, dev, raw), Named(Addr(dev, blk)))
    case Ahead(dev, blk, _) => Show(Touch(s, dev, raw), Named(Addr(dev, blk)))
    case Peek(h) => if h < |s.held| then Show(s, s.held[h]) else None
    case _ => None
  }

  ghost function After(s: Plain, ops: seq<Op>, raw: imap<Addr, Block>): Plain {
    if ops == [] then s else Next(After(s, ops[..|ops| - 1], raw), ops[|ops| - 1], raw)
  }

  /** As long as the second level is on, what is left on the RAM disk does not matter. */
  lemma StillOnStep(s: Plain, op: Op, raw: imap<Addr, Block>, raw2: imap<Addr, Block>)
    requires Next(s, op, raw).on
    ensures s.on && Next(s, op, raw2) == Next(s, op, raw) && Seen(s, op, raw2) == Seen(s, op, raw)
  {
  }

  lemma {:induction false} StillOn(s: Plain, ops: seq<Op>, raw: imap<Addr, Block>, raw2: imap<Addr, Block>)
    requires After(s, ops, raw).on
    ensures After(s, ops, raw2) == After(s, ops, raw)
  {
    if ops != [] {
      var init := ops[..|ops| - 1];
      StillOnStep(After(s, init, raw), ops[|ops| - 1], raw, raw2);
      StillOn(s, init, raw, raw2);
    }
  }

  lemma {:induction false} SeenOn(s: Plain, ops: seq<Op>, raw: imap<Addr, Block>, raw2: imap<Addr, Block>, k: nat)
    requires After(s, ops, raw).on && k < |ops|
    ensures Seen(After(s, ops[..k], raw2), ops[k], raw2) == Seen(After(s, ops[..k], raw), ops[k], raw)
  {
    var init := ops[..|ops| - 1];
    StillOnStep(After(s, init, raw), ops[|ops| - 1], raw, raw2);
    if k < |init| {
      assert init[..k] == ops[..k] && init[k] == ops[k];
      SeenOn(s, init, raw, raw2, k);
    } else {
      assert ops[..k] == init;
      StillOn(s, init, raw, raw2);
    }
  }

  // ---------- the cache behind handles ----------

  /** A buffer behind a handle. */
  ghost predicate Behind(b: Buf, h: Hold) {
    match h
    case Named(a) => AddrOf(b) == a && a.dev != NO_DEV
    case Scratch(data) => b.dev == NO_DEV && b.data == data && b.count == 1
  }

  /** Handle k is a pin on a buffer that holds held[k], and there are no other pins. */
  ghost predicate Handles(buf: seq<Buf>, handles: seq<nat>, held: seq<Hold>) {
    // "true ==" makes this one fact to prove, not one for each part.
    true == (
      && |handles| == |held| && InRange(handles, |buf|)
      && (forall k :: 0 <= k < |handles| ==> Behind(buf[handles[k]], held[k]))
      && (forall i :: 0 <= i < |buf| ==> buf[i].count == multiset(handles)[i]))
  }

  ghost predicate Represents(c: Cache, handles: seq<nat>, s: Plain)
    reads c, c.l2
  {
    c.Valid() && c.pending == NIL && c.contents == s.contents && Handles(c.buf, handles, s.held)
      && s.on == (c.l2.nr > 0)
  }

  /** The panic: every buffer is pinned. */
  ghost predicate AllPinned(buf: seq<Buf>) {
    forall i :: 0 <= i < |buf| ==> buf[i].count > 0
  }

  lemma HandlePinned(c: Cache, handles: seq<nat>, s: Plain, k: nat)
    requires Represents(c, handles, s) && k < |handles|
    ensures c.buf[handles[k]].count > 0 && Some(c.buf[handles[k]].data) == Show(s, s.held[k])
  {
    assert handles[k] in multiset(handles) && Behind(c.buf[handles[k]], s.held[k]);
    assert BufferOk(c.buf[handles[k]], c.M(), c.contents);
  }

  /** A new pin on a buffer is a new handle. */
  lemma NewHandle(b0: seq<Buf>, b1: seq<Buf>, handles: seq<nat>, held: seq<Hold>, bp: nat, h: Hold)
    requires Handles(b0, handles, held) && |b1| == |b0| && bp < |b1|
    requires forall i :: 0 <= i < |b0| && b0[i].count > 0 ==> AddrOf(b1[i]) == AddrOf(b0[i]) && b1[i].data == b0[i].data
    requires forall i :: 0 <= i < |b0| ==> b1[i].count == b0[i].count + if i == bp then 1 else 0
    requires Behind(b1[bp], h)
    ensures Handles(b1, handles + [bp], held + [h])
  {
    assert multiset(handles + [bp]) == multiset(handles) + multiset{bp};
    forall k | 0 <= k < |handles| ensures Behind(b1[handles[k]], held[k]) {
      assert handles[k] in multiset(handles) && Behind(b0[handles[k]], held[k]);
    }
  }

  lemma HandleRemoved(handles: seq<nat>, h: nat, i: nat)
    requires h < |handles|
    ensures multiset(Without(handles, h))[i] == multiset(handles)[i] - if i == handles[h] then 1 else 0
  {
    assert handles == handles[..h] + [handles[h]] + handles[h + 1..];
    assert multiset(Without(handles, h)) == multiset(handles) - multiset{handles[h]};
  }

  lemma OtherHandle(buf: seq<Buf>, handles: seq<nat>, held: seq<Hold>, h: nat, j: nat)
    requires Handles(buf, handles, held) && h < |handles| && j < |handles| && j != h && held[j].Scratch?
    ensures handles[j] != handles[h]
  {
    var rest := Without(handles, h);
    HandleRemoved(handles, h, handles[h]);
    var k := if j < h then j else j - 1;
    assert rest[k] == handles[j];
    assert rest[k] in multiset(rest);
    assert Behind(buf[handles[j]], held[j]);
  }

  /** Dropping a pin drops its handle. */
  lemma DropHandle(b0: seq<Buf>, b1: seq<Buf>, handles: seq<nat>, held: seq<Hold>, h: nat)
    requires Handles(b0, handles, held) && h < |handles| && KeptIdentity(b0, b1)
    requires forall i :: 0 <= i < |b0| ==> b1[i].count == b0[i].count - if i == handles[h] then 1 else 0
    ensures Handles(b1, Without(handles, h), Without(held, h))
  {
    forall i | 0 <= i < |b1| ensures b1[i].count == multiset(Without(handles, h))[i] { HandleRemoved(handles, h, i); }
    forall k | 0 <= k < |Without(handles, h)|
      ensures Without(handles, h)[k] < |b1| && Behind(b1[Without(handles, h)[k]], Without(held, h)[k]) {
      DroppedOther(b0, b1, handles, held, h, k);
    }
  }

  lemma DroppedOther(b0: seq<Buf>, b1: seq<Buf>, handles: seq<nat>, held: seq<Hold>, h: nat, k: nat)
    requires Handles(b0, handles, held) && h < |handles| && k < |handles| - 1 && KeptIdentity(b0, b1)
    requires forall i :: 0 <= i < |b0| ==> b1[i].count == b0[i].count - if i == handles[h] then 1 else 0
    ensures Without(handles, h)[k] < |b1| && Behind(b1[Without(handles, h)[k]], Without(held, h)[k])
  {
    var j := if k < h then k else k + 1;
    assert Without(handles, h)[k] == handles[j] && Without(held, h)[k] == held[j];
    assert Behind(b0[handles[j]], held[j]) && AddrOf(b1[handles[j]]) == AddrOf(b0[handles[j]]);
    if held[j].Scratch? { OtherHandle(b0, handles, held, h, j); }
  }

  /** New data in a buffer changes no handle on a block. */
  lemma SameHandles(b0: seq<Buf>, b1: seq<Buf>, handles: seq<nat>, held: seq<Hold>, h: nat, data: Block)
    requires Handles(b0, handles, held) && h < |handles|
      && b1 == b0[handles[h] := b0[handles[h]].(data := data, dirty := true)]
    ensures Handles(b1, handles, if held[h].Named? then held else held[h := Scratch(data)])
  {
    var held1 := if held[h].Named? then held else held[h := Scratch(data)];
    assert Behind(b0[handles[h]], held[h]);
    forall k | 0 <= k < |handles| ensures Behind(b1[handles[k]], held1[k]) {
      assert Behind(b0[handles[k]], held[k]);
      if k != h && held[k].Scratch? { OtherHandle(b0, handles, held, h, k); }
    }
  }

  /** A device is used: the contents are as before, but for those of the RAM disk when that ends the second level. */
  lemma Touched(c0: imap<Addr, Block>, c1: imap<Addr, Block>, s: Plain, dev: nat)
    requires c0 == s.contents && (forall a: Addr :: a in c0 && a in c1)
    requires forall a: Addr :: a.dev != DEV_RAM || dev != DEV_RAM || !s.on ==> c1[a] == c0[a]
    ensures Touch(s, dev, c1).contents == c1
  {
  }

  method DoGet(c: Cache, dev: nat, blk: nat, ahead: Option<nat>, handles: seq<nat>, ghost s: Plain) returns (bp: int)
    requires Represents(c, handles, s) && dev != NO_DEV && (ahead.Some? ==> c.nrBufs >= 6 && ahead.value <= UINT_MAX)
    modifies c, c.l2
    ensures bp == NIL ==> Represents(c, handles, s) && AllPinned(c.buf)
    ensures bp != NIL ==>
      0 <= bp < c.nrBufs && Represents(c, handles + [bp], Hand(Touch(s, dev, c.contents), Named(Addr(dev, blk))))
    ensures bp != NIL ==> Some(c.buf[bp].data) == Show(Touch(s, dev, c.contents), Named(Addr(dev, blk)))
  {
    bp := Request(c, dev, blk, ahead);
    Touched(old(c.contents), c.contents, s, dev);
    if bp != NIL {
      NewHandle(old(c.buf), c.buf, handles, s.held, bp, Named(Addr(dev, blk)));
    } else {
      assert c.contents == old(c.contents);
    }
  }

  /** get_block, or rahead. */
  method Request(c: Cache, dev: nat, blk: nat, ahead: Option<nat>) returns (bp: int)
    requires c.Valid() && c.pending == NIL && dev != NO_DEV
      && (ahead.Some? ==> c.nrBufs >= 6 && ahead.value <= UINT_MAX)
    modifies c, c.l2
    ensures c.Valid() && c.pending == NIL && (bp == NIL ==> AllPinned(c.buf))
    ensures c.l2.nr == if dev == DEV_RAM && bp != NIL then 0 else old(c.l2.nr)
    ensures c.ContentsKept(old(c.contents), old(c.l2.nr)) && c.PinsKept(old(c.buf))
    ensures (bp != NIL ==> Shows(c.buf, bp, Addr(dev, blk), c.contents)) && OnePin(old(c.buf), c.buf, bp)
  {
    if ahead == None {
      bp := c.GetBlock(dev, blk, Normal);
    } else {
      bp := Rahead(c, dev, blk, ahead.value);
    }
  }

  method DoGetNew(c: Cache, dev: nat, blk: nat, data: Block, handles: seq<nat>, ghost s: Plain)
      returns (bp: int, ghost raw: imap<Addr, Block>)
    requires Represents(c, handles, s) && dev != NO_DEV
    modifies c, c.l2
    ensures bp == NIL ==> Represents(c, handles, s) && AllPinned(c.buf)
    ensures bp != NIL ==> 0 <= bp < c.nrBufs && Represents(c, handles + [bp], Next(s, GetNew(dev, blk, data), raw))
  {
    bp := PinNew(c, dev, blk, handles, s);
    raw := c.contents;
    if bp != NIL {
      ghost var b0 := c.buf;
      assert (handles + [bp])[|handles|] == bp;
      c.Modify(bp, data);
      SameHandles(b0, c.buf, handles + [bp], s.held + [Named(Addr(dev, blk))], |handles|, data);
    }
  }

  /** get_block for a block that is going to be overwritten. */
  method PinNew(c: Cache, dev: nat, blk: nat, handles: seq<nat>, ghost s: Plain) returns (bp: int)
    requires Represents(c, handles, s) && dev != NO_DEV
    modifies c, c.l2
    ensures c.Valid()
    ensures bp == NIL ==> Represents(c, handles, s) && AllPinned(c.buf)
    ensures bp != NIL ==>
      0 <= bp < c.nrBufs && c.pending in {NIL, bp} && Handles(c.buf, handles + [bp], s.held + [Named(Addr(dev, blk))])
    ensures bp != NIL ==> c.buf[bp].count > 0 && AddrOf(c.buf[bp]) == Addr(dev, blk)
    ensures bp != NIL ==>
      Touch(s, dev, c.contents).contents == c.contents && Touch(s, dev, c.contents).on == (c.l2.nr > 0)
  {
    bp := c.GetBlock(dev, blk, NoRead);
    Touched(old(c.contents), c.contents, s, dev);
    if bp != NIL {
      NewHandle(old(c.buf), c.buf, handles, s.held, bp, Named(Addr(dev, blk)));
    } else {
      assert c.contents == old(c.contents);
    }
  }

  /** read_map finds nothing: a buffer without a device is zeroed, and marked dirty like any other. */
  method DoGetZero(c: Cache, handles: seq<nat>, ghost s: Plain) returns (bp: int)
    requires Represents(c, handles, s)
    modifies c, c.l2
    ensures bp == NIL ==> Represents(c, handles, s) && AllPinned(c.buf)
    ensures bp != NIL ==> 0 <= bp < c.nrBufs && Represents(c, handles + [bp], Hand(s, Scratch(Zeros())))
  {
    ghost var old0;
    bp, old0 := PinScratch(c, handles, s);
    if bp != NIL {
      assert (handles + [bp])[|handles|] == bp;
      DoStore(c, |handles|, Zeros(), handles + [bp], Hand(s, Scratch(old0)));
      ZeroStored(s, |handles|, old0, c.contents);
    }
  }

  lemma ZeroStored(s: Plain, h: nat, old0: Block, raw: imap<Addr, Block>)
    requires h == |s.held|
    ensures Next(Hand(s, Scratch(old0)), Store(h, Zeros()), raw) == Hand(s, Scratch(Zeros()))
  {
    assert (s.held + [Scratch(old0)])[h := Scratch(Zeros())] == s.held + [Scratch(Zeros())];
  }

  /** get_block without a device: the least recently used buffer, whatever it holds. */
  method PinScratch(c: Cache, handles: seq<nat>, ghost s: Plain) returns (bp: int, ghost old0: Block)
    requires Represents(c, handles, s)
    modifies c, c.l2
    ensures bp == NIL ==> Represents(c, handles, s) && AllPinned(c.buf)
    ensures bp != NIL ==> 0 <= bp < c.nrBufs && Represents(c, handles + [bp], Hand(s, Scratch(old0)))
  {
    FrontFree(c.buf, c.front, c.rear, c.lru);
    bp := c.GetBlock(NO_DEV, NO_BLOCK, Normal);
    assert c.contents == old(c.contents);
    old0 := [];
    if bp != NIL {
      old0 := c.buf[bp].data;
      NewHandle(old(c.buf), c.buf, handles, s.held, bp, Scratch(old0));
    }
  }

  /** The buffer at the front of the LRU list is in nobody's hands. */
  lemma FrontFree(buf: seq<Buf>, front: int, rear: int, lru: seq<nat>)
    requires LruOk(buf, front, rear, lru, NIL)
    ensures front != NIL ==> 0 <= front < |buf| && buf[front].count == 0
  {
    if lru != [] { assert lru[0] in lru; }
  }

  method DoStore(c: Cache, h: nat, data: Block, handles: seq<nat>, ghost s: Plain)
    requires Represents(c, handles, s)
    modifies c`buf, c`contents, c`pending
    ensures Represents(c, handles, Next(s, Store(h, data), c.contents))
  {
    if h < |handles| {
      HandlePinned(c, handles, s, h);
      assert Behind(c.buf[handles[h]], s.held[h]);
      ghost var b0 := c.buf;
      c.Modify(handles[h], data);
      SameHandles(b0, c.buf, handles, s.held, h, data);
    }
  }

  method DoPut(c: Cache, h: nat, oneShot: bool, writeImmed: bool, handles: seq<nat>, ghost s: Plain)
      returns (rest: seq<nat>)
    requires Represents(c, handles, s)
    modifies c, c.l2
    ensures Represents(c, rest, Next(s, Put(h, oneShot, writeImmed), c.contents)) && c.l2.nr == old(c.l2.nr)
  {
    rest := handles;
    if h < |handles| {
      PutHandle(c, h, oneShot, writeImmed, handles, s);
      rest := Without(handles, h);
      assert Next(s, Put(h, oneShot, writeImmed), c.contents) == s.(held := Without(s.held, h));
    } else {
      assert Next(s, Put(h, oneShot, writeImmed), c.contents) == s;
    }
  }

  method PutHandle(c: Cache, h: nat, oneShot: bool, writeImmed: bool, handles: seq<nat>, ghost s: Plain)
    requires Represents(c, handles, s) && h < |handles|
    modifies c`buf, c`front, c`rear, c`bufsInUse, c`lru, c`disk, c.l2`ram
    ensures Represents(c, Without(handles, h), s.(held := Without(s.held, h))) && c.l2.nr == old(c.l2.nr)
  {
    HandlePinned(c, handles, s, h);
    c.PutBlock(handles[h], oneShot, writeImmed);
    DropHandle(old(c.buf), c.buf, handles, s.held, h);
  }

  method DoFlush(c: Cache, dev: nat, handles: seq<nat>, ghost s: Plain)
    requires Represents(c, handles, s) && dev != NO_DEV
    modifies c`buf, c`disk, c.l2`ram
    ensures Represents(c, handles, s) && c.l2.nr == old(c.l2.nr)
    ensures forall i :: 0 <= i < c.nrBufs && c.buf[i].dev == dev ==> !c.buf[i].dirty
  {
    c.Flush(dev);
    KeptHandles(old(c.buf), c.buf, handles, s.held);
  }

  lemma KeptHandles(b0: seq<Buf>, b1: seq<Buf>, handles: seq<nat>, held: seq<Hold>)
    requires Handles(b0, handles, held) && |b1| == |b0| && forall i :: 0 <= i < |b0| ==> b1[i].count == b0[i].count
    requires forall i :: 0 <= i < |b0| && i in handles ==> AddrOf(b1[i]) == AddrOf(b0[i]) && b1[i].data == b0[i].data
    ensures Handles(b1, handles, held)
  {
    forall k | 0 <= k < |handles| ensures Behind(b1[handles[k]], held[k]) {
      assert handles[k] in handles && Behind(b0[handles[k]], held[k]);
    }
  }

  method DoPurge(c: Cache, dev: nat, handles: seq<nat>, ghost s: Plain)
    requires Represents(c, handles, s) && dev != NO_DEV
    modifies c`buf, c`disk, c`contents, c.l2
    ensures Represents(c, handles, s) && c.l2.nr == old(c.l2.nr)
  {
    // A device with blocks in use is not closed.
    var busy := exists k :: 0 <= k < |handles| && c.buf[handles[k]].dev == dev;
    if !busy {
      DoFlush(c, dev, handles, s);
      ghost var b0 := c.buf;
      assert forall i :: i in handles && i < |b0| ==> b0[i].dev != dev;
      c.Invalidate(dev);
      KeptHandles(b0, c.buf, handles, s.held);
    }
  }

  /**
   Every run of get, modify, put, flush, read-ahead and invalidate-after-sync on
   the two-level cache shows what the plain map shows, however the blocks were
   served; `raw` is what the second level leaves on the RAM disk when that is
   first used as a device.  The run ends early only in the panic with all
   buffers in use.
   */
  method Run(c: Cache, ops: seq<Op>) returns (seen: seq<Option<Block>>, handles: seq<nat>, ghost raw: imap<Addr, Block>)
    requires c.Valid() && c.pending == NIL && c.nrBufs >= 6
    requires forall i :: 0 <= i < c.nrBufs ==> c.buf[i].count == 0
    requires forall k :: 0 <= k < |ops| ==> Legal(ops[k])
    modifies c, c.l2
    ensures |seen| <= |ops| && (|seen| < |ops| ==> AllPinned(c.buf))
    ensures SeenSoFar(Plain(old(c.contents), [], old(c.l2.nr) > 0), ops, seen, raw)
    ensures Represents(c, handles, After(Plain(old(c.contents), [], old(c.l2.nr) > 0), ops[..|seen|], raw))
  {
    seen, handles, raw := [], [], c.contents;
    ghost var s0 := Plain(c.contents, [], c.l2.nr > 0);
    assert ops[..0] == [];
    var i := 0;
    while i < |ops|
      invariant 0 <= i <= |ops| && |seen| == i
      invariant SeenSoFar(s0, ops, seen, raw)
      invariant Represents(c, handles, After(s0, ops[..i], raw)) == true
    {
      var out: Option<Block>, ok: bool;
      ghost var raw1;
      ghost var s := After(s0, ops[..i], raw);
      ok, out, handles, raw1 := Step(c, ops[i], handles, s);
      if !ok { return; }
      raw := ChooseRaw(s0, ops, seen, raw, raw1, out);
      AfterMore(s0, ops, i, raw);
      SeenMore(s0, ops, seen, out, raw);
      seen := seen + [out];
      i := i + 1;
    }
  }

  /** What has been seen is what the plain map shows. */
  ghost predicate SeenSoFar(s0: Plain, ops: seq<Op>, seen: seq<Option<Block>>, raw: imap<Addr, Block>) {
    |seen| <= |ops| && forall k :: 0 <= k < |seen| ==> seen[k] == Seen(After(s0, ops[..k], raw), ops[k], raw)
  }

  /** What the RAM disk holds matters in one step only, the one that ends the second level. */
  lemma ChooseRaw(s0: Plain, ops: seq<Op>, seen: seq<Option<Block>>, raw: imap<Addr, Block>, raw1: imap<Addr, Block>,
                  out: Option<Block>)
    returns (r: imap<Addr, Block>)
    requires |seen| < |ops| && SeenSoFar(s0, ops, seen, raw)
    ensures SeenSoFar(s0, ops, seen, r) && After(s0, ops[..|seen|], r) == After(s0, ops[..|seen|], raw)
    ensures var s, op := After(s0, ops[..|seen|], raw), ops[|seen|];
      Next(s, op, r) == Next(s, op, raw1) && Seen(s, op, r) == Seen(s, op, raw1)
  {
    var pre := ops[..|seen|];
    if After(s0, pre, raw).on {
      r := raw1;
      StillOn(s0, pre, raw, raw1);
      forall k | 0 <= k < |seen| ensures seen[k] == Seen(After(s0, ops[..k], raw1), ops[k], raw1) {
        assert pre[..k] == ops[..k] && pre[k] == ops[k];
        SeenOn(s0, pre, raw, raw1, k);
      }
    } else {
      r := raw;
    }
  }

  lemma AfterMore(s0: Plain, ops: seq<Op>, k: nat, raw: imap<Addr, Block>)
    requires k < |ops|
    ensures After(s0, ops[..k + 1], raw) == Next(After(s0, ops[..k], raw), ops[k], raw)
  {
    assert ops[..k + 1][..k] == ops[..k];
  }

  lemma SeenMore(s0: Plain, ops: seq<Op>, seen: seq<Option<Block>>, out: Option<Block>, raw: imap<Addr, Block>)
    requires |seen| < |ops| && SeenSoFar(s0, ops, seen, raw)
      && out == Seen(After(s0, ops[..|seen|], raw), ops[|seen|], raw)
    ensures SeenSoFar(s0, ops, seen + [out], raw)
  {
    var more := seen + [out];
    forall k | 0 <= k < |more| ensures more[k] == Seen(After(s0, ops[..k], raw), ops[k], raw) {
      if k < |seen| { assert more[k] == seen[k]; }
    }
  }

  method Step(c: Cache, op: Op, handles: seq<nat>, ghost s: Plain)
      returns (ok: bool, out: Option<Block>, h2: seq<nat>, ghost raw: imap<Addr, Block>)
    requires Represents(c, handles, s) && Legal(op) && c.nrBufs >= 6
    modifies c, c.l2
    ensures ok ==> Represents(c, h2, Next(s, op, raw)) && out == Seen(s, op, raw)
    ensures !ok ==> Represents(c, h2, s) && AllPinned(c.buf)
  {
    ok, out, h2, raw := true, None, handles, c.contents;
    match op
    case Get(dev, blk) => ok, out, h2, raw := StepGet(c, op, dev, blk, None, handles, s);
    case Ahead(dev, blk, blocks) => ok, out, h2, raw := StepGet(c, op, dev, blk, Some(blocks), handles, s);
    case GetNew(dev, blk, data) => ok, h2, raw := StepNew(c, dev, blk, data, handles, s);
    case GetZero =>
      var bp := DoGetZero(c, handles, s);
      ok, h2 := bp != NIL, if bp != NIL then handles + [bp] else handles;
    case Peek(h) =>
      if h < |handles| {
        HandlePinned(c, handles, s, h);
        out := Some(c.buf[handles[h]].data);
      }
    case Store(h, data) => DoStore(c, h, data, handles, s);
    case Put(h, oneShot, writeImmed) => h2 := DoPut(c, h, oneShot, writeImmed, handles, s);
    case Flush(dev) => DoFlush(c, dev, handles, s);
    case Purge(dev) => DoPurge(c, dev, handles, s);
  }

  method StepGet(c: Cache, op: Op, dev: nat, blk: nat, ahead: Option<nat>, handles: seq<nat>, ghost s: Plain)
    returns (ok: bool, out: Option<Block>, h2: seq<nat>, ghost raw: imap<Addr, Block>)
    requires Represents(c, handles, s) && Legal(op) && c.nrBufs >= 6
    requires op == if ahead == None then Get(dev, blk) else Ahead(dev, blk, ahead.value)
    modifies c, c.l2
    ensures ok ==> Represents(c, h2, Next(s, op, raw)) && out == Seen(s, op, raw)
    ensures !ok ==> Represents(c, h2, s) && AllPinned(c.buf)
  {
    var bp := DoGet(c, dev, blk, ahead, handles, s);
    ok, out, h2, raw := bp != NIL, None, handles, c.contents;
    if ok { h2, out := handles + [bp], Some(c.buf[bp].data); }
  }

  method StepNew(c: Cache, dev: nat, blk: nat, data: Block, handles: seq<nat>, ghost s: Plain)
    returns (ok: bool, h2: seq<nat>, ghost raw: imap<Addr, Block>)
    requires Represents(c, handles, s) && dev != NO_DEV
    modifies c, c.l2
    ensures ok ==> Represents(c, h2, Next(s, GetNew(dev, blk, data), raw))
    ensures !ok ==> Represents(c, h2, s) && AllPinned(c.buf)
  {
    var bp;
    bp, raw := DoGetNew(c, dev, blk, data, handles, s);
    ok, h2 := bp != NIL, if bp != NIL then handles + [bp] else handles;
  }
}
