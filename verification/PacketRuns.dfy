/**
 Whole runs of the buffer operations.  Clients work through references; the
 specification is a list of byte strings.  Whatever is shared underneath, every
 reference shows what its string says.
 */
module PacketRuns {
  import opened Base
  import opened Lists
  import opened PacketHeap
  import opened Packet
  import opened PacketOps
  import opened PacketResult

  datatype Op =
    | New(data: seq<byte>)                           // bf_memreq, and fill the buffers
    | Dup(h: nat)                                    // bf_dupacc
    | Free(h: nat)                                   // bf_afree
    | Cut(h: nat, start: nat, count: nat)            // bf_cut
    | DelHead(h: nat, start: nat)                    // bf_delhead
    | Append(h: nat, k: nat)                         // bf_append, the second reference behind the first
    | Pack(h: nat)                                   // bf_pack
    | Align(h: nat, size: nat, aligned: bool)        // bf_align

  /** What the clients must see to; they know the lengths. */
  predicate Doable(lengths: seq<nat>, op: Op) {
    match op
    case New(data) => data != []
    case Dup(h) => h < |lengths|
    case Free(h) => h < |lengths|
    case Cut(h, start, count) => h < |lengths| && start + count <= lengths[h]
    case DelHead(h, start) => h < |lengths| && start < lengths[h]
    case Append(h, k) => h < |lengths| && k < |lengths| && h != k
    case Pack(h) => h < |lengths| && lengths[h] > 0
    case Align(h, size, _) => h < |lengths| && lengths[h] > 0 && 0 < size <= BUF_S
  }

  function Sizes(held: seq<seq<byte>>): (lengths: seq<nat>)
    ensures |lengths| == |held| && forall k :: 0 <= k < |held| ==> lengths[k] == |held[k]|
  {
    seq(|held|, k requires 0 <= k < |held| => |held[k]|)
  }

  predicate CanDo(held: seq<seq<byte>>, op: Op) { Doable(Sizes(held), op) }

  /** The same operation on byte strings; one that cannot be done is not. */
  function Next(held: seq<seq<byte>>, op: Op): seq<seq<byte>> {
    if !CanDo(held, op) then held
    else match op
      case New(data) => held + [data]
      case Dup(h) => held + [held[h]]
      case Free(h) => Without(held, h)
      case Cut(h, start, count) => held + [held[h][start..start + count]]
      case DelHead(h, start) => held[h := held[h][start..]]
      case Append(h, k) => Without(held[h := held[h] + held[k]], k)
      case Pack(_) => held
      case Align(_, _, _) => held
  }

  function After(held: seq<seq<byte>>, ops: seq<Op>): seq<seq<byte>> {
    if ops == [] then held else Next(After(held, ops[..|ops| - 1]), ops[|ops| - 1])
  }

  lemma OneMore(held: seq<seq<byte>>, ops: seq<Op>, k: nat)
    requires k < |ops|
    ensures After(held, ops[..k + 1]) == Next(After(held, ops[..k]), ops[k])
  {
    assert ops[..k + 1][..k] == ops[..k];
  }

  /** The clients' references are these, and each shows its string. */
  ghost predicate Shows(g: Meaning, hs: seq<nat>, held: seq<seq<byte>>) {
    // "true ==" makes this one fact to prove, not one for each part.
    true == (|hs| == |held| && g.roots == multiset(hs) && forall k :: 0 <= k < |hs| ==> Seen(g.view, hs[k]) == held[k])
  }

  ghost predicate Holds(p: Pool, hs: seq<nat>, held: seq<seq<byte>>)
    reads p
  {
    p.Valid() && !p.panicked && Shows(p.g, hs, held)
  }

  // ---------- references and strings ----------

  /** A reference that is held leads to a live accessor, which shows the string. */
  lemma HeldLive(h: Heap, g: Meaning, hs: seq<nat>, held: seq<seq<byte>>, k: nat)
    requires Inv(h, g) && Shows(g, hs, held) && k < |hs|
    ensures hs[k] in g.roots && hs[k] < |h.acc| && Live(h, hs[k]) && hs[k] < |g.view| && g.view[hs[k]] == held[k]
  {
    assert hs[k] in multiset(hs);
    assert h.acc[hs[k]].linkC == g.roots[hs[k]] + |Into(h, hs[k])|;
  }

  lemma HandleGone(hs: seq<nat>, k: nat)
    requires k < |hs|
    ensures multiset(Without(hs, k)) == multiset(hs) - multiset{hs[k]}
  {
    assert hs == hs[..k] + [hs[k]] + hs[k + 1..];
  }

  lemma HandleSet(hs: seq<nat>, k: nat, r: nat)
    requires k < |hs|
    ensures multiset(hs[k := r]) == multiset(hs) - multiset{hs[k]} + multiset{r}
  {
  }

  lemma OthersHeld(hs: seq<nat>, k: nat, j: nat)
    requires k < |hs| && j < |hs| && j != k
    ensures hs[j] in multiset(hs) - multiset{hs[k]}
  {
    var rest, m := Without(hs, k), if j < k then j else j - 1;
    HandleGone(hs, k);
    assert rest[m] == hs[j];
    assert rest[m] in multiset(rest);
  }

  /** One reference more. */
  lemma Gained(g0: Meaning, g1: Meaning, hs: seq<nat>, held: seq<seq<byte>>, x: nat, bytes: seq<byte>)
    requires Shows(g0, hs, held) && CutAway(g0, g1, x, bytes)
    ensures Shows(g1, hs + [x], held + [bytes])
  {
    assert multiset(hs + [x]) == multiset(hs) + multiset{x};
    forall k | 0 <= k < |hs| ensures Seen(g1.view, hs[k]) == held[k] { assert hs[k] in multiset(hs); }
  }

  /** One reference gives way to another. */
  lemma Exchanged(h0: Heap, g0: Meaning, h1: Heap, g1: Meaning, hs: seq<nat>, held: seq<seq<byte>>, k: nat, r: nat,
                  bytes: seq<byte>)
    requires Shows(g0, hs, held) && k < |hs| && Result(h0, g0, h1, g1, multiset{hs[k]}, r, bytes)
    ensures Shows(g1, hs[k := r], held[k := bytes])
  {
    HandleSet(hs, k, r);
    forall j | 0 <= j < |hs| && j != k ensures Seen(g1.view, hs[j]) == held[j] { OthersHeld(hs, k, j); }
  }

  /** Two references give way to one. */
  lemma Joined(h0: Heap, g0: Meaning, h1: Heap, g1: Meaning, hs: seq<nat>, held: seq<seq<byte>>, h: nat, k: nat, r: nat)
    requires Shows(g0, hs, held) && h < |hs| && k < |hs| && h != k
    requires Result(h0, g0, h1, g1, Ref(hs[h]) + Ref(hs[k]), r, held[h] + held[k])
    ensures Shows(g1, Without(hs[h := r], k), Without(held[h := held[h] + held[k]], k))
  {
    var hs1, held1 := hs[h := r], held[h := held[h] + held[k]];
    var hs2, held2 := Without(hs1, k), Without(held1, k);
    JoinedHandles(hs, h, k, r);
    forall m | 0 <= m < |hs2| ensures Seen(g1.view, hs2[m]) == held2[m] {
      JoinedOne(h0, g0, h1, g1, hs, held, h, k, r, m);
    }
  }

  lemma JoinedOne(h0: Heap, g0: Meaning, h1: Heap, g1: Meaning, hs: seq<nat>, held: seq<seq<byte>>, h: nat, k: nat,
                  r: nat, m: nat)
    requires Shows(g0, hs, held) && h < |hs| && k < |hs| && h != k && m < |hs| - 1
    requires Result(h0, g0, h1, g1, Ref(hs[h]) + Ref(hs[k]), r, held[h] + held[k])
    ensures Seen(g1.view, Without(hs[h := r], k)[m]) == Without(held[h := held[h] + held[k]], k)[m]
  {
    var j := if m < k then m else m + 1;
    assert Without(hs[h := r], k)[m] == hs[h := r][j]
      && Without(held[h := held[h] + held[k]], k)[m] == held[h := held[h] + held[k]][j];
    if j != h { TwoGone(hs, h, k, j); }
  }

  lemma JoinedHandles(hs: seq<nat>, h: nat, k: nat, r: nat)
    requires h < |hs| && k < |hs| && h != k
    ensures multiset(Without(hs[h := r], k)) == multiset(hs) - (Ref(hs[h]) + Ref(hs[k])) + multiset{r}
  {
    TwoHeld(hs, h, k);
    HandleSet(hs, h, r);
    HandleGone(hs[h := r], k);
    JoinedRoots(multiset(hs), hs[h], hs[k], r);
  }

  lemma JoinedRoots(roots: multiset<nat>, a: nat, b: nat, r: nat)
    requires multiset{a} + multiset{b} <= roots
    ensures roots - (multiset{a} + multiset{b}) + multiset{r} == roots - multiset{a} + multiset{r} - multiset{b}
  {
  }

  lemma TwoGone(hs: seq<nat>, h: nat, k: nat, j: nat)
    requires h < |hs| && k < |hs| && j < |hs| && h != k && j != h && j != k
    ensures hs[j] in multiset(hs) - (Ref(hs[h]) + Ref(hs[k])) && Ref(hs[h]) + Ref(hs[k]) <= multiset(hs)
  {
    var rest := Without(hs, h);
    HandleGone(hs, h);
    var k1 := StaysAt(hs, h, k);
    var j1 := StaysAt(hs, h, j);
    OthersHeld(rest, k1, j1);
    TakeTwo(multiset(hs), hs[h], hs[k], hs[j]);
  }

  lemma StaysAt(hs: seq<nat>, h: nat, k: nat) returns (m: nat)
    requires h < |hs| && k < |hs| && h != k
    ensures m < |Without(hs, h)| && Without(hs, h)[m] == hs[k] && hs[k] in multiset(Without(hs, h))
    ensures m == if k < h then k else k - 1
  {
    m := if k < h then k else k - 1;
    assert Without(hs, h)[m] in multiset(Without(hs, h));
  }

  lemma TakeTwo(all: multiset<nat>, a: nat, b: nat, c: nat)
    requires a in all && b in all - multiset{a} && c in all - multiset{a} - multiset{b}
    ensures c in all - (Ref(a) + Ref(b)) && Ref(a) + Ref(b) <= all
  {
  }

  lemma TwoHeld(hs: seq<nat>, h: nat, k: nat)
    requires h < |hs| && k < |hs| && h != k
    ensures Ref(hs[h]) + Ref(hs[k]) <= multiset(hs)
  {
    HandleGone(hs, h);
    var k1 := StaysAt(hs, h, k);
  }

  /** One reference less. */
  lemma Lost(h0: Heap, g0: Meaning, h1: Heap, g1: Meaning, hs: seq<nat>, held: seq<seq<byte>>, k: nat)
    requires Inv(h1, g1) && Shows(g0, hs, held) && k < |hs| && Shrunk(h0, g0, h1, g1)
      && g1.roots == g0.roots - multiset{hs[k]}
    ensures Shows(g1, Without(hs, k), Without(held, k))
  {
    RootsShrunk(h0, g0, h1, g1);
    HandleLost(g0, g1, hs, held, k);
  }

  /** What every reference that is still held shows is what it showed. */
  ghost predicate SeenAlike(g0: Meaning, g1: Meaning) {
    true == (forall c {:trigger Seen(g1.view, c)} :: c in g1.roots ==> Seen(g1.view, c) == Seen(g0.view, c))
  }

  lemma RootsShrunk(h0: Heap, g0: Meaning, h1: Heap, g1: Meaning)
    requires Inv(h1, g1) && Shrunk(h0, g0, h1, g1)
    ensures SeenAlike(g0, g1)
  {
    forall c | c in g1.roots ensures Seen(g1.view, c) == Seen(g0.view, c) { RootShrunk(h0, g0, h1, g1, c); }
  }

  lemma HandleLost(g0: Meaning, g1: Meaning, hs: seq<nat>, held: seq<seq<byte>>, k: nat)
    requires Shows(g0, hs, held) && k < |hs| && SeenAlike(g0, g1) && g1.roots == g0.roots - multiset{hs[k]}
    ensures Shows(g1, Without(hs, k), Without(held, k))
  {
    HandleGone(hs, k);
    OneTaken(hs, k);
    OneTaken(held, k);
    StillShown(g0, g1, hs, held, k, Without(hs, k), Without(held, k));
  }

  /** r is s without its k-th element. */
  ghost predicate Taken<T>(s: seq<T>, k: nat, r: seq<T>) {
    true == (k < |s| == |r| + 1 && forall m :: 0 <= m < |r| ==> r[m] == s[if m < k then m else m + 1])
  }

  lemma OneTaken<T>(s: seq<T>, k: nat)
    requires k < |s|
    ensures Taken(s, k, Without(s, k))
  {
  }

  lemma StillShown(g0: Meaning, g1: Meaning, hs: seq<nat>, held: seq<seq<byte>>, k: nat, hs1: seq<nat>,
                   held1: seq<seq<byte>>)
    requires Shows(g0, hs, held) && SeenAlike(g0, g1) && g1.roots == multiset(hs1)
    requires Taken(hs, k, hs1) && Taken(held, k, held1)
    ensures Shows(g1, hs1, held1)
  {
    forall m | 0 <= m < |hs1| ensures Seen(g1.view, hs1[m]) == held1[m] {
      assert hs1[m] in multiset(hs1);
      assert Seen(g1.view, hs1[m]) == Seen(g0.view, hs1[m]);
    }
  }

  lemma Copied(h0: Heap, g0: Meaning, h1: Heap, g1: Meaning, d: nat, x: nat)
    requires Inv(h0, g0) && Duplicated(h0, g0, h1, g1, d, x)
    ensures CutAway(g0, g1, x, g0.view[d])
  {
    forall c | c in g0.roots ensures c != x && Seen(g1.view, c) == Seen(g0.view, c) {
      assert h0.acc[c].linkC == g0.roots[c] + |Into(h0, c)|;
    }
  }

  // ---------- filling a new chain ----------

  /** The client writes its data through the chain that bf_memreq has given it. */
  method FillChain(p: Pool, ghost ch: seq<nat>, head: nat, data: seq<byte>)
    requires p.Valid() && Owned(p.H(), p.g, ch) && Exclusive(p.H(), ch) && p.acc[Last(ch)].next == NIL && head == ch[0]
    requires |Cat(p.H(), ch)| == |data|
    modifies p`data, p`g
    ensures p.Valid() && Filling(old(p.H()), old(p.g), p.H(), p.g, ch) && Seen(p.g.view, head) == data
  {
    ghost var h0, g0 := p.H(), p.g;
    ghost var j: nat := 0;
    var dst: nat, dstAt: nat, done: nat := head, 0, 0;
    assert Cat(h0, ch[..0]) == [] && data[..0] == [];
    while done < |data|
      invariant p.Valid() && Filling(h0, g0, p.H(), p.g, ch) && done <= |data|
      invariant Arrived(p.H(), ch, j, dstAt, data, done) && dst == ch[j]
    {
      dst, dstAt, j, done := FillSome(p, ch, j, dst, dstAt, data, done, h0, g0);
    }
    AllFilled(h0, g0, p.H(), p.g, ch, j, dstAt, data);
  }

  lemma AllFilled(h0: Heap, g0: Meaning, h: Heap, g: Meaning, ch: seq<nat>, j: nat, at: nat, data: seq<byte>)
    requires Inv(h, g) && Filling(h0, g0, h, g, ch) && h.acc[Last(ch)].next == NIL
      && Arrived(h, ch, j, at, data, |data|)
    ensures Seen(g.view, ch[0]) == data
  {
    ArrivedAll(h, ch, j, at, data);
    ChainView(h, g, ch);
  }

  /** To the end of the next accessor that has room, or of the data. */
  method FillSome(p: Pool, ghost ch: seq<nat>, ghost i: nat, from: nat, at: nat, data: seq<byte>, done: nat,
                  ghost h0: Heap, ghost g0: Meaning)
    returns (dst: nat, dstAt: nat, ghost j: nat, doneNext: nat)
    requires p.Valid() && Filling(h0, g0, p.H(), p.g, ch) && p.acc[Last(ch)].next == NIL && done < |data|
    requires Arrived(p.H(), ch, i, at, data, done) && from == ch[i]
    modifies p`data, p`g
    ensures p.Valid() && Filling(h0, g0, p.H(), p.g, ch) && done < doneNext <= |data|
    ensures Arrived(p.H(), ch, j, dstAt, data, doneNext) && dst == ch[j]
  {
    var start: nat;
    dst, start, j := MoreRoom(p, ch, i, from, at, h0, g0, data, done);
    var room: nat := p.acc[dst].length - start;
    var n: nat := if room > |data| - done then |data| - done else room;
    dstAt, doneNext := start + n, done + n;
    FillBlock(p, ch, j, dst, start, dstAt, data, done, doneNext, h0, g0);
  }

  method FillBlock(p: Pool, ghost ch: seq<nat>, ghost j: nat, dst: nat, dstAt: nat, next: nat, data: seq<byte>,
                   done: nat, doneNext: nat, ghost h0: Heap, ghost g0: Meaning)
    requires p.Valid() && Filling(h0, g0, p.H(), p.g, ch) && p.acc[Last(ch)].next == NIL
    requires Arrived(p.H(), ch, j, dstAt, data, done) && dst == ch[j] && dstAt <= next <= p.acc[dst].length
    requires done <= doneNext <= |data| && doneNext - done == next - dstAt
    modifies p`data, p`g
    ensures p.Valid() && Filling(h0, g0, p.H(), p.g, ch) && Arrived(p.H(), ch, j, next, data, doneNext)
  {
    ghost var h := p.H();
    Blit(p, ch, j, dst, dstAt, data[done..doneNext], h0, g0);
    ArrivedStep(h, p.H(), ch, j, dstAt, data, done, data[done..doneNext], next, doneNext);
  }

  /** bf_memreq, and the data of the client in it. */
  method MakeNew(p: Pool, data: seq<byte>) returns (x: nat)
    requires p.Valid() && !p.panicked && data != []
    modifies p
    ensures p.panicked ==> p.NoneLeft()
    ensures !p.panicked ==> p.Valid() && CutAway(old(p.g), p.g, x, data)
  {
    ghost var ch;
    x, ch := MemReq(p, |data|);
    if !p.panicked { FillNew(p, ch, x, data, old(p.H()), old(p.g)); }
  }

  method FillNew(p: Pool, ghost ch: seq<nat>, x: nat, data: seq<byte>, ghost h0: Heap, ghost g0: Meaning)
    requires p.Valid() && Inv(h0, g0) && Building(h0, g0, p.H(), p.g, ch) && Exclusive(p.H(), ch) && x == ch[0]
      && |Seen(p.g.view, x)| == |data|
    modifies p`data, p`g
    ensures p.Valid() && CutAway(g0, p.g, x, data)
  {
    ghost var h1, g1 := p.H(), p.g;
    ChainView(h1, g1, ch);
    FillChain(p, ch, x, data);
    FilledAway(h0, g0, h1, g1, p.H(), p.g, ch, x, data);
  }

  lemma FilledAway(h0: Heap, g0: Meaning, h1: Heap, g1: Meaning, h2: Heap, g2: Meaning, ch: seq<nat>, x: nat,
                   data: seq<byte>)
    requires Inv(h0, g0) && Building(h0, g0, h1, g1, ch) && Filling(h1, g1, h2, g2, ch) && x == ch[0]
      && Seen(g2.view, x) == data
    ensures CutAway(g0, g2, x, data)
  {
    forall c | c in g0.roots ensures c != x && Seen(g2.view, c) == Seen(g0.view, c) {
      assert h0.acc[c].linkC == g0.roots[c] + |Into(h0, c)|;
      assert c !in ch && h1.acc[c] == h0.acc[c];
    }
  }

  // ---------- runs ----------

  /** The operations that give a client one more reference. */
  method StepMore(p: Pool, op: Op, hs: seq<nat>, ghost held: seq<seq<byte>>) returns (hs1: seq<nat>)
    requires Holds(p, hs, held) && CanDo(held, op) && (op.New? || op.Dup? || op.Cut?)
    modifies p
    ensures p.panicked ==> p.NoneLeft()
    ensures !p.panicked ==> Holds(p, hs1, Next(held, op))
  {
    ghost var g0 := p.g;
    var x: int;
    match op {
      case New(data) => x := MakeNew(p, data);
      case Dup(h) => x := StepDup(p, hs[h], hs, held, h);
      case Cut(h, start, count) => x := StepCut(p, hs[h], start, count, hs, held, h);
    }
    hs1 := hs;
    if !p.panicked {
      Gained(g0, p.g, hs, held, x, MoreBytes(held, op));
      hs1 := hs + [x];
    }
  }

  /** What the new reference shows. */
  ghost function MoreBytes(held: seq<seq<byte>>, op: Op): (bytes: seq<byte>)
    requires CanDo(held, op) && (op.New? || op.Dup? || op.Cut?)
    ensures Next(held, op) == held + [bytes]
  {
    match op
    case New(data) => data
    case Dup(h) => held[h]
    case Cut(h, start, count) => held[h][start..start + count]
  }

  method StepDup(p: Pool, a: nat, ghost hs: seq<nat>, ghost held: seq<seq<byte>>, ghost h: nat) returns (x: nat)
    requires Holds(p, hs, held) && h < |held| && h < |hs| && a == hs[h]
    modifies p
    ensures p.panicked ==> p.NoneLeft()
    ensures !p.panicked ==> p.Valid() && CutAway(old(p.g), p.g, x, held[h])
  {
    ghost var h0, g0 := p.H(), p.g;
    HeldLive(h0, g0, hs, held, h);
    x := p.DupAcc(a);
    if !p.panicked { Copied(h0, g0, p.H(), p.g, a, x); }
  }

  method StepCut(p: Pool, a: nat, start: nat, count: nat, ghost hs: seq<nat>, ghost held: seq<seq<byte>>,
                 ghost h: nat) returns (x: int)
    requires Holds(p, hs, held) && h < |held| && h < |hs| && a == hs[h] && start + count <= |held[h]|
    modifies p
    ensures p.panicked ==> p.NoneLeft()
    ensures !p.panicked ==> p.Valid() && x >= 0 && CutAway(old(p.g), p.g, x, held[h][start..start + count])
  {
    ghost var h0, g0 := p.H(), p.g;
    HeldLive(h0, g0, hs, held, h);
    x := p.Cut(a, start, count);
    if !p.panicked {
      ghost var ch :| Building(h0, g0, p.H(), p.g, ch) && ch[0] == x;
      CutRoots(h0, g0, p.H(), p.g, ch, x, held[h][start..start + count]);
    }
  }

  /** The operations that exchange one reference for another with the same or fewer bytes. */
  method StepSame(p: Pool, op: Op, hs: seq<nat>, ghost held: seq<seq<byte>>) returns (hs1: seq<nat>)
    requires Holds(p, hs, held) && CanDo(held, op) && (op.DelHead? || op.Pack? || op.Align?)
    modifies p
    ensures p.panicked ==> p.NoneLeft()
    ensures !p.panicked ==> Holds(p, hs1, Next(held, op))
  {
    ghost var h0, g0 := p.H(), p.g;
    HeldLive(h0, g0, hs, held, op.h);
    var r: int;
    match op {
      case DelHead(h, start) => r := p.DelHead(hs[h], start);
      case Pack(h) => r := PacketOps.Pack(p, hs[h]);
      case Align(h, size, aligned) => r := PacketResult.Align(p, hs[h], size, aligned);
    }
    hs1 := hs;
    if !p.panicked {
      Exchanged(h0, g0, p.H(), p.g, hs, held, op.h, r, SameBytes(held, op));
      hs1 := hs[op.h := r];
    }
  }

  /** What the exchanged reference shows. */
  ghost function SameBytes(held: seq<seq<byte>>, op: Op): (bytes: seq<byte>)
    requires CanDo(held, op) && (op.DelHead? || op.Pack? || op.Align?)
    ensures Next(held, op) == held[op.h := bytes]
  {
    if op.DelHead? then held[op.h][op.start..] else held[op.h]
  }

  method StepAppend(p: Pool, h: nat, k: nat, hs: seq<nat>, ghost held: seq<seq<byte>>) returns (hs1: seq<nat>)
    requires Holds(p, hs, held) && CanDo(held, Append(h, k))
    modifies p
    ensures p.panicked ==> p.NoneLeft()
    ensures !p.panicked ==> Holds(p, hs1, Next(held, Append(h, k)))
  {
    ghost var h0, g0 := p.H(), p.g;
    assert Next(held, Append(h, k)) == Without(held[h := held[h] + held[k]], k);
    TwoHeld(hs, h, k);
    var r := PacketResult.Append(p, hs[h], hs[k]);
    hs1 := hs;
    if !p.panicked {
      Joined(h0, g0, p.H(), p.g, hs, held, h, k, r);
      hs1 := Without(hs[h := r], k);
    }
  }

  method StepFree(p: Pool, h: nat, hs: seq<nat>, ghost held: seq<seq<byte>>) returns (hs1: seq<nat>)
    requires Holds(p, hs, held) && h < |hs|
    modifies p`acc, p`link, p`accFree, p`bufFree, p`g
    ensures Holds(p, hs1, Next(held, Free(h)))
  {
    ghost var h0, g0 := p.H(), p.g;
    HeldLive(h0, g0, hs, held, h);
    p.Afree(hs[h]);
    Lost(h0, g0, p.H(), p.g, hs, held, h);
    hs1 := Without(hs, h);
  }

  method Step(p: Pool, op: Op, hs: seq<nat>, ghost held: seq<seq<byte>>) returns (hs1: seq<nat>)
    requires Holds(p, hs, held) && CanDo(held, op)
    modifies p
    ensures p.panicked ==> p.NoneLeft()
    ensures !p.panicked ==> Holds(p, hs1, Next(held, op))
  {
    match op
    case New(_) => hs1 := StepMore(p, op, hs, held);
    case Dup(_) => hs1 := StepMore(p, op, hs, held);
    case Cut(_, _, _) => hs1 := StepMore(p, op, hs, held);
    case Free(h) => hs1 := StepFree(p, h, hs, held);
    case Append(h, k) => hs1 := StepAppend(p, h, k, hs, held);
    case _ => hs1 := StepSame(p, op, hs, held);
  }

  /** The lengths, as bf_bufsize tells them. */
  method Lengths(p: Pool, hs: seq<nat>, ghost held: seq<seq<byte>>) returns (lengths: seq<nat>)
    requires Holds(p, hs, held)
    ensures lengths == Sizes(held)
  {
    lengths := [];
    for k := 0 to |hs|
      invariant |lengths| == k && forall j :: 0 <= j < k ==> lengths[j] == |held[j]|
    {
      HeldLive(p.H(), p.g, hs, held, k);
      var n := p.BufSize(hs[k]);
      lengths := lengths + [n];
    }
  }

  method TryStep(p: Pool, op: Op, hs: seq<nat>, ghost held: seq<seq<byte>>) returns (hs1: seq<nat>)
    requires Holds(p, hs, held)
    modifies p
    ensures p.panicked ==> p.NoneLeft()
    ensures !p.panicked ==> Holds(p, hs1, Next(held, op))
  {
    var lengths := Lengths(p, hs, held);
    hs1 := hs;
    if Doable(lengths, op) { hs1 := Step(p, op, hs, held); }
  }

  /**
   Every run of the buffer operations on a new pool keeps the counts exact and
   shows in every reference the bytes that the same operations on strings
   give.  It ends early only in the panic with an empty free list.
   */
  method Run(p: Pool, ops: seq<Op>) returns (done: nat, hs: seq<nat>)
    requires p.Valid() && !p.panicked && p.g.roots == multiset{}
    modifies p
    ensures done <= |ops| && (done < |ops| <==> p.panicked) && (p.panicked ==> p.NoneLeft())
    ensures !p.panicked ==> Holds(p, hs, After([], ops))
  {
    done, hs := 0, [];
    ghost var held: seq<seq<byte>> := [];
    assert ops[..0] == [] && Shows(p.g, hs, held);
    while done < |ops|
      invariant 0 <= done <= |ops| && Holds(p, hs, held) && held == After([], ops[..done])
    {
      hs := TryStep(p, ops[done], hs, held);
      if p.panicked { return; }
      OneMore([], ops, done);
      held := Next(held, ops[done]);
      done := done + 1;
    }
    assert ops[..|ops|] == ops;
  }
}
