/** The operations that move bytes between packet buffers: bf_memreq, bf_pack, bf_append and bf_align. */
module PacketOps {
  import opened Base
  import opened Lists
  import opened PacketHeap
  import opened PacketSteps
  import opened Packet

  /** No other accessor uses the buffers of the chain, and each slice starts its buffer. */
  ghost predicate Exclusive(h: Heap, ch: seq<nat>) {
    forall k :: 0 <= k < |ch| ==>
      ch[k] < |h.acc| && 0 <= h.acc[ch[k]].buffer < |h.link| &&
      h.link[h.acc[ch[k]].buffer] == 1 && h.acc[ch[k]].offset == 0
  }

  lemma {:induction false} CatSnoc(h: Heap, ch: seq<nat>, x: nat)
    ensures Cat(h, ch + [x]) == Cat(h, ch) + Slice(h, x)
  {
    if ch == [] {
      assert ch + [x] == [x] && Cat(h, []) == [];
      CatOne(h, x);
    } else {
      assert (ch + [x])[1..] == ch[1..] + [x];
      CatSnoc(h, ch[1..], x);
      assert Slice(h, ch[0]) + (Cat(h, ch[1..]) + Slice(h, x)) == Slice(h, ch[0]) + Cat(h, ch[1..]) + Slice(h, x);
    }
  }

  // ---------- bf_memreq ----------

  /** x is a new piece of `count` bytes in a buffer of its own; buffers in use keep their counts and all bytes stay. */
  ghost predicate Grabbed(h0: Heap, g0: Meaning, h1: Heap, g1: Meaning, x: nat, count: nat) {
    && Exclusive(h1, [x]) && h1.data == h0.data && |h1.link| == |h0.link|
    && (forall b :: 0 <= b < |h1.link| && h0.link[b] > 0 ==> h1.link[b] == h0.link[b])
    && exists bytes :: |bytes| == count && NewPiece(h0, g0, h1, g1, x, bytes)
  }

  /** Taking one free buffer. */
  method AllocOne(p: Pool, count: nat) returns (x: nat)
    requires p.Valid() && !p.panicked && count <= BUF_S
    modifies p
    ensures p.panicked ==> p.NoneLeft()
    ensures p.panicked <==> old(p.g).bufList == []
    ensures !p.panicked ==> p.Valid() && Grabbed(old(p.H()), old(p.g), p.H(), p.g, x, count)
  {
    NoneFree(p.H(), p.g);
    if p.bufFree == NIL {
      p.panicked := true;
      return 0;
    }
    x := TakeBuffer(p, count);
  }

  method TakeBuffer(p: Pool, count: nat) returns (x: nat)
    requires p.Valid() && count <= BUF_S && p.g.bufList != []
    modifies p`acc, p`link, p`bufFree, p`g
    ensures p.Valid() && Grabbed(old(p.H()), old(p.g), p.H(), p.g, x, count)
  {
    ghost var h0, g0 := p.H(), p.g;
    FreeBufferIsDead(h0, g0, count);
    AllocKeeps(h0, g0, p.bufFree, count);
    x := p.bufFree;
    var b := p.acc[x].buffer;
    p.bufFree := p.acc[x].next;
    p.acc := p.acc[x := Acc(1, 0, count, b, NIL)];
    p.link := p.link[b := 1];
    p.g := AllocMeaning(h0, g0, x, count);
    assert p.H() == AllocHeap(h0, x, count);
    AllocResult(h0, g0, x, count);
  }

  lemma AllocResult(h: Heap, g: Meaning, x: nat, count: nat)
    requires CanAlloc(h, g, x, count) && Inv(h, g)
    ensures var h1, g1 := AllocHeap(h, x, count), AllocMeaning(h, g, x, count);
      NewPiece(h, g, h1, g1, x, Slice(h1, x)) && |Slice(h1, x)| == count
  {
    var h1, g1 := AllocHeap(h, x, count), AllocMeaning(h, g, x, count);
    assert g.roots[x] == 0 by { assert h.acc[x].linkC == g.roots[x] + |Into(h, x)|; }
    assert |h1.data[h.acc[x].buffer]| == BUF_S;
  }

  /** bf_memreq: a fresh chain of exactly `size` bytes in buffers of its own. */
  method MemReq(p: Pool, size: nat) returns (head: nat, ghost ch: seq<nat>)
    requires p.Valid() && !p.panicked && size > 0
    modifies p
    ensures p.panicked ==> p.NoneLeft()
    ensures !p.panicked ==> p.Valid() && Building(old(p.H()), old(p.g), p.H(), p.g, ch) && head == ch[0]
    ensures !p.panicked ==> Exclusive(p.H(), ch) && |Seen(p.g.view, head)| == size && p.data == old(p.data)
    ensures !p.panicked && size <= BUF_S ==> |ch| == 1
  {
    ghost var h0, g0 := p.H(), p.g;
    var count := if BUF_S > size then size else BUF_S;
    head := AllocOne(p, count);
    ch := [head];
    if p.panicked { return; }
    ghost var bytes :| |bytes| == count && NewPiece(h0, g0, p.H(), p.g, head, bytes);
    FirstPiece(h0, g0, p.H(), p.g, head, bytes);
    var tail, left := head, size - count;
    while left > 0
      invariant !p.panicked && p.Valid() && Building(h0, g0, p.H(), p.g, ch) && head == ch[0]
      invariant tail == Last(ch) && 0 <= left && |Seen(p.g.view, head)| + left == size
      invariant Exclusive(p.H(), ch) == true && p.data == old(p.data)
      invariant size <= BUF_S ==> |ch| == 1 && left == 0
    {
      var n := if BUF_S > left then left else BUF_S;
      tail := AddBuffer(p, ch, tail, n, h0, g0);
      if p.panicked { return; }
      ch := ch + [tail];
      left := left - n;
    }
  }

  method AddBuffer(p: Pool, ghost ch: seq<nat>, tail: nat, n: nat, ghost h0: Heap, ghost g0: Meaning) returns (x: nat)
    requires p.Valid() && !p.panicked && Building(h0, g0, p.H(), p.g, ch) && tail == Last(ch) && n <= BUF_S
    requires Exclusive(p.H(), ch)
    modifies p
    ensures p.panicked ==> p.NoneLeft()
    ensures !p.panicked ==> p.Valid() && Building(h0, g0, p.H(), p.g, ch + [x]) && Exclusive(p.H(), ch + [x])
    ensures !p.panicked ==> |Seen(p.g.view, ch[0])| == |Seen(old(p.g).view, ch[0])| + n && p.data == old(p.data)
  {
    ghost var h1, g1 := p.H(), p.g;
    x := AllocOne(p, n);
    if !p.panicked {
      AttachGrabbed(p, ch, tail, x, n, h0, g0, h1, g1);
    }
  }

  method AttachGrabbed(p: Pool, ghost ch: seq<nat>, tail: nat, x: nat, ghost n: nat, ghost h0: Heap,
                       ghost g0: Meaning, ghost h1: Heap, ghost g1: Meaning)
    requires p.Valid() && Inv(h1, g1) && Building(h0, g0, h1, g1, ch) && Exclusive(h1, ch) && tail == Last(ch)
    requires Grabbed(h1, g1, p.H(), p.g, x, n)
    modifies p`acc, p`g
    ensures p.Valid() && Building(h0, g0, p.H(), p.g, ch + [x]) && Exclusive(p.H(), ch + [x])
    ensures |Seen(p.g.view, ch[0])| == |Seen(g1.view, ch[0])| + n
  {
    ghost var h2, g2 := p.H(), p.g;
    ghost var bytes :| |bytes| == n && NewPiece(h1, g1, h2, g2, x, bytes);
    PieceApart(h0, g0, h1, g1, h2, g2, ch, x, bytes);
    p.Attach(ch, tail, x);
    PieceAdded(h0, g0, h1, g1, h2, g2, p.H(), p.g, ch, x, bytes);
    ExclusiveAdded(h1, h2, p.H(), ch, x, g1, g2);
  }

  lemma ExclusiveAdded(h1: Heap, h2: Heap, h3: Heap, ch: seq<nat>, x: nat, g1: Meaning, g2: Meaning)
    requires Exclusive(h1, ch) && Exclusive(h2, [x]) && Untouched(h1, g1, h2, g2) && ch != [] && x < |h2.acc|
    requires forall k :: 0 <= k < |ch| ==> h1.acc[ch[k]].linkC > 0
    requires |h2.link| == |h1.link| && forall b :: 0 <= b < |h1.link| && h1.link[b] > 0 ==> h2.link[b] == h1.link[b]
    requires h3.link == h2.link && Last(ch) < |h2.acc| && h3.acc == h2.acc[Last(ch) := h2.acc[Last(ch)].(next := x)]
    ensures Exclusive(h3, ch + [x])
  {
    var c2 := ch + [x];
    forall k | 0 <= k < |c2| ensures c2[k] < |h3.acc| && 0 <= h3.acc[c2[k]].buffer < |h3.link| &&
      h3.link[h3.acc[c2[k]].buffer] == 1 && h3.acc[c2[k]].offset == 0
    {
      if k < |ch| { assert h2.acc[ch[k]] == h1.acc[ch[k]]; } else { assert [x][0] == x; }
    }
  }

  // ---------- copying, as in bf_pack ----------

  /** The chain still is what it was, but for the bytes in its own buffers. */
  ghost predicate Filling(h0: Heap, g0: Meaning, h: Heap, g: Meaning, ch: seq<nat>) {
    // "true ==" makes this one fact to prove, not one for each part.
    true == (
      && Owned(h, g, ch) && Exclusive(h, ch) && h.acc == h0.acc && h.link == h0.link && h.accFree == h0.accFree
      && h.bufFree == h0.bufFree && g.roots == g0.roots && |g.view| == |h.acc| && UntouchedBut(h0, g0, h, g, ch))
  }

  lemma BlitEdited(h: Heap, g: Meaning, h1: Heap, ch: seq<nat>, j: nat, at: nat, bytes: seq<byte>)
    requires Inv(h, g) && Owned(h, g, ch) && Exclusive(h, ch) && j < |ch| && at + |bytes| <= h.acc[ch[j]].length
    requires AccOk(h, g, ch[j]) && |h.data[h.acc[ch[j]].buffer]| == BUF_S && h.acc[Last(ch)].next == NIL
    requires h1 == h.(data := h.data[h.acc[ch[j]].buffer := Overwrite(h.data[h.acc[ch[j]].buffer], at, bytes)])
    ensures Edited(h, g, h1, ch)
  {
    forall k | 0 <= k < |ch| ensures h1.acc[ch[k]].offset + h1.acc[ch[k]].length <= BUF_S {
      assert AccOk(h, g, ch[k]);
    }
    var c := h.acc[ch[j]].buffer;
    assert forall b :: 0 <= b < |h.data| && h1.data[b] != h.data[b] ==> b == c;
    assert h.link[c] == 1 && exists k :: 0 <= k < |ch| && h.acc[ch[k]].buffer == c;
  }

  /** Writing into accessor j shows in accessor j alone. */
  lemma BlitSlices(h: Heap, g: Meaning, h1: Heap, ch: seq<nat>, j: nat, at: nat, bytes: seq<byte>)
    requires Inv(h, g) && Owned(h, g, ch) && Exclusive(h, ch) && j < |ch| && at + |bytes| <= h.acc[ch[j]].length
    requires AccOk(h, g, ch[j]) && |h.data[h.acc[ch[j]].buffer]| == BUF_S
    requires h1 == h.(data := h.data[h.acc[ch[j]].buffer := Overwrite(h.data[h.acc[ch[j]].buffer], at, bytes)])
    ensures Slice(h1, ch[j]) == Overwrite(Slice(h, ch[j]), at, bytes)
    ensures forall k :: 0 <= k < |ch| && k != j ==> Slice(h1, ch[k]) == Slice(h, ch[k])
  {
    forall k | 0 <= k < |ch| && k != j ensures Slice(h1, ch[k]) == Slice(h, ch[k]) {
      var b := h.acc[ch[j]].buffer;
      if h.acc[ch[k]].buffer == b {
        assert h.link[b] == |Users(h, b)| && ch[k] in Users(h, b) && ch[j] in Users(h, b);
        SoleMember(Users(h, b), ch[k], ch[j]);
      }
    }
  }

  /** memcpy into the buffer of an accessor of a fresh chain. */
  method Blit(p: Pool, ghost ch: seq<nat>, ghost j: nat, x: nat, at: nat, bytes: seq<byte>, ghost h0: Heap,
              ghost g0: Meaning)
    requires p.Valid() && Filling(h0, g0, p.H(), p.g, ch) && j < |ch| && x == ch[j] && p.acc[Last(ch)].next == NIL
    requires at + |bytes| <= p.acc[x].length
    modifies p`data, p`g
    ensures p.Valid() && Filling(h0, g0, p.H(), p.g, ch)
    ensures |Slice(old(p.H()), x)| == p.acc[x].length && Slice(p.H(), x) == Overwrite(Slice(old(p.H()), x), at, bytes)
    ensures forall k :: 0 <= k < |ch| && k != j ==> Slice(p.H(), ch[k]) == Slice(old(p.H()), ch[k])
  {
    ghost var h := p.H();
    assert AccOk(h, p.g, x) && |p.data[p.acc[x].buffer]| == BUF_S;
    p.data := p.data[p.acc[x].buffer := Overwrite(p.data[p.acc[x].buffer], at, bytes)];
    BlitEdited(h, p.g, p.H(), ch, j, at, bytes);
    EditResult(h, p.g, p.H(), ch);
    BlitSlices(h, p.g, p.H(), ch, j, at, bytes);
    p.g := EditMeaning(h, p.g, p.H(), ch);
    FillingStep(h0, g0, h, old(p.g), p.H(), p.g, ch);
  }

  lemma FillingStep(h0: Heap, g0: Meaning, h: Heap, g: Meaning, h1: Heap, g1: Meaning, ch: seq<nat>)
    requires Filling(h0, g0, h, g, ch) && Owned(h1, g1, ch) && UntouchedBut(h, g, h1, g1, ch)
    requires h1.acc == h.acc && h1.link == h.link && h1.accFree == h.accFree && h1.bufFree == h.bufFree
    requires g1.roots == Moved(g.roots, NIL, NIL) && |g1.view| == |g.view|
    ensures Filling(h0, g0, h1, g1, ch)
  {
  }

  lemma {:induction false} CatSplit(h: Heap, a: seq<nat>, b: seq<nat>)
    ensures Cat(h, a + b) == Cat(h, a) + Cat(h, b)
  {
    if a == [] {
      assert a + b == b;
    } else {
      assert (a + b)[1..] == a[1..] + b;
      CatSplit(h, a[1..], b);
      assert Slice(h, a[0]) + (Cat(h, a[1..]) + Cat(h, b)) == Slice(h, a[0]) + Cat(h, a[1..]) + Cat(h, b);
    }
  }

  lemma {:induction false} CatLength(h0: Heap, h1: Heap, ch: seq<nat>)
    requires forall k :: 0 <= k < |ch| ==> |Slice(h1, ch[k])| == |Slice(h0, ch[k])|
    ensures |Cat(h1, ch)| == |Cat(h0, ch)|
  {
    if ch != [] {
      CatLength(h0, h1, ch[1..]);
    }
  }

  /** `done` bytes have arrived: all of ch[..j] and `at` bytes of ch[j]. */
  ghost predicate ArrivedAt(h: Heap, ch: seq<nat>, j: nat, at: nat, v: seq<byte>, done: nat) {
    && j < |ch| && at <= |Slice(h, ch[j])| && done <= |v| && |Cat(h, ch)| == |v|
    && Cat(h, ch[..j]) + Slice(h, ch[j])[..at] == v[..done]
  }

  ghost predicate Arrived(h: Heap, ch: seq<nat>, j: nat, at: nat, v: seq<byte>, done: nat) {
    ArrivedAt(h, ch, j, at, v, done) == true
  }

  lemma ArrivedNext(h: Heap, ch: seq<nat>, j: nat, v: seq<byte>, done: nat)
    requires j < |ch| && Arrived(h, ch, j, |Slice(h, ch[j])|, v, done) && done < |v|
    ensures j + 1 < |ch| && Arrived(h, ch, j + 1, 0, v, done)
  {
    assert ch[..j + 1] == ch[..j] + [ch[j]];
    CatSnoc(h, ch[..j], ch[j]);
    assert Slice(h, ch[j])[..|Slice(h, ch[j])|] == Slice(h, ch[j]);
    assert ch[..j + 1] == ch || j + 1 < |ch|;
  }

  lemma ArrivedAll(h: Heap, ch: seq<nat>, j: nat, at: nat, v: seq<byte>)
    requires Arrived(h, ch, j, at, v, |v|)
    ensures Cat(h, ch) == v
  {
    assert ch == ch[..j] + ch[j..];
    CatSplit(h, ch[..j], ch[j..]);
    assert v[..|v|] == v;
    assert Cat(h, ch[j..]) == Slice(h, ch[j]) + Cat(h, ch[j..][1..]);
    assert (Cat(h, ch[..j]) + Slice(h, ch[j])[..at]) == Cat(h, ch)[..|v|];
  }

  lemma OverwritePrefix(s: seq<byte>, at: nat, bytes: seq<byte>)
    requires at + |bytes| <= |s|
    ensures |Overwrite(s, at, bytes)| == |s| && Overwrite(s, at, bytes)[..at + |bytes|] == s[..at] + bytes
  {
  }

  lemma PrefixGrows(a: seq<byte>, b: seq<byte>, v: seq<byte>, done: nat, bytes: seq<byte>)
    requires done + |bytes| <= |v| && a + b == v[..done] && bytes == v[done..done + |bytes|]
    ensures a + (b + bytes) == v[..done + |bytes|]
  {
    assert a + (b + bytes) == a + b + bytes;
  }

  lemma ArrivedStep(h: Heap, h1: Heap, ch: seq<nat>, j: nat, at: nat, v: seq<byte>, done: nat, bytes: seq<byte>,
                    next: nat, doneNext: nat)
    requires Arrived(h, ch, j, at, v, done) && next <= |Slice(h, ch[j])| && done <= doneNext <= |v|
    requires bytes == v[done..doneNext] && next == at + |bytes|
    requires Slice(h1, ch[j]) == Overwrite(Slice(h, ch[j]), at, bytes)
    requires forall k :: 0 <= k < |ch| && k != j ==> Slice(h1, ch[k]) == Slice(h, ch[k])
    ensures Arrived(h1, ch, j, next, v, doneNext)
  {
    OverwritePrefix(Slice(h, ch[j]), at, bytes);
    assert |Cat(h1, ch)| == |v| by { CatLength(h, h1, ch); }
    assert Cat(h1, ch[..j]) == Cat(h, ch[..j]) by { CatKept(h, h1, ch[..j]); }
    PrefixGrows(Cat(h, ch[..j]), Slice(h, ch[j])[..at], v, done, bytes);
  }

  /** The source position: what is visible from there on are the bytes still to copy. */
  ghost predicate SourceAt(h: Heap, g: Meaning, ch: seq<nat>, cur: int, offset: nat, v: seq<byte>, done: nat) {
    && Live(h, cur) && cur !in ch && |g.view| == |h.acc| && done <= |v|
    && offset <= h.acc[cur].length && offset <= |g.view[cur]| && g.view[cur][offset..] == v[done..]
  }

  ghost predicate Source(h: Heap, g: Meaning, ch: seq<nat>, cur: int, offset: nat, v: seq<byte>, done: nat) {
    SourceAt(h, g, ch, cur, offset, v, done) == true
  }

  lemma SourceNext(h: Heap, g: Meaning, ch: seq<nat>, cur: nat, v: seq<byte>, done: nat)
    requires Inv(h, g) && Owned(h, g, ch) && cur < |h.acc| && Source(h, g, ch, cur, h.acc[cur].length, v, done)
      && done < |v|
    ensures Source(h, g, ch, h.acc[cur].next, 0, v, done) && g.rank[h.acc[cur].next] < g.rank[cur]
  {
    assert AccOk(h, g, cur) && ViewOk(h, g, cur);
    OwnedOutside(h, g, ch, cur);
    assert g.view[cur][h.acc[cur].length..] == Seen(g.view, h.acc[cur].next);
  }

  lemma SourceStep(h: Heap, g: Meaning, ch: seq<nat>, cur: nat, offset: nat, v: seq<byte>, done: nat, n: nat,
                   next: nat, doneNext: nat)
    requires Inv(h, g) && Source(h, g, ch, cur, offset, v, done) && next == offset + n <= h.acc[cur].length
      && doneNext == done + n
    ensures doneNext <= |v| && Part(Slice(h, cur), offset, n) == v[done..doneNext]
    ensures Source(h, g, ch, cur, next, v, doneNext)
  {
    assert AccOk(h, g, cur) && ViewOk(h, g, cur);
    var w := g.view[cur];
    assert |w| - offset == |v| - done;
    assert w[offset..offset + n] == w[offset..][..n] && v[done..done + n] == v[done..][..n];
    assert w[offset + n..] == w[offset..][n..] && v[done + n..] == v[done..][n..];
  }

  /** The copy loop of bf_pack: all bytes of the chain at src end up in the fresh chain. */
  method CopyChain(p: Pool, src: nat, ghost ch: seq<nat>, head: nat, total: nat)
    requires p.Valid() && Owned(p.H(), p.g, ch) && Exclusive(p.H(), ch) && p.acc[Last(ch)].next == NIL && head == ch[0]
    requires Live(p.H(), src) && src !in ch && |p.g.view[src]| == |Cat(p.H(), ch)| == total
    modifies p`data, p`g
    ensures p.Valid() && Filling(old(p.H()), old(p.g), p.H(), p.g, ch)
    ensures Seen(p.g.view, head) == old(p.g).view[src]
  {
    ghost var h0, g0 := p.H(), p.g;
    ghost var v := p.g.view[src];
    ghost var j: nat, done: nat := 0, 0;
    var cur: int, srcAt: nat, dst: nat, dstAt: nat, size: nat := src, 0, head, 0, total;
    assert Cat(h0, ch[..0]) == [];
    assert AccOk(h0, g0, src);
    while size > 0
      invariant p.Valid() && Filling(h0, g0, p.H(), p.g, ch) && done + size == |v|
      invariant Source(h0, g0, ch, cur, srcAt, v, done)
      invariant Arrived(p.H(), ch, j, dstAt, v, done) && dst == ch[j]
    {
      var n;
      cur, srcAt, dst, dstAt, j, n, done := CopySome(p, ch, j, cur, srcAt, dst, dstAt, h0, g0, v, done);
      size := size - n;
    }
    ArrivedAll(p.H(), ch, j, dstAt, v);
    ChainView(p.H(), p.g, ch);
  }

  /** One block, after the steps to the next accessors on both sides. */
  method CopySome(p: Pool, ghost ch: seq<nat>, ghost j0: nat, cur0: nat, srcAt0: nat, dst0: nat, dstAt0: nat,
                  ghost h0: Heap, ghost g0: Meaning, ghost v: seq<byte>, ghost done: nat)
    returns (cur: nat, srcAt: nat, dst: nat, dstAt: nat, ghost j: nat, n: nat, ghost next: nat)
    requires p.Valid() && Inv(h0, g0) && Filling(h0, g0, p.H(), p.g, ch) && p.acc[Last(ch)].next == NIL && done < |v|
    requires Source(h0, g0, ch, cur0, srcAt0, v, done) && Arrived(p.H(), ch, j0, dstAt0, v, done) && dst0 == ch[j0]
    modifies p`data, p`g
    ensures p.Valid() && Filling(h0, g0, p.H(), p.g, ch) && n > 0 && next == done + n <= |v|
    ensures Source(h0, g0, ch, cur, srcAt, v, next) && Arrived(p.H(), ch, j, dstAt, v, next) && dst == ch[j]
  {
    cur, srcAt := MoreSource(p, ch, cur0, srcAt0, h0, g0, v, done);
    dst, dstAt, j := MoreRoom(p, ch, j0, dst0, dstAt0, h0, g0, v, done);
    n := p.acc[dst].length - dstAt;
    if n > p.acc[cur].length - srcAt { n := p.acc[cur].length - srcAt; }
    srcAt, dstAt, next := CopyBlock(p, ch, j, cur, srcAt, dst, dstAt, n, h0, g0, v, done);
  }

  /** The rounds of the copy loop that step to the next source accessor. */
  method MoreSource(p: Pool, ghost ch: seq<nat>, from: nat, at: nat, ghost h0: Heap, ghost g0: Meaning,
                    ghost v: seq<byte>, ghost done: nat)
    returns (cur: nat, srcAt: nat)
    requires Inv(h0, g0) && Owned(h0, g0, ch) && p.acc == h0.acc && Source(h0, g0, ch, from, at, v, done) && done < |v|
    ensures Source(h0, g0, ch, cur, srcAt, v, done) && srcAt < p.acc[cur].length
  {
    cur, srcAt := from, at;
    while srcAt == p.acc[cur].length
      invariant Source(h0, g0, ch, cur, srcAt, v, done)
      decreases g0.rank[cur]
    {
      SourceNext(h0, g0, ch, cur, v, done);
      srcAt, cur := 0, p.acc[cur].next;
    }
  }

  /** The rounds of the copy loop that step to the next fresh accessor. */
  method MoreRoom(p: Pool, ghost ch: seq<nat>, ghost i: nat, from: nat, at: nat, ghost h0: Heap, ghost g0: Meaning,
                  ghost v: seq<byte>, ghost done: nat)
    returns (dst: nat, dstAt: nat, ghost j: nat)
    requires p.Valid() && Filling(h0, g0, p.H(), p.g, ch) && Arrived(p.H(), ch, i, at, v, done) && from == ch[i]
      && done < |v|
    ensures Arrived(p.H(), ch, j, dstAt, v, done) && dst == ch[j] && dstAt < p.acc[dst].length
  {
    dst, dstAt, j := from, at, i;
    while dstAt == p.acc[dst].length
      invariant Arrived(p.H(), ch, j, dstAt, v, done) && dst == ch[j]
      decreases |ch| - j
    {
      NextFresh(h0, g0, p.H(), p.g, ch, j, dstAt, v, done);
      dstAt, dst, j := 0, p.acc[dst].next, j + 1;
    }
    SliceLength(p.H(), p.g, dst);
  }

  lemma NextFresh(h0: Heap, g0: Meaning, h: Heap, g: Meaning, ch: seq<nat>, j: nat, at: nat, v: seq<byte>, done: nat)
    requires Inv(h, g) && Filling(h0, g0, h, g, ch) && Arrived(h, ch, j, at, v, done) && at == h.acc[ch[j]].length
      && done < |v|
    ensures j + 1 < |ch| && h.acc[ch[j]].next == ch[j + 1] && Arrived(h, ch, j + 1, 0, v, done)
  {
    SliceLength(h, g, ch[j]);
    ArrivedNext(h, ch, j, v, done);
  }

  lemma SliceLength(h: Heap, g: Meaning, a: nat)
    requires Inv(h, g) && Live(h, a)
    ensures |Slice(h, a)| == h.acc[a].length
  {
    assert AccOk(h, g, a);
    assert |h.data[h.acc[a].buffer]| == BUF_S;
  }

  method CopyBlock(p: Pool, ghost ch: seq<nat>, ghost j: nat, cur: nat, srcAt: nat, dst: nat, dstAt: nat, n: nat,
                   ghost h0: Heap, ghost g0: Meaning, ghost v: seq<byte>, ghost done: nat)
    returns (srcNext: nat, dstNext: nat, ghost doneNext: nat)
    requires p.Valid() && Inv(h0, g0) && Filling(h0, g0, p.H(), p.g, ch) && p.acc[Last(ch)].next == NIL
    requires Source(h0, g0, ch, cur, srcAt, v, done) && Arrived(p.H(), ch, j, dstAt, v, done) && dst == ch[j]
    requires srcAt + n <= p.acc[cur].length && dstAt + n <= p.acc[dst].length
    modifies p`data, p`g
    ensures p.Valid() && Filling(h0, g0, p.H(), p.g, ch) && doneNext <= |v|
    ensures srcNext == srcAt + n && dstNext == dstAt + n && doneNext == done + n
    ensures Source(h0, g0, ch, cur, srcNext, v, doneNext) && Arrived(p.H(), ch, j, dstNext, v, doneNext)
  {
    srcNext, dstNext, doneNext := srcAt + n, dstAt + n, done + n;
    SourceStep(h0, g0, ch, cur, srcAt, v, done, n, srcNext, doneNext);
    ghost var h := p.H();
    var b, o := p.acc[cur].buffer, p.acc[cur].offset + srcAt;
    CopyBytes(h0, g0, h, p.g, ch, cur, srcAt, n, v[done..doneNext], b, o);
    var bytes := p.data[b][o..o + n];
    Blit(p, ch, j, dst, dstAt, bytes, h0, g0);
    ArrivedStep(h, p.H(), ch, j, dstAt, v, done, bytes, dstNext, doneNext);
  }

  lemma CopyBytes(h0: Heap, g0: Meaning, h: Heap, g: Meaning, ch: seq<nat>, cur: nat, at: nat, n: nat,
                  bytes: seq<byte>, b: int, o: nat)
    requires Inv(h, g) && Filling(h0, g0, h, g, ch) && Live(h0, cur) && cur !in ch && at + n <= h.acc[cur].length
    requires Part(Slice(h0, cur), at, n) == bytes && b == h.acc[cur].buffer && o == h.acc[cur].offset + at
    ensures 0 <= b < |h.data| && o + n <= |h.data[b]| && |bytes| == n && h.data[b][o..o + n] == bytes
  {
    assert AccOk(h, g, cur) && Slice(h, cur) == Slice(h0, cur);
    assert |h.data[b]| == BUF_S;
    SliceOfSlice(h.data[b], h.acc[cur], Slice(h, cur), at, bytes, o);
  }

  lemma SliceOfSlice(d: seq<byte>, x: Acc, slice: seq<byte>, at: nat, bytes: seq<byte>, o: int)
    requires x.offset + x.length <= |d| && slice == d[x.offset..x.offset + x.length]
    requires o == x.offset + at && at + |bytes| <= x.length && slice[at..at + |bytes|] == bytes
    ensures d[o..o + |bytes|] == bytes
  {
  }

  // ---------- bf_pack ----------

  /** bf_pack: the same bytes in buffers of their own; in one piece if they fit one buffer. */
  method Pack(p: Pool, a: int) returns (r: int)
    requires p.Valid() && !p.panicked
    requires a != NIL ==> 0 <= a < |p.acc| && a in p.g.roots && Live(p.H(), a) && |p.g.view[a]| > 0
    modifies p
    ensures p.panicked ==> p.NoneLeft()
    ensures a == NIL ==> r == NIL && !p.panicked && p.H() == old(p.H()) && p.g == old(p.g)
    ensures a != NIL && !p.panicked ==>
      p.Valid() && Result(old(p.H()), old(p.g), p.H(), p.g, Ref(a), r, old(p.g).view[a])
    ensures a != NIL && !p.panicked && |old(p.g).view[a]| <= BUF_S ==> Owned(p.H(), p.g, [r]) && p.acc[r].next == NIL
  {
    if a == NIL { return NIL; }
    assert AccOk(p.H(), p.g, a);
    if p.acc[a].next == NIL && p.acc[a].linkC == 1 && p.link[p.acc[a].buffer] == 1 {
      Alone(p.H(), p.g, a);
      return a;
    }
    r := Repack(p, a);
  }

  /** The part of bf_pack that copies. */
  method Repack(p: Pool, a: nat) returns (r: nat)
    requires p.Valid() && !p.panicked && a < |p.acc| && a in p.g.roots && Live(p.H(), a) && |p.g.view[a]| > 0
    modifies p
    ensures p.panicked ==> p.NoneLeft()
    ensures !p.panicked ==> p.Valid() && Result(old(p.H()), old(p.g), p.H(), p.g, multiset{a}, r, old(p.g).view[a])
    ensures !p.panicked && |old(p.g).view[a]| <= BUF_S ==> Owned(p.H(), p.g, [r]) && p.acc[r].next == NIL
  {
    var size := p.BufSize(a);
    ghost var h0, g0 := p.H(), p.g;
    ghost var ch;
    r, ch := MemReq(p, size);
    if !p.panicked {
      MoveInto(p, a, r, size, ch, h0, g0);
    }
  }

  /** Copying into the fresh chain and giving up the old reference. */
  method MoveInto(p: Pool, a: nat, head: nat, size: nat, ghost ch: seq<nat>, ghost h0: Heap, ghost g0: Meaning)
    requires p.Valid() && Inv(h0, g0) && Live(h0, a) && a in g0.roots
    requires Building(h0, g0, p.H(), p.g, ch) && Exclusive(p.H(), ch) && head == ch[0]
    requires |Seen(p.g.view, head)| == |g0.view[a]| == size
    modifies p`acc, p`link, p`data, p`accFree, p`bufFree, p`g
    ensures p.Valid() && Result(h0, g0, p.H(), p.g, multiset{a}, head, g0.view[a])
    ensures Owned(p.H(), p.g, ch) && p.acc[Last(ch)].next == NIL
  {
    ghost var h1, g1 := p.H(), p.g;
    ReadyToCopy(h0, g0, h1, g1, ch, a);
    CopyChain(p, a, ch, head, size);
    ReleaseSource(p, a, ch, h0, g0, h1, g1);
  }

  method ReleaseSource(p: Pool, a: nat, ghost ch: seq<nat>, ghost h0: Heap, ghost g0: Meaning, ghost h1: Heap,
                       ghost g1: Meaning)
    requires p.Valid() && Inv(h0, g0) && Building(h0, g0, h1, g1, ch) && Filling(h1, g1, p.H(), p.g, ch)
    requires a in g0.roots && a < |h0.acc| && Live(h0, a) && Seen(p.g.view, ch[0]) == g0.view[a]
    modifies p`acc, p`link, p`accFree, p`bufFree, p`g
    ensures p.Valid() && Result(h0, g0, p.H(), p.g, multiset{a}, ch[0], g0.view[a])
    ensures Owned(p.H(), p.g, ch) && p.acc[Last(ch)].next == NIL
  {
    ghost var h2, g2 := p.H(), p.g;
    p.Afree(a);
    PackResult(h0, g0, h1, g1, h2, g2, p.H(), p.g, ch, a);
  }

  lemma Alone(h: Heap, g: Meaning, a: nat)
    requires Inv(h, g) && a < |h.acc| && a in g.roots && h.acc[a].linkC == 1
    ensures Owned(h, g, [a]) && Result(h, g, h, g, multiset{a}, a, g.view[a])
  {
    assert h.acc[a].linkC == g.roots[a] + |Into(h, a)|;
    assert g.roots == g.roots - multiset{a} + multiset{a};
  }

  lemma ReadyToCopy(h0: Heap, g0: Meaning, h1: Heap, g1: Meaning, ch: seq<nat>, a: nat)
    requires Inv(h1, g1) && Building(h0, g0, h1, g1, ch) && Live(h0, a)
    ensures Live(h1, a) && a !in ch && g1.view[a] == Seen(g0.view, a) && |Cat(h1, ch)| == |Seen(g1.view, ch[0])|
  {
    ChainView(h1, g1, ch);
  }

  lemma PackResult(h0: Heap, g0: Meaning, h1: Heap, g1: Meaning, h2: Heap, g2: Meaning, h3: Heap, g3: Meaning,
                   ch: seq<nat>, a: nat)
    requires Inv(h0, g0) && Inv(h2, g2) && Inv(h3, g3) && Building(h0, g0, h1, g1, ch) && Filling(h1, g1, h2, g2, ch)
    requires Shrunk(h2, g2, h3, g3) && a in g0.roots && a < |h0.acc| && Live(h0, a)
    requires g3.roots == g2.roots - Ref(a) && Seen(g2.view, ch[0]) == g0.view[a]
    ensures Result(h0, g0, h3, g3, multiset{a}, ch[0], g0.view[a]) && Owned(h3, g3, ch) && h3.acc[Last(ch)].next == NIL
  {
    var held := g0.roots - multiset{a};
    assert g3.roots == held + multiset{ch[0]};
    assert ch[0] != a && !Live(h0, ch[0]);
    forall c | c in g3.roots ensures Seen(g3.view, c) == Seen(g2.view, c) {
      assert h3.acc[c].linkC == g3.roots[c] + |Into(h3, c)| && SameAcc(h2, g2, h3, g3, c);
    }
    forall c | c in held ensures Seen(g3.view, c) == Seen(g0.view, c) {
      assert c in g3.roots && c in g0.roots && h0.acc[c].linkC == g0.roots[c] + |Into(h0, c)|;
      assert c !in ch && h1.acc[c] == h0.acc[c];
    }
    OwnedAfter(h2, g2, h3, g3, ch);
  }
}
