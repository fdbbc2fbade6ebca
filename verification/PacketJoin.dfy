/** bf_append, completed: the merge in a fresh buffer, and the three ways in which it can end. */
module PacketJoin {
  import opened Base
  import opened Lists
  import opened PacketHeap
  import opened PacketSteps
  import opened Packet
  import opened PacketOps
  import opened PacketAppend
  import opened PacketMerge

  // ---------- exchanging two unlinked accessors ----------

  /** tmp_acc = *t; *t = *x; *x = tmp_acc, for two accessors that end their chains. */
  ghost predicate CanSwap(h: Heap, g: Meaning, ch: seq<nat>, x: nat) {
    && Owned(h, g, ch) && Owned(h, g, [x]) && x !in ch && x < |h.acc|
    && h.acc[Last(ch)].next == NIL && h.acc[x].next == NIL
  }

  ghost function SwapHeap(h: Heap, t: nat, x: nat): Heap
    requires t < |h.acc| && x < |h.acc|
  {
    h.(acc := h.acc[t := h.acc[x]][x := h.acc[t]])
  }

  ghost function SwapMeaning(h: Heap, g: Meaning, ch: seq<nat>, x: nat): Meaning
    requires Sizes(h, g) && CanSwap(h, g, ch, x)
  {
    var h1 := SwapHeap(h, Last(ch), x);
    g.(view := ReView(h1, g.view[x := Slice(h1, x)], ch))
  }

  lemma WithoutTwo(s: set<nat>, t: nat, x: nat)
    requires t != x
    ensures |s| == |s - {t, x}| + (if t in s then 1 else 0) + (if x in s then 1 else 0)
  {
    assert s - {t} - {x} == s - {t, x};
    assert |s - {t}| == |s| - if t in s then 1 else 0;
    assert |s - {t} - {x}| == |s - {t}| - if x in s - {t} then 1 else 0;
  }

  lemma SameSize(a: set<nat>, b: set<nat>, t: nat, x: nat)
    requires t != x && a - {t, x} == b - {t, x} && (t in a <==> x in b) && (x in a <==> t in b)
    ensures |a| == |b|
  {
    WithoutTwo(a, t, x);
    WithoutTwo(b, t, x);
  }

  lemma UsersMoved(h: Heap, h1: Heap, t: nat, x: nat, b: int)
    requires t < |h.acc| && x < |h.acc| && t != x && h1 == SwapHeap(h, t, x) && h.acc[t].linkC > 0 && h.acc[x].linkC > 0
    ensures |Users(h1, b)| == |Users(h, b)|
  {
    assert forall p :: p in Users(h1, b) - {t, x} <==> p in Users(h, b) - {t, x};
    SameSize(Users(h, b), Users(h1, b), t, x);
  }

  lemma SwapCounts(h: Heap, g: Meaning, ch: seq<nat>, x: nat)
    requires Sizes(h, g) && CanSwap(h, g, ch, x) && Counts(h, g)
    ensures Counts(SwapHeap(h, Last(ch), x), SwapMeaning(h, g, ch, x))
  {
    var h1 := SwapHeap(h, Last(ch), x);
    assert [x][0] == x;
    forall a | 0 <= a < |h1.acc| ensures h1.acc[a].linkC == g.roots[a] + |Into(h1, a)| {
      assert Into(h1, a) == Into(h, a);
    }
    forall b | 0 <= b < |h1.link| ensures h1.link[b] == |Users(h1, b)| {
      UsersMoved(h, h1, Last(ch), x, b);
    }
  }

  lemma SwapFree(h: Heap, g: Meaning, ch: seq<nat>, x: nat)
    requires Sizes(h, g) && CanSwap(h, g, ch, x) && FreeLists(h, g)
    ensures FreeLists(SwapHeap(h, Last(ch), x), SwapMeaning(h, g, ch, x))
  {
    var h1 := SwapHeap(h, Last(ch), x);
    assert [x][0] == x;
    KeepFree(h.acc, h1.acc, h.accFree, g.accList);
    KeepFree(h.acc, h1.acc, h.bufFree, g.bufList);
    SameBuffers(h, h1, g.bufList);
  }

  lemma SwapChain(h: Heap, g: Meaning, ch: seq<nat>, x: nat)
    requires Sizes(h, g) && CanSwap(h, g, ch, x)
    ensures var h1 := SwapHeap(h, Last(ch), x);
      (forall j :: 0 <= j < |ch| - 1 ==> h1.acc[ch[j]].next == ch[j + 1]) && h1.acc[Last(ch)].next == NIL
    ensures Owned(SwapHeap(h, Last(ch), x), g, ch)
  {
    var h1 := SwapHeap(h, Last(ch), x);
    assert [x][0] == x;
    forall j | 0 <= j < |ch| - 1 ensures h1.acc[ch[j]].next == ch[j + 1] {
      assert h.acc[ch[j]].next == ch[j + 1] && ch[j] != Last(ch);
    }
  }

  lemma SwapViews(h: Heap, g: Meaning, ch: seq<nat>, x: nat)
    requires Inv(h, g) && CanSwap(h, g, ch, x)
    ensures var h1, g1 := SwapHeap(h, Last(ch), x), SwapMeaning(h, g, ch, x);
      Sizes(h1, g1) && Shape(h1, g1) && Views(h1, g1)
  {
    var h1, g1 := SwapHeap(h, Last(ch), x), SwapMeaning(h, g, ch, x);
    SwapChain(h, g, ch, x);
    assert [x][0] == x;
    forall a | 0 <= a < |h1.acc| && h1.acc[a].linkC > 0 ensures AccOk(h1, g1, a) && ViewOk(h1, g1, a) {
      assert AccOk(h, g, Last(ch)) && AccOk(h, g, x);
      if a in ch {
        var k :| 0 <= k < |ch| && ch[k] == a;
        assert AccOk(h, g, a);
        ReViewOk(h1, g.view[x := Slice(h1, x)], ch, k);
      } else {
        SwapViewOther(h, g, ch, x, a);
      }
    }
  }

  lemma SwapViewOther(h: Heap, g: Meaning, ch: seq<nat>, x: nat, a: nat)
    requires Inv(h, g) && CanSwap(h, g, ch, x) && Live(h, a) && a !in ch && AccOk(h, g, Last(ch)) && AccOk(h, g, x)
    ensures var h1, g1 := SwapHeap(h, Last(ch), x), SwapMeaning(h, g, ch, x);
      && AccOk(h1, g1, a) && ViewOk(h1, g1, a)
      && (a != x ==> h1.acc[a] == h.acc[a] && g1.view[a] == g.view[a])
  {
    var h1 := SwapHeap(h, Last(ch), x);
    var v := g.view[x := Slice(h1, x)];
    assert [x][0] == x;
    assert AccOk(h, g, a) && ViewOk(h, g, a);
    OwnedOutside(h, g, ch, a);
    ReViewFrame(h1, v, ch, a);
    ReViewFrame(h1, v, ch, h1.acc[a].next);
    if a != x {
      OwnedOutside(h, g, [x], a);
      assert h.acc[a].next != x;
    }
  }

  /** The last accessor of the chain and x have traded places. */
  ghost predicate Swapped(h: Heap, g: Meaning, h1: Heap, g1: Meaning, ch: seq<nat>, x: nat) {
    // "true ==" makes this one fact to prove, not one for each part.
    true == (
      && Owned(h1, g1, ch) && Owned(h1, g1, [x]) && SurvivorsBut(h, g, h1, g1, ch + [x]) && |h1.acc| == |h.acc|
      && g1.roots == g.roots && h1.acc[Last(ch)].next == NIL)
  }

  lemma SwapKeeps(h: Heap, g: Meaning, ch: seq<nat>, x: nat)
    requires Inv(h, g) && CanSwap(h, g, ch, x)
    ensures Inv(SwapHeap(h, Last(ch), x), SwapMeaning(h, g, ch, x))
  {
    SwapCounts(h, g, ch, x);
    SwapFree(h, g, ch, x);
    SwapViews(h, g, ch, x);
  }

  lemma SwapResult(h: Heap, g: Meaning, ch: seq<nat>, x: nat)
    requires Inv(h, g) && CanSwap(h, g, ch, x)
    ensures Swapped(h, g, SwapHeap(h, Last(ch), x), SwapMeaning(h, g, ch, x), ch, x)
  {
    var h1, g1 := SwapHeap(h, Last(ch), x), SwapMeaning(h, g, ch, x);
    SwapChain(h, g, ch, x);
    assert [x][0] == x;
    forall a | 0 <= a < |h1.acc| && a !in ch + [x] && h1.acc[a].linkC > 0
      ensures h.acc[a].linkC > 0 && SameAcc(h, g, h1, g1, a) {
      assert a !in ch && a != x;
      assert AccOk(h, g, Last(ch)) && AccOk(h, g, x);
      SwapViewOther(h, g, ch, x, a);
    }
  }

  lemma SwapCat(h: Heap, g: Meaning, ch: seq<nat>, x: nat)
    requires Sizes(h, g) && CanSwap(h, g, ch, x)
    ensures Cat(SwapHeap(h, Last(ch), x), ch) == Cat(h, ch[..|ch| - 1]) + Slice(h, x)
  {
    var h1 := SwapHeap(h, Last(ch), x);
    var init := ch[..|ch| - 1];
    CatInit(h1, ch);
    forall k | 0 <= k < |init| ensures Slice(h1, init[k]) == Slice(h, init[k]) {
      assert init[k] == ch[k] && ch[k] != Last(ch) && ch[k] != x;
    }
    CatKept(h, h1, init);
    assert Slice(h1, Last(ch)) == Slice(h, x);
  }

  lemma SwapView(h: Heap, g: Meaning, ch: seq<nat>, x: nat)
    requires Inv(h, g) && CanSwap(h, g, ch, x)
    ensures SwapMeaning(h, g, ch, x).view[ch[0]] == Cat(h, ch[..|ch| - 1]) + Slice(h, x)
  {
    var h1 := SwapHeap(h, Last(ch), x);
    SwapChain(h, g, ch, x);
    SwapCat(h, g, ch, x);
    ReViewCat(h1, g.view[x := Slice(h1, x)], ch);
  }

  // ---------- in a fresh buffer ----------

  /** x shows the last bytes of ch followed by those of second, from a buffer of its own. */
  ghost predicate FreshAt(h0: Heap, g0: Meaning, h: Heap, g: Meaning, ch: seq<nat>, x: nat, second: nat)
    requires ch != []
  {
    && Owned(h, g, [x]) && h.acc[x].next == NIL && !Live(h0, x) && |g.view| == |h.acc| == |h0.acc|
    && g.roots == g0.roots + multiset{x} && Untouched(h0, g0, h, g)
    && Slice(h, x) == Slice(h0, Last(ch)) + Slice(h0, second)
  }

  ghost predicate Fresh(h0: Heap, g0: Meaning, h: Heap, g: Meaning, ch: seq<nat>, x: nat, second: nat)
    requires ch != []
  {
    FreshAt(h0, g0, h, g, ch, x, second) == true
  }

  lemma FreshResult(h0: Heap, g0: Meaning, h1: Heap, g1: Meaning, h4: Heap, g4: Meaning, ch: seq<nat>, x: nat,
                    second: nat)
    requires Building(h0, g0, h1, g1, [x]) && Filling(h1, g1, h4, g4, [x]) && ch != []
    requires Slice(h4, x) == Slice(h0, Last(ch)) + Slice(h0, second)
    ensures Fresh(h0, g0, h4, g4, ch, x, second)
  {
    assert [x][0] == x;
    forall a | 0 <= a < |h0.acc| && h0.acc[a].linkC > 0
      ensures h4.acc[a] == h0.acc[a] && Seen(g4.view, a) == Seen(g0.view, a) && Slice(h4, a) == Slice(h0, a)
    {
      assert a !in [x] && h1.acc[a] == h0.acc[a];
    }
  }

  /** The bytes an accessor shows, read from its buffer. */
  method ReadSlice(p: Pool, a: nat) returns (bytes: seq<byte>)
    requires p.Valid() && Live(p.H(), a)
    ensures bytes == Slice(p.H(), a) && |bytes| == p.acc[a].length
  {
    assert AccOk(p.H(), p.g, a);
    SliceLength(p.H(), p.g, a);
    bytes := p.data[p.acc[a].buffer][p.acc[a].offset..p.acc[a].offset + p.acc[a].length];
  }

  lemma ReadyToFill(h0: Heap, g0: Meaning, h: Heap, g: Meaning, ch: seq<nat>, total: nat)
    requires Inv(h, g) && Building(h0, g0, h, g, ch) && Exclusive(h, ch) && |ch| == 1 && |Seen(g.view, ch[0])| == total
    ensures Filling(h, g, h, g, [ch[0]]) && Building(h0, g0, h, g, [ch[0]]) && h.acc[ch[0]].length == total
      && |Slice(h, ch[0])| == total
  {
    assert ch == [ch[0]];
    assert ViewOk(h, g, ch[0]);
    SliceLength(h, g, ch[0]);
  }

  /** The two copy loops of bf_append; a total that fits one buffer needs one block each. */
  method CopyBoth(p: Pool, ghost ch: seq<nat>, tail: nat, second: nat) returns (x: nat)
    requires p.Valid() && !p.panicked && ch != [] && tail == Last(ch) && Live(p.H(), tail) && Live(p.H(), second)
    requires 0 < p.acc[tail].length + p.acc[second].length <= BUF_S
    modifies p
    ensures p.panicked ==> p.NoneLeft()
    ensures !p.panicked ==> p.Valid() && Fresh(old(p.H()), old(p.g), p.H(), p.g, ch, x, second)
  {
    ghost var h0, g0 := p.H(), p.g;
    var a := ReadSlice(p, tail);
    var b := ReadSlice(p, second);
    x := OneBuffer(p, |a| + |b|);
    if !p.panicked {
      ghost var h1, g1 := p.H(), p.g;
      FillBoth(p, x, a, b);
      FreshResult(h0, g0, h1, g1, p.H(), p.g, ch, x, second);
    }
  }

  /** x is a chain of one accessor with a buffer of its own, ready to take `size` bytes. */
  ghost predicate Single(h0: Heap, g0: Meaning, h: Heap, g: Meaning, x: nat, size: nat) {
    && Building(h0, g0, h, g, [x]) && Filling(h, g, h, g, [x]) && x < |h.acc| && h.acc[x].length == size
  }

  /** A request that fits one buffer gets one accessor. */
  method OneBuffer(p: Pool, size: nat) returns (x: nat)
    requires p.Valid() && !p.panicked && 0 < size <= BUF_S
    modifies p
    ensures p.panicked ==> p.NoneLeft()
    ensures !p.panicked ==> p.Valid() && Single(old(p.H()), old(p.g), p.H(), p.g, x, size)
  {
    ghost var cx;
    x, cx := MemReq(p, size);
    if !p.panicked {
      ReadyToFill(old(p.H()), old(p.g), p.H(), p.g, cx, size);
    }
  }

  /** The first bytes, then the others right behind them. */
  method FillBoth(p: Pool, x: nat, a: seq<byte>, b: seq<byte>)
    requires p.Valid() && Filling(p.H(), p.g, p.H(), p.g, [x]) && x < |p.acc| && p.acc[x].length == |a| + |b|
      && p.acc[x].next == NIL
    modifies p`data, p`g
    ensures p.Valid() && Filling(old(p.H()), old(p.g), p.H(), p.g, [x]) && Slice(p.H(), x) == a + b
  {
    ghost var h1, g1 := p.H(), p.g;
    Blit(p, [x], 0, x, 0, a, h1, g1);
    ghost var s2, s3 := Slice(h1, x), Slice(p.H(), x);
    Blit(p, [x], 0, x, |a|, b, h1, g1);
    TwoParts(s2, a, b);
  }

  lemma TwoParts(s: seq<byte>, a: seq<byte>, b: seq<byte>)
    requires |s| == |a| + |b|
    ensures Overwrite(Overwrite(s, 0, a), |a|, b) == a + b
  {
  }

  lemma FreshCanSwap(h0: Heap, g0: Meaning, h: Heap, g: Meaning, ch: seq<nat>, x: nat, second: nat)
    requires Owned(h0, g0, ch) && h0.acc[Last(ch)].next == NIL && Fresh(h0, g0, h, g, ch, x, second)
    ensures CanSwap(h, g, ch, x) && Seen(g.view, ch[0]) == Seen(g0.view, ch[0])
    ensures Cat(h, ch[..|ch| - 1]) == Cat(h0, ch[..|ch| - 1])
  {
    assert [x][0] == x;
    assert forall k :: 0 <= k < |ch| ==> h.acc[ch[k]] == h0.acc[ch[k]] && ch[k] != x;
    forall k | 0 <= k < |ch| - 1 ensures h.acc[ch[k]].next == ch[k + 1] {
      assert h0.acc[ch[k]].next == ch[k + 1];
    }
    var init := ch[..|ch| - 1];
    forall k | 0 <= k < |init| ensures Slice(h, init[k]) == Slice(h0, init[k]) {
      assert init[k] == ch[k];
    }
    CatKept(h0, h, init);
  }

  /** The chain shows the bytes of the first accessor of the second chain as well. */
  ghost predicate RebuiltAt(h0: Heap, g0: Meaning, h: Heap, g: Meaning, ch: seq<nat>, second: nat) {
    && Owned(h, g, ch) && h.acc[Last(ch)].next == NIL && RootsKept(g0, g, ch[0]) && |h.acc| == |h0.acc|
    && g.roots == g0.roots && Seen(g.view, ch[0]) == Seen(g0.view, ch[0]) + Slice(h0, second)
  }

  ghost predicate Rebuilt(h0: Heap, g0: Meaning, h: Heap, g: Meaning, ch: seq<nat>, second: nat) {
    RebuiltAt(h0, g0, h, g, ch, second) == true
  }

  lemma RebuiltView(h0: Heap, g0: Meaning, h1: Heap, g1: Meaning, ch: seq<nat>, x: nat, second: nat)
    requires Inv(h0, g0) && Owned(h0, g0, ch) && h0.acc[Last(ch)].next == NIL
    requires Inv(h1, g1) && CanSwap(h1, g1, ch, x) && Slice(h1, x) == Slice(h0, Last(ch)) + Slice(h0, second)
    requires Cat(h1, ch[..|ch| - 1]) == Cat(h0, ch[..|ch| - 1])
    ensures SwapMeaning(h1, g1, ch, x).view[ch[0]] == Seen(g0.view, ch[0]) + Slice(h0, second)
  {
    SwapView(h1, g1, ch, x);
    assert Seen(g0.view, ch[0]) == Cat(h0, ch) by { ChainView(h0, g0, ch); }
    CatInit(h0, ch);
    JoinBytes(Cat(h0, ch[..|ch| - 1]), Slice(h0, Last(ch)), Slice(h0, second));
  }

  lemma RebuiltResult(h0: Heap, g0: Meaning, h1: Heap, g1: Meaning, h2: Heap, g2: Meaning, h3: Heap, g3: Meaning,
                      ch: seq<nat>, x: nat, second: nat)
    requires Inv(h0, g0) && Inv(h2, g2) && Inv(h3, g3) && CanSwap(h1, g1, ch, x)
      && Fresh(h0, g0, h1, g1, ch, x, second) == true
    requires Swapped(h1, g1, h2, g2, ch, x) && Shrunk(h2, g2, h3, g3) && g3.roots == g2.roots - Ref(x)
    requires Seen(g2.view, ch[0]) == Seen(g0.view, ch[0]) + Slice(h0, second)
    ensures Rebuilt(h0, g0, h3, g3, ch, second)
  {
    assert g3.roots == g0.roots;
    assert g3.roots[ch[0]] == 1 by { assert g2.roots[ch[0]] == 1 && ch[0] != x; }
    OwnedAfter(h2, g2, h3, g3, ch);
    assert SameAcc(h2, g2, h3, g3, ch[0]);
    RebuiltRoots(h0, g0, h1, g1, h2, g2, h3, g3, ch, x);
  }

  lemma RebuiltRoots(h0: Heap, g0: Meaning, h1: Heap, g1: Meaning, h2: Heap, g2: Meaning, h3: Heap, g3: Meaning,
                     ch: seq<nat>, x: nat)
    requires Inv(h0, g0) && Inv(h3, g3) && Untouched(h0, g0, h1, g1) && SurvivorsBut(h1, g1, h2, g2, ch + [x])
      && Shrunk(h2, g2, h3, g3)
    requires g3.roots == g0.roots && Owned(h3, g3, ch) && !Live(h0, x)
    ensures RootsKept(g0, g3, ch[0])
  {
    forall c | c in g3.roots && c != ch[0] ensures Seen(g3.view, c) == Seen(g0.view, c) {
      RootOutside(h3, g3, ch, c);
      assert h0.acc[c].linkC == g0.roots[c] + |Into(h0, c)|;
      assert SameAcc(h2, g2, h3, g3, c) && c !in ch + [x] && SameAcc(h1, g1, h2, g2, c);
    }
  }

  /** bf_append when the last buffer of the first chain has other users: both accessors move to a fresh buffer. */
  method MergeFresh(p: Pool, ghost ch: seq<nat>, tail: nat, second: nat)
    requires p.Valid() && !p.panicked && Owned(p.H(), p.g, ch) && tail == Last(ch) && p.acc[tail].next == NIL
    requires Live(p.H(), second) && 0 < p.acc[tail].length + p.acc[second].length <= BUF_S
    modifies p
    ensures p.panicked ==> p.NoneLeft()
    ensures !p.panicked ==> p.Valid() && Rebuilt(old(p.H()), old(p.g), p.H(), p.g, ch, second)
  {
    ghost var h0, g0 := p.H(), p.g;
    var x := CopyBoth(p, ch, tail, second);
    if p.panicked { return; }
    ghost var h1, g1 := p.H(), p.g;
    FreshCanSwap(h0, g0, h1, g1, ch, x, second);
    RebuiltView(h0, g0, h1, g1, ch, x, second);
    Swap(p, ch, tail, x);
    ghost var h2, g2 := p.H(), p.g;
    p.Afree(x);
    RebuiltResult(h0, g0, h1, g1, h2, g2, p.H(), p.g, ch, x, second);
  }

  method Swap(p: Pool, ghost ch: seq<nat>, tail: nat, x: nat)
    requires p.Valid() && CanSwap(p.H(), p.g, ch, x) && tail == Last(ch)
    modifies p`acc, p`g
    ensures p.Valid() && Swapped(old(p.H()), old(p.g), p.H(), p.g, ch, x) && x in p.g.roots
    ensures p.g.view == SwapMeaning(old(p.H()), old(p.g), ch, x).view
  {
    SwapKeeps(p.H(), p.g, ch, x);
    SwapResult(p.H(), p.g, ch, x);
    assert [x][0] == x;
    p.g := SwapMeaning(p.H(), p.g, ch, x);
    p.acc := p.acc[tail := p.acc[x]][x := p.acc[tail]];
    assert p.H() == SwapHeap(old(p.H()), tail, x);
  }

  /** tail->acc_next = n */
  method Continue(p: Pool, ghost ch: seq<nat>, tail: nat, second: nat, n: int, ghost h0: Heap, ghost g0: Meaning)
    requires p.Valid() && Rebuilt(h0, g0, p.H(), p.g, ch, second) && tail == Last(ch)
    requires n != NIL ==> 0 <= n < |p.acc| && n in p.g.roots && n !in ch
    modifies p`acc, p`g
    ensures p.Valid() && MergeOutcome(h0, g0, p.H(), p.g, ch, second, n)
  {
    if n != NIL {
      ghost var h1, g1 := p.H(), p.g;
      p.Attach(ch, tail, n);
      ContinueResult(h0, g0, h1, g1, p.H(), p.g, ch, second, n);
    } else {
      assert Seen(p.g.view, ch[0]) + [] == Seen(p.g.view, ch[0]);
    }
  }

  lemma ContinueResult(h0: Heap, g0: Meaning, h1: Heap, g1: Meaning, h2: Heap, g2: Meaning, ch: seq<nat>, second: nat,
                       n: nat)
    requires Inv(h1, g1) && Rebuilt(h0, g0, h1, g1, ch, second) && Attached(h1, g1, h2, g2, ch, n) && n in g1.roots
      && n !in ch
    ensures MergeOutcome(h0, g0, h2, g2, ch, second, n)
  {
    EditedRoots(h1, g1, h2, g2, ch);
    forall c | c in g2.roots && c != ch[0] ensures Seen(g2.view, c) == Seen(g0.view, c) {
      assert c in g1.roots;
    }
    assert n != ch[0] && Seen(g1.view, n) == Seen(g0.view, n);
  }
}
