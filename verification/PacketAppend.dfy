/**
 bf_append: the first chain is made private, its last accessor and the first of
 the second chain are merged into one buffer if they fit, in place when that
 buffer has no other user.
 */
module PacketAppend {
  import opened Base
  import opened Lists
  import opened PacketHeap
  import opened Packet
  import opened PacketOps

  /** Everything live in h1 outside s was live in h0, with the same fields and the same bytes. */
  ghost predicate SurvivorsBut(h0: Heap, g0: Meaning, h1: Heap, g1: Meaning, s: seq<nat>) {
    // "true ==" makes this one fact to prove, not one for each part.
    true == (
      && |h1.acc| == |h0.acc| && |g1.view| == |h1.acc|
      && (forall a :: 0 <= a < |h1.acc| && a !in s && h1.acc[a].linkC > 0 ==>
        h0.acc[a].linkC > 0 && SameAcc(h0, g0, h1, g1, a)))
  }

  lemma SurvivorsTwice(h0: Heap, g0: Meaning, h1: Heap, g1: Meaning, h2: Heap, g2: Meaning, s: seq<nat>, t: seq<nat>)
    requires SurvivorsBut(h0, g0, h1, g1, s) && SurvivorsBut(h1, g1, h2, g2, t) && forall a :: a in s ==> a in t
    ensures SurvivorsBut(h0, g0, h2, g2, t)
  {
    forall a | 0 <= a < |h2.acc| && a !in t && h2.acc[a].linkC > 0
      ensures h0.acc[a].linkC > 0 && SameAcc(h0, g0, h2, g2, a) {
      assert SameAcc(h1, g1, h2, g2, a) && SameAcc(h0, g0, h1, g1, a);
    }
  }

  /** An owned chain persists as long as nobody else links into it. */
  lemma {:induction false} OwnedPersists(h0: Heap, g0: Meaning, h1: Heap, g1: Meaning, ch: seq<nat>, x: nat, n: nat)
    requires Inv(h0, g0) && Inv(h1, g1) && Owned(h0, g0, ch) && SurvivorsBut(h0, g0, h1, g1, [x]) && n <= |ch|
    requires x !in ch && (x < |h1.acc| ==> h1.acc[x].next !in ch)
    requires forall k :: 0 <= k < |ch| ==> g1.roots[ch[k]] == g0.roots[ch[k]]
    ensures forall k :: 0 <= k < n ==> h1.acc[ch[k]] == h0.acc[ch[k]] && Seen(g1.view, ch[k]) == Seen(g0.view, ch[k])
  {
    if n > 0 {
      OwnedPersists(h0, g0, h1, g1, ch, x, n - 1);
      var c := ch[n - 1];
      assert h1.acc[c].linkC == g1.roots[c] + |Into(h1, c)| && h0.acc[c].linkC == g0.roots[c] + |Into(h0, c)|;
      forall q | q in Into(h1, c) ensures q in Into(h0, c) {
        assert q != x && SameAcc(h0, g0, h1, g1, q);
      }
      SubsetSize(Into(h1, c), Into(h0, c));
      if n > 1 {
        assert h0.acc[ch[n - 2]].next == ch[n - 2 + 1];
        assert ch[n - 2] in Into(h1, c);
        assert |Into(h1, c)| > 0;
      }
      assert SameAcc(h0, g0, h1, g1, c);
    }
  }

  lemma OwnedKept(h0: Heap, g0: Meaning, h1: Heap, g1: Meaning, ch: seq<nat>, x: nat)
    requires Inv(h0, g0) && Inv(h1, g1) && Owned(h0, g0, ch) && SurvivorsBut(h0, g0, h1, g1, [x])
    requires x !in ch && (x < |h1.acc| ==> h1.acc[x].next !in ch)
    requires forall k :: 0 <= k < |ch| ==> g1.roots[ch[k]] == g0.roots[ch[k]]
    ensures Owned(h1, g1, ch) && h1.acc[Last(ch)] == h0.acc[Last(ch)] && Seen(g1.view, ch[0]) == Seen(g0.view, ch[0])
  {
    OwnedPersists(h0, g0, h1, g1, ch, x, |ch|);
    forall k | 0 <= k < |ch| - 1 ensures h1.acc[ch[k]].next == ch[k + 1] {
      assert h0.acc[ch[k]].next == ch[k + 1];
    }
  }

  /** Only the head of an owned chain is held by a client. */
  lemma OwnedRoots(h: Heap, g: Meaning, ch: seq<nat>, k: nat)
    requires Inv(h, g) && Owned(h, g, ch) && k < |ch|
    ensures g.roots[ch[k]] == if k == 0 then 1 else 0
  {
    assert h.acc[ch[k]].linkC == g.roots[ch[k]] + |Into(h, ch[k])|;
    if k > 0 {
      assert h.acc[ch[k - 1]].next == ch[k - 1 + 1];
      assert ch[k - 1] in Into(h, ch[k]);
    }
  }

  // ---------- the first chain ----------

  /** curr is the private stand-in for accessor d, cut loose from its successor n, which is now the caller's. */
  ghost predicate TakenAs(h0: Heap, g0: Meaning, h1: Heap, g1: Meaning, d: nat, curr: nat, n: int) {
    && SurvivorsBut(h0, g0, h1, g1, [curr]) && Owned(h1, g1, [curr]) && d < |h0.acc| && n == h0.acc[d].next
    && h1.acc[curr] == h0.acc[d].(linkC := 1, next := NIL) && (curr == d || h0.acc[curr].linkC == 0)
    && g1.roots == g0.roots - multiset{d} + multiset{curr} + Ref(n) && h1.data == h0.data
    && Seen(g1.view, curr) + Seen(g1.view, n) == Seen(g0.view, d) && |Seen(g1.view, curr)| == h0.acc[d].length
  }

  ghost predicate Taken(h0: Heap, g0: Meaning, h1: Heap, g1: Meaning, d: nat, curr: nat, n: int) {
    TakenAs(h0, g0, h1, g1, d, curr, n) == true
  }

  method TakeFirst(p: Pool, d: nat) returns (curr: nat, n: int)
    requires p.Valid() && !p.panicked && d < |p.acc| && d in p.g.roots
    modifies p
    ensures p.panicked ==> p.NoneLeft()
    ensures !p.panicked ==> p.Valid() && Taken(old(p.H()), old(p.g), p.H(), p.g, d, curr, n)
  {
    ghost var h0, g0 := p.H(), p.g;
    n := NIL;
    curr := p.Unshare(d);
    if p.panicked { return; }
    ghost var h1, g1 := p.H(), p.g;
    n := p.acc[curr].next;
    assert AccOk(h1, g1, curr);
    p.Reshape(curr, p.acc[curr].offset, p.acc[curr].length, NIL);
    TakeResult(h0, g0, h1, g1, p.H(), p.g, d, curr, n);
  }

  /** Cutting the stand-in loose leaves everything that survived before. */
  lemma TakeSurvivors(h0: Heap, g0: Meaning, h1: Heap, g1: Meaning, h2: Heap, g2: Meaning, curr: nat)
    requires SurvivorsBut(h0, g0, h1, g1, [curr]) && UntouchedBut(h1, g1, h2, g2, [curr]) && |g2.view| == |g1.view|
      && curr < |h1.acc|
    requires h2.acc == h1.acc[curr := h1.acc[curr].(next := NIL)]
    ensures SurvivorsBut(h0, g0, h2, g2, [curr])
  {
    forall a | 0 <= a < |h2.acc| && a !in [curr] && h2.acc[a].linkC > 0
      ensures h0.acc[a].linkC > 0 && SameAcc(h0, g0, h2, g2, a) {
      assert SameAcc(h0, g0, h1, g1, a);
    }
  }

  lemma TakeResult(h0: Heap, g0: Meaning, h1: Heap, g1: Meaning, h2: Heap, g2: Meaning, d: nat, curr: nat, n: int)
    requires Inv(h0, g0) && Inv(h1, g1) && Inv(h2, g2) && Private(h0, g0, h1, g1, d, curr) && n == h1.acc[curr].next
      && AccOk(h1, g1, curr)
    requires UntouchedBut(h1, g1, h2, g2, [curr]) && Owned(h2, g2, [curr]) && h2.data == h1.data
    requires h2.acc == h1.acc[curr := h1.acc[curr].(next := NIL)]
    requires g2.roots == Moved(g1.roots, n, NIL) && |g2.view| == |g1.view|
    requires g2.view[curr] == Slice(h2, curr) + Seen(g1.view, NIL)
    ensures Taken(h0, g0, h2, g2, d, curr, n)
  {
    TakeBytes(h1, g1, h2, g2, curr, n);
    TakeSurvivors(h0, g0, h1, g1, h2, g2, curr);
    assert g2.roots == g0.roots - multiset{d} + multiset{curr} + Ref(n);
  }

  lemma TakeBytes(h1: Heap, g1: Meaning, h2: Heap, g2: Meaning, curr: nat, n: int)
    requires Inv(h1, g1) && Owned(h1, g1, [curr]) && n == h1.acc[curr].next && AccOk(h1, g1, curr)
    requires UntouchedBut(h1, g1, h2, g2, [curr]) && h2.data == h1.data && |g2.view| == |g1.view|
    requires h2.acc == h1.acc[curr := h1.acc[curr].(next := NIL)]
      && g2.view[curr] == Slice(h2, curr) + Seen(g1.view, NIL)
    ensures Seen(g2.view, curr) + Seen(g2.view, n) == Seen(g1.view, curr)
      && |Seen(g2.view, curr)| == h1.acc[curr].length
  {
    assert ViewOk(h1, g1, curr) && Slice(h2, curr) == Slice(h1, curr);
    SliceLength(h1, g1, curr);
    if n != NIL {
      assert n != curr && h1.acc[n].linkC > 0;
    }
  }

  ghost function HeadRef(ch: seq<nat>): multiset<nat> {
    if ch == [] then multiset{} else multiset{ch[0]}
  }

  ghost function HeadBytes(g: Meaning, ch: seq<nat>): seq<byte> {
    if ch == [] then [] else Seen(g.view, ch[0])
  }

  /** The first chain so far: ch is private and complete, `first` is what remains. */
  ghost predicate AppendingAt(h0: Heap, g0: Meaning, h: Heap, g: Meaning, ch: seq<nat>, first: int, f0: int) {
    && SurvivorsBut(h0, g0, h, g, ch) && h.data == h0.data
    && (ch != [] ==> Owned(h, g, ch) && h.acc[Last(ch)].next == NIL)
    && (first != NIL ==> Live(h0, first))
    && g.roots == g0.roots - Ref(f0) + HeadRef(ch) + Ref(first)
    && HeadBytes(g, ch) + Seen(g.view, first) == Seen(g0.view, f0)
  }

  ghost predicate Appending(h0: Heap, g0: Meaning, h: Heap, g: Meaning, ch: seq<nat>, first: int, f0: int) {
    AppendingAt(h0, g0, h, g, ch, first, f0) == true
  }

  /** The remaining chain does not run through the finished part. */
  lemma Apart(h0: Heap, g0: Meaning, h: Heap, g: Meaning, ch: seq<nat>, first: nat, f0: int)
    requires Inv(h0, g0) && Inv(h, g) && Appending(h0, g0, h, g, ch, first, f0)
    ensures first < |h.acc| && first in g.roots && h.acc[first].linkC > 0 && first !in ch
    ensures h.acc[first] == h0.acc[first].(linkC := h.acc[first].linkC)
    ensures var n := h0.acc[first].next; n != NIL ==> Live(h0, n) && g0.rank[n] < g0.rank[first]
  {
    assert h.acc[first].linkC == g.roots[first] + |Into(h, first)|;
    if first in ch {
      var k :| 0 <= k < |ch| && ch[k] == first;
      OwnedRoots(h, g, ch, k);
    }
    assert SameAcc(h0, g0, h, g, first) && AccOk(h0, g0, first);
  }

  lemma TakeKeepsChain(h0: Heap, g0: Meaning, h1: Heap, g1: Meaning, h2: Heap, g2: Meaning, ch: seq<nat>, first: nat,
                       f0: int, curr: nat, n: int)
    requires Inv(h0, g0) && Inv(h1, g1) && Inv(h2, g2) && ch != []
    requires Appending(h0, g0, h1, g1, ch, first, f0) && Taken(h1, g1, h2, g2, first, curr, n)
    ensures Owned(h2, g2, ch) && h2.acc[Last(ch)].next == NIL && Seen(g2.view, ch[0]) == Seen(g1.view, ch[0])
    ensures curr !in ch && n !in ch
  {
    Apart(h0, g0, h1, g1, ch, first, f0);
    OwnedOutside(h1, g1, ch, first);
    assert curr !in ch;
    OtherRoots(g1.roots, g2.roots, ch, first, curr, n);
    OwnedKept(h1, g1, h2, g2, ch, curr);
  }

  lemma OtherRoots(r: multiset<nat>, r1: multiset<nat>, ch: seq<nat>, first: nat, curr: nat, n: int)
    requires r1 == r - multiset{first} + multiset{curr} + Ref(n) && first !in ch && curr !in ch && n !in ch
    ensures forall k :: 0 <= k < |ch| ==> r1[ch[k]] == r[ch[k]]
  {
    forall k | 0 <= k < |ch| ensures r1[ch[k]] == r[ch[k]] {
      assert ch[k] in ch;
    }
  }

  lemma StartChain(h0: Heap, g0: Meaning, h1: Heap, g1: Meaning, h2: Heap, g2: Meaning, ch: seq<nat>, first: nat,
                   f0: int, curr: nat, n: int)
    requires Inv(h0, g0) && Inv(h1, g1) && Inv(h2, g2) && LastOr(ch) == NIL
    requires Appending(h0, g0, h1, g1, ch, first, f0) && Taken(h1, g1, h2, g2, first, curr, n)
    ensures Appending(h0, g0, h2, g2, ch + [curr], n, f0)
  {
    assert ch == [] && ch + [curr] == [curr];
    Apart(h0, g0, h1, g1, [], first, f0);
    SurvivorsTwice(h0, g0, h1, g1, h2, g2, [], [curr]);
    StartRoots(h0, g0, h1, g1, h2, g2, first, f0, curr, n);
    StartBytes(h0, g0, h1, g1, h2, g2, first, f0, curr, n);
  }

  lemma StartBytes(h0: Heap, g0: Meaning, h1: Heap, g1: Meaning, h2: Heap, g2: Meaning, first: nat, f0: int,
                   curr: nat, n: int)
    requires Appending(h0, g0, h1, g1, [], first, f0) && Taken(h1, g1, h2, g2, first, curr, n)
    ensures HeadBytes(g2, [curr]) + Seen(g2.view, n) == Seen(g0.view, f0)
  {
    assert [] + Seen(g1.view, first) == Seen(g1.view, first);
  }

  lemma StartRoots(h0: Heap, g0: Meaning, h1: Heap, g1: Meaning, h2: Heap, g2: Meaning, first: nat, f0: int,
                   curr: nat, n: int)
    requires Appending(h0, g0, h1, g1, [], first, f0) && Taken(h1, g1, h2, g2, first, curr, n)
    ensures g2.roots == g0.roots - Ref(f0) + multiset{curr} + Ref(n)
  {
    TradeFirst(g0.roots - Ref(f0), first, curr, Ref(n));
  }

  lemma TradeFirst(base: multiset<nat>, first: nat, curr: nat, rest: multiset<nat>)
    ensures base + multiset{} + multiset{first} - multiset{first} + multiset{curr} + rest == base + multiset{curr}
      + rest
  {
  }

  lemma SnocOwned(h: Heap, g: Meaning, h1: Heap, g1: Meaning, ch: seq<nat>, x: nat)
    requires Owned(h, g, ch) && Owned(h, g, [x]) && x !in ch && Owned(h1, g1, ch)
    requires h1.acc == h.acc[Last(ch) := h.acc[Last(ch)].(next := x)]
    ensures Owned(h1, g1, ch + [x])
  {
    var c2 := ch + [x];
    assert [x][0] == x;
    forall k | 0 <= k < |c2| - 1 ensures h1.acc[c2[k]].next == c2[k + 1] {
      if k < |ch| - 1 { assert h.acc[ch[k]].next == ch[k + 1]; }
    }
  }

  lemma GrowChain(h0: Heap, g0: Meaning, h1: Heap, g1: Meaning, h2: Heap, g2: Meaning, h3: Heap, g3: Meaning,
                  ch: seq<nat>, first: nat, f0: int, curr: nat, n: int)
    requires ch != []
    requires Appending(h0, g0, h1, g1, ch, first, f0) && Taken(h1, g1, h2, g2, first, curr, n) && n !in ch
      && curr !in ch
    requires n != NIL ==> Live(h0, n) && 0 <= n < |h2.acc| && h2.acc[n].linkC > 0
    requires Attached(h2, g2, h3, g3, ch, curr) && Seen(g2.view, ch[0]) == Seen(g1.view, ch[0])
    ensures Appending(h0, g0, h3, g3, ch + [curr], n, f0)
  {
    SnocOwned(h2, g2, h3, g3, ch, curr);
    GrowSurvivors(h0, g0, h1, g1, h2, g2, h3, g3, ch, curr);
    assert g3.roots == g0.roots - Ref(f0) + HeadRef(ch + [curr]) + Ref(n) by {
      TradeRoots(g0.roots - Ref(f0), HeadRef(ch), first, curr, Ref(n));
    }
    assert HeadBytes(g3, ch + [curr]) + Seen(g3.view, n) == Seen(g0.view, f0) by {
      JoinBytes(Seen(g1.view, ch[0]), Seen(g2.view, curr), Seen(g2.view, n));
      assert Seen(g3.view, n) == Seen(g2.view, n);
    }
  }

  lemma GrowSurvivors(h0: Heap, g0: Meaning, h1: Heap, g1: Meaning, h2: Heap, g2: Meaning, h3: Heap, g3: Meaning,
                      ch: seq<nat>, curr: nat)
    requires SurvivorsBut(h0, g0, h1, g1, ch) && SurvivorsBut(h1, g1, h2, g2, [curr])
      && UntouchedBut(h2, g2, h3, g3, ch)
    requires ch != [] && Last(ch) < |h2.acc| && h3.acc == h2.acc[Last(ch) := h2.acc[Last(ch)].(next := curr)]
      && |g3.view| == |g2.view|
    ensures SurvivorsBut(h0, g0, h3, g3, ch + [curr])
  {
    forall a | 0 <= a < |h3.acc| && a !in ch + [curr] && h3.acc[a].linkC > 0
      ensures h0.acc[a].linkC > 0 && SameAcc(h0, g0, h3, g3, a)
    {
      assert a !in ch && a !in [curr] && h2.acc[a] == h3.acc[a];
      assert SameAcc(h1, g1, h2, g2, a) && SameAcc(h0, g0, h1, g1, a);
    }
  }

  lemma JoinBytes(a: seq<byte>, b: seq<byte>, c: seq<byte>)
    ensures a + b + c == a + (b + c)
  {
  }

  /** An empty accessor of the first chain is simply released. */
  lemma SkipEmpty(h0: Heap, g0: Meaning, h1: Heap, g1: Meaning, h2: Heap, g2: Meaning, h3: Heap, g3: Meaning,
                  ch: seq<nat>, first: nat, f0: int, curr: nat, n: int)
    requires Inv(h2, g2) && Inv(h3, g3)
    requires Appending(h0, g0, h1, g1, ch, first, f0) && Taken(h1, g1, h2, g2, first, curr, n)
      && h1.acc[first].length == 0
    requires Shrunk(h2, g2, h3, g3) && g3.roots == g2.roots - Ref(curr)
    requires ch != [] ==>
      Owned(h2, g2, ch) && h2.acc[Last(ch)].next == NIL && Seen(g2.view, ch[0]) == Seen(g1.view, ch[0])
    requires n != NIL ==> Live(h0, n)
    ensures Appending(h0, g0, h3, g3, ch, n, f0)
  {
    Gone(h2, g2, h3, g3, curr);
    SkipSurvivors(h0, g0, h1, g1, h2, g2, h3, g3, ch, curr);
    TradeRoots(g0.roots - Ref(f0), HeadRef(ch), first, curr, Ref(n));
    SeenKept(h2, g2, h3, g3, n);
    if ch != [] {
      KeepFinished(h0, g0, h2, g2, h3, g3, ch, f0, n);
    }
    assert Seen(g2.view, curr) == [] && Seen(g2.view, n) == Seen(g1.view, first);
  }

  lemma TradeRoots(base: multiset<nat>, head: multiset<nat>, first: nat, curr: nat, rest: multiset<nat>)
    ensures base + head + multiset{first} - multiset{first} + multiset{curr} + rest - multiset{curr} == base + head
      + rest
  {
  }

  lemma SeenKept(h2: Heap, g2: Meaning, h3: Heap, g3: Meaning, n: int)
    requires Inv(h3, g3) && Shrunk(h2, g2, h3, g3) && |g2.view| == |h2.acc| && n >= NIL && (n != NIL ==> n in g3.roots)
    ensures Seen(g3.view, n) == Seen(g2.view, n)
  {
    if n != NIL {
      assert h3.acc[n].linkC == g3.roots[n] + |Into(h3, n)| && SameAcc(h2, g2, h3, g3, n);
    }
  }

  lemma SkipSurvivors(h0: Heap, g0: Meaning, h1: Heap, g1: Meaning, h2: Heap, g2: Meaning, h3: Heap, g3: Meaning,
                      ch: seq<nat>, curr: nat)
    requires SurvivorsBut(h0, g0, h1, g1, ch) && SurvivorsBut(h1, g1, h2, g2, [curr]) && Shrunk(h2, g2, h3, g3)
    requires |g3.view| == |h3.acc| && curr < |h3.acc| && h3.acc[curr].linkC == 0
    ensures SurvivorsBut(h0, g0, h3, g3, ch)
  {
    forall a | 0 <= a < |h3.acc| && a !in ch && h3.acc[a].linkC > 0
      ensures h0.acc[a].linkC > 0 && SameAcc(h0, g0, h3, g3, a) {
      assert SameAcc(h2, g2, h3, g3, a) && a !in [curr] && SameAcc(h1, g1, h2, g2, a) && SameAcc(h0, g0, h1, g1, a);
    }
  }

  lemma Gone(h2: Heap, g2: Meaning, h3: Heap, g3: Meaning, x: nat)
    requires Inv(h2, g2) && Inv(h3, g3) && Owned(h2, g2, [x]) && Shrunk(h2, g2, h3, g3) && g3.roots == g2.roots - Ref(x)
    ensures h3.acc[x].linkC == 0
  {
    assert h3.acc[x].linkC == g3.roots[x] + |Into(h3, x)| && h2.acc[x].linkC == g2.roots[x] + |Into(h2, x)|;
    forall q | q in Into(h3, x) ensures q in Into(h2, x) { assert SameAcc(h2, g2, h3, g3, q); }
    SubsetSize(Into(h3, x), Into(h2, x));
  }

  lemma KeepFinished(h0: Heap, g0: Meaning, h2: Heap, g2: Meaning, h3: Heap, g3: Meaning, ch: seq<nat>, f0: int, n: int)
    requires Inv(h2, g2) && Inv(h3, g3) && Owned(h2, g2, ch) && Shrunk(h2, g2, h3, g3) && h2.acc[Last(ch)].next == NIL
    requires g3.roots == g0.roots - Ref(f0) + multiset{ch[0]} + Ref(n) && g3.roots <= g2.roots
    ensures Owned(h3, g3, ch) && h3.acc[Last(ch)].next == NIL && Seen(g3.view, ch[0]) == Seen(g2.view, ch[0])
  {
    assert g3.roots[ch[0]] == 1;
    OwnedAfter(h2, g2, h3, g3, ch);
    assert SameAcc(h2, g2, h3, g3, ch[0]);
  }

  /** One round of the first loop of bf_append. */
  method AppendOne(p: Pool, ghost ch: seq<nat>, tail: int, first: nat, ghost h0: Heap, ghost g0: Meaning, ghost f0: int)
    returns (tailNext: int, n: int, ghost chNext: seq<nat>)
    requires p.Valid() && !p.panicked && Inv(h0, g0) && Appending(h0, g0, p.H(), p.g, ch, first, f0)
    requires tail == LastOr(ch)
    modifies p
    ensures p.panicked ==> p.NoneLeft()
    ensures !p.panicked ==> p.Valid() && Appending(h0, g0, p.H(), p.g, chNext, n, f0) && tailNext == LastOr(chNext)
    ensures !p.panicked ==> chNext == ch || (tailNext >= 0 && chNext == ch + [tailNext])
    ensures NearerEnd(h0, g0, first, n)
  {
    ghost var h1, g1 := p.H(), p.g;
    var curr;
    curr, n := TakeNext(p, ch, first, h0, g0, f0);
    tailNext, chNext := tail, ch;
    if !p.panicked {
      tailNext, chNext := PlacePiece(p, ch, tail, curr, n, first, h0, g0, h1, g1, f0);
    }
  }

  method TakeNext(p: Pool, ghost ch: seq<nat>, first: nat, ghost h0: Heap, ghost g0: Meaning, ghost f0: int)
      returns (curr: nat, n: int)
    requires p.Valid() && !p.panicked && Inv(h0, g0) && Appending(h0, g0, p.H(), p.g, ch, first, f0)
    modifies p
    ensures p.panicked ==> p.NoneLeft()
    ensures !p.panicked ==> p.Valid() && Taken(old(p.H()), old(p.g), p.H(), p.g, first, curr, n)
    ensures NearerEnd(h0, g0, first, n)
  {
    ghost var h1, g1 := p.H(), p.g;
    n := NIL;
    Apart(h0, g0, h1, g1, ch, first, f0);
    var next;
    curr, next := TakeFirst(p, first);
    if !p.panicked { n := next; }
  }

  method PlacePiece(p: Pool, ghost ch: seq<nat>, tail: int, curr: nat, n: int, ghost first: nat, ghost h0: Heap,
                    ghost g0: Meaning, ghost h1: Heap, ghost g1: Meaning, ghost f0: int)
    returns (tailNext: int, ghost chNext: seq<nat>)
    requires p.Valid() && !p.panicked && Inv(h0, g0) && Inv(h1, g1) && (n != NIL ==> Live(h0, n)) && tail == LastOr(ch)
    requires Appending(h0, g0, h1, g1, ch, first, f0) && Taken(h1, g1, p.H(), p.g, first, curr, n)
    modifies p`acc, p`link, p`accFree, p`bufFree, p`g
    ensures !p.panicked && p.Valid() && Appending(h0, g0, p.H(), p.g, chNext, n, f0) && tailNext == LastOr(chNext)
    ensures chNext == ch || (tailNext >= 0 && chNext == ch + [tailNext])
  {
    tailNext, chNext := tail, ch;
    if p.acc[curr].length == 0 {
      DropEmpty(p, ch, curr, n, first, h0, g0, h1, g1, f0);
    } else {
      KeepPiece(p, ch, tail, curr, n, first, h0, g0, h1, g1, f0);
      tailNext, chNext := curr, ch + [curr];
    }
  }

  ghost function LastOr(ch: seq<nat>): int {
    if ch == [] then NIL else Last(ch)
  }

  ghost predicate NearerEnd(h0: Heap, g0: Meaning, first: nat, n: int) {
    n == NIL || (Live(h0, n) && |h0.acc| == |g0.rank| && first < |h0.acc| && g0.rank[n] < g0.rank[first])
  }

  method DropEmpty(p: Pool, ghost ch: seq<nat>, curr: nat, n: int, ghost first: nat, ghost h0: Heap, ghost g0: Meaning,
                   ghost h1: Heap, ghost g1: Meaning, ghost f0: int)
    requires p.Valid() && !p.panicked && Inv(h0, g0) && Inv(h1, g1) && (n != NIL ==> Live(h0, n))
    requires Appending(h0, g0, h1, g1, ch, first, f0) && Taken(h1, g1, p.H(), p.g, first, curr, n)
      && p.acc[curr].length == 0
    modifies p`acc, p`link, p`accFree, p`bufFree, p`g
    ensures !p.panicked && p.Valid() && Appending(h0, g0, p.H(), p.g, ch, n, f0)
  {
    ghost var h2, g2 := p.H(), p.g;
    if ch != [] { TakeKeepsChain(h0, g0, h1, g1, h2, g2, ch, first, f0, curr, n); }
    p.Afree(curr);
    SkipEmpty(h0, g0, h1, g1, h2, g2, p.H(), p.g, ch, first, f0, curr, n);
  }

  method KeepPiece(p: Pool, ghost ch: seq<nat>, tail: int, curr: nat, n: int, ghost first: nat, ghost h0: Heap,
                   ghost g0: Meaning, ghost h1: Heap, ghost g1: Meaning, ghost f0: int)
    requires p.Valid() && !p.panicked && Inv(h0, g0) && Inv(h1, g1) && (n != NIL ==> Live(h0, n)) && tail == LastOr(ch)
    requires Appending(h0, g0, h1, g1, ch, first, f0) && Taken(h1, g1, p.H(), p.g, first, curr, n)
    modifies p`acc, p`g
    ensures !p.panicked && p.Valid() && Appending(h0, g0, p.H(), p.g, ch + [curr], n, f0)
  {
    if tail == NIL {
      StartChain(h0, g0, h1, g1, p.H(), p.g, ch, first, f0, curr, n);
    } else {
      LinkPiece(p, ch, tail, curr, n, first, h0, g0, h1, g1, f0);
    }
  }

  method LinkPiece(p: Pool, ghost ch: seq<nat>, tail: nat, curr: nat, n: int, ghost first: nat, ghost h0: Heap,
                   ghost g0: Meaning, ghost h1: Heap, ghost g1: Meaning, ghost f0: int)
    requires p.Valid() && !p.panicked && Inv(h0, g0) && Inv(h1, g1) && (n != NIL ==> Live(h0, n)) && ch != []
      && tail == Last(ch)
    requires Appending(h0, g0, h1, g1, ch, first, f0) && Taken(h1, g1, p.H(), p.g, first, curr, n)
    modifies p`acc, p`g
    ensures !p.panicked && p.Valid() && Appending(h0, g0, p.H(), p.g, ch + [curr], n, f0)
  {
    ghost var h2, g2 := p.H(), p.g;
    TakeKeepsChain(h0, g0, h1, g1, h2, g2, ch, first, f0, curr, n);
    LiveRef(h2, g2, n);
    p.Attach(ch, tail, curr);
    GrowChain(h0, g0, h1, g1, h2, g2, p.H(), p.g, ch, first, f0, curr, n);
  }

  lemma LiveRef(h: Heap, g: Meaning, n: int)
    requires Inv(h, g) && (n != NIL ==> n in g.roots)
    ensures n != NIL ==> n < |h.acc| && (n >= 0 ==> h.acc[n].linkC > 0)
  {
    if n >= 0 {
      assert n in g.roots && h.acc[n].linkC == g.roots[n] + |Into(h, n)|;
    }
  }

  /** The first loop of bf_append: a private chain with the bytes of the first argument. */
  method Privatize(p: Pool, f0: nat) returns (head: int, tail: int, ghost ch: seq<nat>)
    requires p.Valid() && !p.panicked && f0 < |p.acc| && f0 in p.g.roots
    modifies p
    ensures p.panicked ==> p.NoneLeft()
    ensures !p.panicked ==> p.Valid() && Appending(old(p.H()), old(p.g), p.H(), p.g, ch, NIL, f0)
    ensures !p.panicked ==> tail == LastOr(ch) && head == At(ch, 0)
  {
    ghost var h0, g0 := p.H(), p.g;
    head, tail, ch := NIL, NIL, [];
    var first: int := f0;
    StartAppending(h0, g0, f0);
    while first != NIL
      invariant !p.panicked && p.Valid() && Appending(h0, g0, p.H(), p.g, ch, first, f0)
      invariant tail == LastOr(ch) && head == At(ch, 0)
      invariant first == NIL || Live(h0, first)
      decreases if 0 <= first < |g0.rank| then g0.rank[first] + 1 else 0
    {
      tail, first, ch := AppendOne(p, ch, tail, first, h0, g0, f0);
      if p.panicked { return; }
      if head == NIL { head := tail; }
    }
  }

  lemma StartAppending(h0: Heap, g0: Meaning, f0: nat)
    requires Inv(h0, g0) && f0 < |h0.acc| && f0 in g0.roots
    ensures Appending(h0, g0, h0, g0, [], f0, f0) && Live(h0, f0)
  {
    assert h0.acc[f0].linkC == g0.roots[f0] + |Into(h0, f0)|;
    assert g0.roots == g0.roots - multiset{f0} + multiset{} + multiset{f0};
    assert [] + Seen(g0.view, f0) == Seen(g0.view, f0);
  }

  // ---------- the second chain ----------

  /** The first chain is private; `second` is the caller's reference to the rest. */
  ghost predicate JoiningAt(h0: Heap, g0: Meaning, h: Heap, g: Meaning, ch: seq<nat>, second: int, f0: int, s0: int) {
    && SurvivorsBut(h0, g0, h, g, ch) && Owned(h, g, ch) && h.acc[Last(ch)].next == NIL
    && (second != NIL ==> Live(h0, second))
    && g.roots == g0.roots - Ref(f0) - Ref(s0) + multiset{ch[0]} + Ref(second)
    && Seen(g.view, ch[0]) == Seen(g0.view, f0) && Seen(g.view, second) == Seen(g0.view, s0)
  }

  ghost predicate Joining(h0: Heap, g0: Meaning, h: Heap, g: Meaning, ch: seq<nat>, second: int, f0: int, s0: int) {
    JoiningAt(h0, g0, h, g, ch, second, f0, s0) == true
  }

  lemma StartJoining(h0: Heap, g0: Meaning, h: Heap, g: Meaning, ch: seq<nat>, f0: nat, s0: nat)
    requires Inv(h0, g0) && Inv(h, g) && Appending(h0, g0, h, g, ch, NIL, f0) && ch != []
    requires multiset{f0} + multiset{s0} <= g0.roots && s0 < |h0.acc|
    ensures Joining(h0, g0, h, g, ch, s0, f0, s0)
  {
    assert s0 in g0.roots - multiset{f0};
    assert g.roots == g0.roots - Ref(f0) - Ref(s0) + multiset{ch[0]} + Ref(s0);
    NotInChain(h, g, ch, s0, g0.roots - Ref(f0) - Ref(s0) + Ref(s0));
    assert h.acc[s0].linkC == g.roots[s0] + |Into(h, s0)| && SameAcc(h0, g0, h, g, s0);
    assert Seen(g.view, ch[0]) + [] == Seen(g.view, ch[0]);
  }

  /** A reference held besides the owned chain is not to an accessor of that chain. */
  lemma NotInChain(h: Heap, g: Meaning, ch: seq<nat>, c: nat, held: multiset<nat>)
    requires Inv(h, g) && Owned(h, g, ch) && g.roots == held + multiset{ch[0]} && c in held
    ensures c !in ch
  {
    if c in ch {
      var k :| 0 <= k < |ch| && ch[k] == c;
      OwnedRoots(h, g, ch, k);
    }
  }

  /** The end of bf_append, as the clients see it. */
  lemma Finish(h0: Heap, g0: Meaning, h: Heap, g: Meaning, ch: seq<nat>, used: multiset<nat>, bytes: seq<byte>)
    requires Inv(h, g) && SurvivorsBut(h0, g0, h, g, ch) && Owned(h, g, ch)
    requires g.roots == g0.roots - used + multiset{ch[0]} && Seen(g.view, ch[0]) == bytes
    ensures Result(h0, g0, h, g, used, ch[0], bytes)
  {
    forall c | c in g0.roots - used ensures Seen(g.view, c) == Seen(g0.view, c) {
      NotInChain(h, g, ch, c, g0.roots - used);
      assert c in g.roots && h.acc[c].linkC == g.roots[c] + |Into(h, c)| && SameAcc(h0, g0, h, g, c);
    }
  }

  /** Replacing the caller's reference to an accessor by one to its successor. */
  method StepSecond(p: Pool, second: nat) returns (n: int)
    requires p.Valid() && second < |p.acc| && second in p.g.roots
    modifies p`acc, p`link, p`accFree, p`bufFree, p`g
    ensures p.Valid() && SurvivorsBut(old(p.H()), old(p.g), p.H(), p.g, []) && n == old(p.acc)[second].next
    ensures p.g.roots == old(p.g).roots - multiset{second} + Ref(n)
  {
    ghost var h1, g1 := p.H(), p.g;
    assert p.acc[second].linkC == p.g.roots[second] + |Into(p.H(), second)|;
    assert AccOk(h1, g1, second);
    n := p.acc[second].next;
    if n != NIL { p.TakeRef(n); }
    ghost var h2, g2 := p.H(), p.g;
    p.Afree(second);
    assert p.g.roots == g1.roots - multiset{second} + Ref(n);
    StepSurvivors(h1, g1, h2, g2, p.H(), p.g);
  }

  lemma StepSurvivors(h1: Heap, g1: Meaning, h2: Heap, g2: Meaning, h3: Heap, g3: Meaning)
    requires Survivors(h1, g1, h2, g2, -1) || (h2 == h1 && g2 == g1)
    requires Shrunk(h2, g2, h3, g3) && |g3.view| == |h3.acc|
    ensures SurvivorsBut(h1, g1, h3, g3, [])
  {
    forall a | 0 <= a < |h3.acc| && h3.acc[a].linkC > 0 ensures h1.acc[a].linkC > 0 && SameAcc(h1, g1, h3, g3, a) {
      assert SameAcc(h2, g2, h3, g3, a) && SameAcc(h1, g1, h2, g2, a);
    }
  }

  lemma SecondFacts(h0: Heap, g0: Meaning, h: Heap, g: Meaning, ch: seq<nat>, second: nat, f0: int, s0: int)
    requires Inv(h0, g0) && Inv(h, g) && Joining(h0, g0, h, g, ch, second, f0, s0)
    ensures second < |h.acc| && second in g.roots && h.acc[second].linkC > 0 && second !in ch
      && h.acc[second].next !in ch
    ensures h.acc[second] == h0.acc[second].(linkC := h.acc[second].linkC)
    ensures NearerEnd(h0, g0, second, h.acc[second].next)
    ensures Seen(g.view, second) == Slice(h, second) + Seen(g.view, h.acc[second].next)
    ensures |Slice(h, second)| == h.acc[second].length
  {
    NotInChain(h, g, ch, second, g0.roots - Ref(f0) - Ref(s0) + Ref(second));
    assert h.acc[second].linkC == g.roots[second] + |Into(h, second)| && SameAcc(h0, g0, h, g, second);
    assert AccOk(h0, g0, second) && ViewOk(h, g, second);
    OwnedOutside(h, g, ch, second);
    SliceLength(h, g, second);
  }

  lemma SkipSecond(h0: Heap, g0: Meaning, h1: Heap, g1: Meaning, h3: Heap, g3: Meaning, ch: seq<nat>, second: nat,
                   n: int, f0: int, s0: int)
    requires Inv(h0, g0) && Inv(h1, g1) && Inv(h3, g3) && Joining(h0, g0, h1, g1, ch, second, f0, s0)
      && n == h1.acc[second].next
    requires h1.acc[second].length == 0 && SurvivorsBut(h1, g1, h3, g3, [])
      && g3.roots == g1.roots - multiset{second} + Ref(n)
    ensures Joining(h0, g0, h3, g3, ch, n, f0, s0)
  {
    SecondFacts(h0, g0, h1, g1, ch, second, f0, s0);
    RootsAlong(g0.roots - Ref(f0) - Ref(s0) + multiset{ch[0]}, second, Ref(n));
    ChainThrough(h1, g1, h3, g3, ch, second, n);
    SurvivorsTwice(h0, g0, h1, g1, h3, g3, ch, ch) by { assert SurvivorsBut(h1, g1, h3, g3, ch); }
    SeenSurvives(h1, g1, h3, g3, n);
  }

  lemma RootsAlong(base: multiset<nat>, second: nat, rest: multiset<nat>)
    ensures base + multiset{second} - multiset{second} + rest == base + rest
  {
  }

  lemma SeenSurvives(h1: Heap, g1: Meaning, h3: Heap, g3: Meaning, n: int)
    requires Inv(h3, g3) && SurvivorsBut(h1, g1, h3, g3, []) && n >= NIL && (n != NIL ==> n in g3.roots)
    ensures Seen(g3.view, n) == Seen(g1.view, n)
  {
    if n != NIL {
      assert h3.acc[n].linkC == g3.roots[n] + |Into(h3, n)| && SameAcc(h1, g1, h3, g3, n);
    }
  }

  lemma ChainThrough(h1: Heap, g1: Meaning, h3: Heap, g3: Meaning, ch: seq<nat>, second: nat, n: int)
    requires Inv(h1, g1) && Inv(h3, g3) && Owned(h1, g1, ch) && SurvivorsBut(h1, g1, h3, g3, [])
    requires g3.roots == g1.roots - multiset{second} + Ref(n) && second !in ch && n !in ch
    ensures Owned(h3, g3, ch) && h3.acc[Last(ch)] == h1.acc[Last(ch)] && Seen(g3.view, ch[0]) == Seen(g1.view, ch[0])
  {
    var x := |h1.acc|;
    assert SurvivorsBut(h1, g1, h3, g3, [x]);
    forall k | 0 <= k < |ch| ensures g3.roots[ch[k]] == g1.roots[ch[k]] { assert ch[k] in ch; }
    OwnedKept(h1, g1, h3, g3, ch, x);
  }

  /** The second loop of bf_append: empty accessors at the start of the second chain are skipped. */
  method SkipEmpties(p: Pool, ghost ch: seq<nat>, s0: nat, ghost h0: Heap, ghost g0: Meaning, ghost f0: int)
      returns (second: int)
    requires p.Valid() && Inv(h0, g0) && Joining(h0, g0, p.H(), p.g, ch, s0, f0, s0)
    modifies p`acc, p`link, p`accFree, p`bufFree, p`g
    ensures p.Valid() && Joining(h0, g0, p.H(), p.g, ch, second, f0, s0)
    ensures second != NIL ==> 0 <= second < |p.acc| && p.acc[second].length > 0
  {
    second := s0;
    SecondFacts(h0, g0, p.H(), p.g, ch, s0, f0, s0);
    while second != NIL && p.acc[second].length == 0
      invariant p.Valid() && Joining(h0, g0, p.H(), p.g, ch, second, f0, s0)
      invariant second != NIL ==> 0 <= second < |p.acc| && Live(h0, second)
      decreases if 0 <= second < |g0.rank| then g0.rank[second] + 1 else 0
    {
      ghost var h1, g1, was := p.H(), p.g, second;
      SecondFacts(h0, g0, h1, g1, ch, second, f0, s0);
      second := StepSecond(p, second);
      SkipSecond(h0, g0, h1, g1, p.H(), p.g, ch, was, second, f0, s0);
    }
  }
}
