/** Sharing, allocating and releasing accessors: the heap changes that move reference counts. */
module PacketSteps {
  import opened Lists
  import opened PacketHeap

  /** Accessor a gains or loses links: the accessors that link to a, and nothing else, differ by x. */
  lemma IntoAdded(h0: Heap, h1: Heap, x: nat, a: nat)
    requires |h1.acc| == |h0.acc| && x < |h0.acc| && h0.acc[x].linkC == 0 && h1.acc[x].linkC > 0
    requires forall p :: 0 <= p < |h0.acc| && p != x ==>
      (h1.acc[p].linkC > 0 <==> h0.acc[p].linkC > 0) && h1.acc[p].next == h0.acc[p].next
    ensures |Into(h1, a)| == |Into(h0, a)| + if h1.acc[x].next == a then 1 else 0
  {
    assert Into(h1, a) == if h1.acc[x].next == a then Into(h0, a) + {x} else Into(h0, a);
  }

  lemma UsersAdded(h0: Heap, h1: Heap, x: nat, b: int)
    requires |h1.acc| == |h0.acc| && x < |h0.acc| && h0.acc[x].linkC == 0 && h1.acc[x].linkC > 0
    requires forall p :: 0 <= p < |h0.acc| && p != x ==>
      (h1.acc[p].linkC > 0 <==> h0.acc[p].linkC > 0) && h1.acc[p].buffer == h0.acc[p].buffer
    ensures |Users(h1, b)| == |Users(h0, b)| + if h1.acc[x].buffer == b then 1 else 0
  {
    assert Users(h1, b) == if h1.acc[x].buffer == b then Users(h0, b) + {x} else Users(h0, b);
  }

  // ---------- bf_dupacc ----------

  /** bf_dupacc with the free accessor x. */
  function DupHeap(h: Heap, d: nat, x: nat): (h1: Heap)
    requires d < |h.acc| && x < |h.acc| && d != x && 0 <= h.acc[d].buffer < |h.link|
    requires h.acc[d].next == NIL || (0 <= h.acc[d].next < |h.acc| && h.acc[d].next != x)
    ensures h1.data == h.data && h1.bufFree == h.bufFree && h1.accFree == h.acc[x].next
    ensures |h1.acc| == |h.acc| && h1.acc[x] == h.acc[d].(linkC := 1)
    ensures forall a :: 0 <= a < |h.acc| && a != x ==>
      h1.acc[a] == h.acc[a].(linkC := h.acc[a].linkC + if a == h.acc[d].next then 1 else 0)
    ensures h1.link == h.link[h.acc[d].buffer := h.link[h.acc[d].buffer] + 1]
  {
    var n := h.acc[d].next;
    var a1 := h.acc[x := h.acc[d].(linkC := 1)];
    var a2 := if n == NIL then a1 else a1[n := a1[n].(linkC := a1[n].linkC + 1)];
    h.(acc := a2, accFree := h.acc[x].next, link := h.link[h.acc[d].buffer := h.link[h.acc[d].buffer] + 1])
  }

  function DupMeaning(g: Meaning, d: nat, x: nat): Meaning
    requires d < |g.rank| == |g.view| && x < |g.rank| && g.accList != []
  {
    g.(roots := g.roots + multiset{x}, rank := g.rank[x := g.rank[d]], view := g.view[x := g.view[d]],
       accList := g.accList[1..])
  }

  ghost predicate CanDup(h: Heap, g: Meaning, d: nat, x: nat) {
    && Sizes(h, g) && d < |h.acc| && h.acc[d].linkC > 0 && g.accList != [] && x == g.accList[0]
    && x < |h.acc| && h.acc[x].linkC == 0 && AccOk(h, g, d) && h.link[h.acc[d].buffer] > 0
  }

  lemma FreeIsDead(h: Heap, g: Meaning, d: nat)
    requires Inv(h, g) && Live(h, d) && g.accList != []
    ensures CanDup(h, g, d, g.accList[0]) && h.accFree == g.accList[0]
  {
    assert g.accList[0] in g.accList;
    assert AccOk(h, g, d);
    assert d in Users(h, h.acc[d].buffer);
  }

  lemma DupAccCounts(h: Heap, g: Meaning, d: nat, x: nat)
    requires CanDup(h, g, d, x) && AccCounts(h, g)
    ensures AccCounts(DupHeap(h, d, x), DupMeaning(g, d, x))
  {
    var h1, g1 := DupHeap(h, d, x), DupMeaning(g, d, x);
    forall a | 0 <= a < |h1.acc| ensures h1.acc[a].linkC == g1.roots[a] + |Into(h1, a)| {
      IntoAdded(h, h1, x, a);
    }
  }

  lemma DupBufCounts(h: Heap, g: Meaning, d: nat, x: nat)
    requires CanDup(h, g, d, x) && BufCounts(h)
    ensures BufCounts(DupHeap(h, d, x))
  {
    var h1 := DupHeap(h, d, x);
    forall b | 0 <= b < |h1.link| ensures h1.link[b] == |Users(h1, b)| {
      UsersAdded(h, h1, x, b);
    }
  }

  /** Popping the head of a free list. */
  lemma PopFree(acc0: seq<Acc>, acc1: seq<Acc>, head: int, list: seq<nat>)
    requires FreeChain(acc0, head, list) && list != [] && |acc1| == |acc0|
    requires forall k :: 0 < k < |list| ==> acc1[list[k]].next == acc0[list[k]].next
    ensures FreeChain(acc1, acc0[list[0]].next, list[1..])
    ensures forall a :: a in list[1..] <==> a in list && a != list[0]
  {
    var rest := list[1..];
    assert FreeLink(acc0, list, 0);
    forall k | 0 <= k < |rest| ensures FreeLink(acc1, rest, k) {
      assert FreeLink(acc0, list, k + 1);
    }
    forall a | a in list && a != list[0] ensures a in rest {
      var k :| 0 <= k < |list| && list[k] == a;
      assert rest[k - 1] == a;
    }
  }

  lemma KeepFree(acc0: seq<Acc>, acc1: seq<Acc>, head: int, list: seq<nat>)
    requires FreeChain(acc0, head, list) && |acc1| == |acc0|
    requires forall a :: a in list ==> acc1[a].next == acc0[a].next
    ensures FreeChain(acc1, head, list)
  {
    forall k | 0 <= k < |list| ensures FreeLink(acc1, list, k) {
      assert FreeLink(acc0, list, k) && list[k] in list;
    }
  }

  lemma PushFree(acc0: seq<Acc>, acc1: seq<Acc>, head: int, list: seq<nat>, a: nat)
    requires FreeChain(acc0, head, list) && |acc1| == |acc0| && a < |acc0| && a !in list
    requires acc1[a].next == head && forall c :: c in list ==> acc1[c].next == acc0[c].next
    ensures FreeChain(acc1, a, [a] + list)
  {
    var l2 := [a] + list;
    forall k | 0 <= k < |l2| ensures FreeLink(acc1, l2, k) {
      if k > 0 {
        assert l2[k] == list[k - 1] && list[k - 1] in list && FreeLink(acc0, list, k - 1);
      }
    }
  }

  lemma DupPartition(h: Heap, g: Meaning, d: nat, x: nat)
    requires CanDup(h, g, d, x) && Partition(h, g)
    ensures Partition(DupHeap(h, d, x), DupMeaning(g, d, x))
  {
    var h1 := DupHeap(h, d, x);
    forall k | 0 < k < |g.accList| ensures h1.acc[g.accList[k]].next == h.acc[g.accList[k]].next {
      assert g.accList[k] != x;
    }
    forall a | a in g.bufList ensures h1.acc[a].next == h.acc[a].next {
      assert x in g.accList;
    }
    PopFree(h.acc, h1.acc, h.accFree, g.accList);
    KeepFree(h.acc, h1.acc, h.bufFree, g.bufList);
  }

  lemma DupBuffers(h: Heap, g: Meaning, d: nat, x: nat)
    requires CanDup(h, g, d, x) && Partition(h, g) && FreeBuffers(h, g.bufList)
    ensures FreeBuffers(DupHeap(h, d, x), g.bufList)
  {
    assert x in g.accList;
    SameBuffers(h, DupHeap(h, d, x), g.bufList);
  }

  /** The free buffers stay free with the same accessors. */
  lemma SameBuffers(h: Heap, h1: Heap, bufList: seq<nat>)
    requires FreeBuffers(h, bufList) && |h1.acc| == |h.acc| && |h1.link| == |h.link|
    requires forall a :: a in bufList ==> h1.acc[a].buffer == h.acc[a].buffer
    requires forall b :: 0 <= b < |h.link| ==> (h1.link[b] == 0 <==> h.link[b] == 0)
    ensures FreeBuffers(h1, bufList)
  {
    forall b | 0 <= b < |h1.link| && h1.link[b] == 0 ensures HasFree(h1, bufList, b) {
      assert HasFree(h, bufList, b);
      var a :| a in bufList && a < |h.acc| && h.acc[a].buffer == b;
    }
  }

  lemma DupRest(h: Heap, g: Meaning, d: nat, x: nat)
    requires CanDup(h, g, d, x) && Shape(h, g) && Views(h, g)
    ensures var h1, g1 := DupHeap(h, d, x), DupMeaning(g, d, x); Sizes(h1, g1) && Shape(h1, g1) && Views(h1, g1)
  {
    var h1, g1 := DupHeap(h, d, x), DupMeaning(g, d, x);
    forall a | 0 <= a < |h1.acc| && h1.acc[a].linkC > 0
      ensures AccOk(h1, g1, a) && ViewOk(h1, g1, a)
    {
      var o := if a == x then d else a;
      assert AccOk(h, g, o) && ViewOk(h, g, o);
      assert Slice(h1, a) == Slice(h, o);
    }
  }

  /** bf_dupacc: a second accessor for the same bytes; no other view changes. */
  lemma DupKeeps(h: Heap, g: Meaning, d: nat, x: nat)
    requires CanDup(h, g, d, x) && Inv(h, g)
    ensures Inv(DupHeap(h, d, x), DupMeaning(g, d, x))
  {
    DupAccCounts(h, g, d, x);
    DupBufCounts(h, g, d, x);
    DupPartition(h, g, d, x);
    DupBuffers(h, g, d, x);
    DupRest(h, g, d, x);
  }

  // ---------- taking a free buffer, inside bf_memreq ----------

  function AllocHeap(h: Heap, x: nat, count: nat): Heap
    requires x < |h.acc| && 0 <= h.acc[x].buffer < |h.link|
  {
    h.(acc := h.acc[x := Acc(1, 0, count, h.acc[x].buffer, NIL)], bufFree := h.acc[x].next,
       link := h.link[h.acc[x].buffer := 1])
  }

  function AllocMeaning(h: Heap, g: Meaning, x: nat, count: nat): Meaning
    requires x < |g.rank| == |g.view| && g.bufList != []
  {
    g.(roots := g.roots + multiset{x}, rank := g.rank[x := 0], view := g.view[x := Slice(AllocShow(h, x, count), x)],
       bufList := g.bufList[1..])
  }

  function AllocShow(h: Heap, x: nat, count: nat): Heap {
    if x < |h.acc| && 0 <= h.acc[x].buffer < |h.link| then AllocHeap(h, x, count) else h
  }

  ghost predicate CanAlloc(h: Heap, g: Meaning, x: nat, count: nat) {
    && Sizes(h, g) && g.bufList != [] && x == g.bufList[0] && count <= BUF_S
    && x < |h.acc| && h.acc[x].linkC == 0 && 0 <= h.acc[x].buffer < |h.link| && h.link[h.acc[x].buffer] == 0
  }

  lemma FreeBufferIsDead(h: Heap, g: Meaning, count: nat)
    requires Inv(h, g) && g.bufList != [] && count <= BUF_S
    ensures CanAlloc(h, g, g.bufList[0], count) && h.bufFree == g.bufList[0]
  {
    assert g.bufList[0] in g.bufList;
  }

  lemma AllocCounts(h: Heap, g: Meaning, x: nat, count: nat)
    requires CanAlloc(h, g, x, count) && Counts(h, g)
    ensures Counts(AllocHeap(h, x, count), AllocMeaning(h, g, x, count))
  {
    var h1, g1 := AllocHeap(h, x, count), AllocMeaning(h, g, x, count);
    forall a | 0 <= a < |h1.acc| ensures h1.acc[a].linkC == g1.roots[a] + |Into(h1, a)| {
      IntoAdded(h, h1, x, a);
      assert h.acc[a].linkC == g.roots[a] + |Into(h, a)|;
    }
    forall b | 0 <= b < |h1.link| ensures h1.link[b] == |Users(h1, b)| {
      UsersAdded(h, h1, x, b);
    }
  }

  lemma AllocPartition(h: Heap, g: Meaning, x: nat, count: nat)
    requires CanAlloc(h, g, x, count) && Partition(h, g)
    ensures Partition(AllocHeap(h, x, count), AllocMeaning(h, g, x, count))
  {
    var h1 := AllocHeap(h, x, count);
    assert x in g.bufList;
    forall k | 0 < k < |g.bufList| ensures h1.acc[g.bufList[k]].next == h.acc[g.bufList[k]].next {
      assert g.bufList[k] != x;
    }
    PopFree(h.acc, h1.acc, h.bufFree, g.bufList);
    KeepFree(h.acc, h1.acc, h.accFree, g.accList);
  }

  lemma AllocBuffers(h: Heap, g: Meaning, x: nat, count: nat)
    requires CanAlloc(h, g, x, count) && Partition(h, g) && FreeBuffers(h, g.bufList)
    ensures FreeBuffers(AllocHeap(h, x, count), g.bufList[1..])
  {
    PopFree(h.acc, h.acc, h.bufFree, g.bufList);
    TakeFreeBuffer(h, AllocHeap(h, x, count), g.bufList, g.bufList[1..], x);
  }

  lemma TakeFreeBuffer(h: Heap, h1: Heap, list: seq<nat>, rest: seq<nat>, x: nat)
    requires FreeBuffers(h, list) && x in list && (forall a :: a in rest <==> a in list && a != x)
    requires |h1.acc| == |h.acc| && forall a :: 0 <= a < |h.acc| ==> h1.acc[a].buffer == h.acc[a].buffer
    requires h1.link == h.link[h.acc[x].buffer := 1]
    ensures FreeBuffers(h1, rest)
  {
    forall b | 0 <= b < |h1.link| && h1.link[b] == 0 ensures HasFree(h1, rest, b) {
      assert HasFree(h, list, b);
      var a :| a in list && a < |h.acc| && h.acc[a].buffer == b;
      assert a in rest;
    }
  }

  lemma AllocRest(h: Heap, g: Meaning, x: nat, count: nat)
    requires CanAlloc(h, g, x, count) && Shape(h, g) && Views(h, g)
    ensures var h1, g1 := AllocHeap(h, x, count), AllocMeaning(h, g, x, count);
      Sizes(h1, g1) && Shape(h1, g1) && Views(h1, g1)
  {
    var h1, g1 := AllocHeap(h, x, count), AllocMeaning(h, g, x, count);
    forall a | 0 <= a < |h1.acc| && h1.acc[a].linkC > 0
      ensures AccOk(h1, g1, a) && ViewOk(h1, g1, a)
    {
      if a != x {
        assert AccOk(h, g, a) && ViewOk(h, g, a) && Slice(h1, a) == Slice(h, a);
      }
    }
  }

  lemma AllocKeeps(h: Heap, g: Meaning, x: nat, count: nat)
    requires CanAlloc(h, g, x, count) && Inv(h, g)
    ensures Inv(AllocHeap(h, x, count), AllocMeaning(h, g, x, count))
  {
    AllocCounts(h, g, x, count);
    AllocPartition(h, g, x, count);
    AllocBuffers(h, g, x, count);
    AllocRest(h, g, x, count);
  }

  // ---------- dropping a reference, inside bf_afree ----------

  function RefHeap(h: Heap, a: nat): Heap
    requires a < |h.acc|
  {
    h.(acc := h.acc[a := h.acc[a].(linkC := h.acc[a].linkC + 1)])
  }

  /** A client may take one more reference to a live accessor. */
  lemma RefKeeps(h: Heap, g: Meaning, a: nat)
    requires Inv(h, g) && a < |h.acc| && h.acc[a].linkC > 0
    ensures Inv(RefHeap(h, a), g.(roots := g.roots + multiset{a}))
  {
    var h1, g1 := RefHeap(h, a), g.(roots := g.roots + multiset{a});
    RefCounts(h, g, a);
    forall c | 0 <= c < |h1.acc| && h1.acc[c].linkC > 0 ensures AccOk(h1, g1, c) && ViewOk(h1, g1, c) {
      assert AccOk(h, g, c) && ViewOk(h, g, c) && Slice(h1, c) == Slice(h, c);
    }
    RefFree(h, g, a);
  }

  lemma RefCounts(h: Heap, g: Meaning, a: nat)
    requires Counts(h, g) && a < |h.acc| && h.acc[a].linkC > 0
    ensures Counts(RefHeap(h, a), g.(roots := g.roots + multiset{a}))
  {
    var h1, g1 := RefHeap(h, a), g.(roots := g.roots + multiset{a});
    forall c | 0 <= c < |h1.acc| ensures h1.acc[c].linkC == g1.roots[c] + |Into(h1, c)| {
      assert Into(h1, c) == Into(h, c);
    }
    forall b | 0 <= b < |h1.link| ensures h1.link[b] == |Users(h1, b)| {
      assert Users(h1, b) == Users(h, b);
    }
  }

  lemma RefFree(h: Heap, g: Meaning, a: nat)
    requires FreeLists(h, g) && a < |h.acc| && h.acc[a].linkC > 0
    ensures FreeLists(RefHeap(h, a), g.(roots := g.roots + multiset{a}))
  {
    var h1 := RefHeap(h, a);
    KeepFree(h.acc, h1.acc, h.accFree, g.accList);
    KeepFree(h.acc, h1.acc, h.bufFree, g.bufList);
    SameBuffers(h, h1, g.bufList);
  }

  function UnrefHeap(h: Heap, a: nat): Heap
    requires a < |h.acc| && h.acc[a].linkC > 1
  {
    h.(acc := h.acc[a := h.acc[a].(linkC := h.acc[a].linkC - 1)])
  }

  lemma UnrefCounts(h: Heap, g: Meaning, a: nat)
    requires Counts(h, g) && a in g.roots && a < |h.acc| && h.acc[a].linkC > 1
    ensures Counts(UnrefHeap(h, a), g.(roots := g.roots - multiset{a}))
  {
    var h1, g1 := UnrefHeap(h, a), g.(roots := g.roots - multiset{a});
    forall c | 0 <= c < |h1.acc| ensures h1.acc[c].linkC == g1.roots[c] + |Into(h1, c)| {
      assert Into(h1, c) == Into(h, c);
    }
    forall b | 0 <= b < |h1.link| ensures h1.link[b] == |Users(h1, b)| {
      assert Users(h1, b) == Users(h, b);
    }
  }

  /** A shared accessor only loses a count. */
  lemma UnrefKeeps(h: Heap, g: Meaning, a: nat)
    requires Inv(h, g) && a in g.roots && a < |h.acc| && h.acc[a].linkC > 1
    ensures Inv(UnrefHeap(h, a), g.(roots := g.roots - multiset{a}))
  {
    UnrefCounts(h, g, a);
    UnrefRest(h, g, a);
    UnrefFree(h, g, a);
  }

  lemma UnrefFree(h: Heap, g: Meaning, a: nat)
    requires FreeLists(h, g) && a < |h.acc| && h.acc[a].linkC > 1
    ensures FreeLists(UnrefHeap(h, a), g.(roots := g.roots - multiset{a}))
  {
    var h1 := UnrefHeap(h, a);
    KeepFree(h.acc, h1.acc, h.accFree, g.accList);
    KeepFree(h.acc, h1.acc, h.bufFree, g.bufList);
    SameBuffers(h, h1, g.bufList);
  }

  lemma UnrefRest(h: Heap, g: Meaning, a: nat)
    requires Sizes(h, g) && Shape(h, g) && Views(h, g) && a < |h.acc| && h.acc[a].linkC > 1
    ensures var h1, g1 := UnrefHeap(h, a), g.(roots := g.roots - multiset{a});
      Sizes(h1, g1) && Shape(h1, g1) && Views(h1, g1)
  {
    var h1, g1 := UnrefHeap(h, a), g.(roots := g.roots - multiset{a});
    forall c | 0 <= c < |h1.acc| && h1.acc[c].linkC > 0
      ensures AccOk(h1, g1, c) && ViewOk(h1, g1, c)
    {
      assert AccOk(h, g, c) && ViewOk(h, g, c) && Slice(h1, c) == Slice(h, c);
    }
  }

  /** The last reference to a goes: it joins one of the free lists and its link becomes the caller's. */
  function FreeHeap(h: Heap, a: nat): (h1: Heap)
    requires a < |h.acc| && 0 <= h.acc[a].buffer < |h.link| && h.link[h.acc[a].buffer] > 0
  {
    var b := h.acc[a].buffer;
    var l := h.link[b := h.link[b] - 1];
    if h.link[b] > 1 then
      h.(link := l, acc := h.acc[a := h.acc[a].(linkC := 0, buffer := NIL, next := h.accFree)], accFree := a)
    else
      h.(link := l, acc := h.acc[a := h.acc[a].(linkC := 0, next := h.bufFree)], bufFree := a)
  }

  function FreeMeaning(h: Heap, g: Meaning, a: nat): Meaning
    requires a < |h.acc| && 0 <= h.acc[a].buffer < |h.link|
  {
    var n := h.acc[a].next;
    var r := g.roots - multiset{a};
    var g1 := g.(roots := if n >= 0 then r + multiset{n} else r);
    if h.link[h.acc[a].buffer] > 1 then g1.(accList := [a] + g.accList) else g1.(bufList := [a] + g.bufList)
  }

  ghost predicate CanFree(h: Heap, g: Meaning, a: nat) {
    && Sizes(h, g) && a in g.roots && a < |h.acc| && h.acc[a].linkC == 1 && AccOk(h, g, a)
    && h.link[h.acc[a].buffer] > 0 && g.roots[a] == 1 && Into(h, a) == {}
  }

  lemma LastReference(h: Heap, g: Meaning, a: nat)
    requires Inv(h, g) && a in g.roots && a < |h.acc| && h.acc[a].linkC == 1
    ensures CanFree(h, g, a)
  {
    assert AccOk(h, g, a);
    assert 1 == g.roots[a] + |Into(h, a)|;
    assert a in Users(h, h.acc[a].buffer);
  }

  lemma FreeAccCounts(h: Heap, g: Meaning, a: nat)
    requires CanFree(h, g, a) && AccCounts(h, g)
    ensures AccCounts(FreeHeap(h, a), FreeMeaning(h, g, a))
  {
    var h1, g1 := FreeHeap(h, a), FreeMeaning(h, g, a);
    forall c | 0 <= c < |h1.acc| ensures h1.acc[c].linkC == g1.roots[c] + |Into(h1, c)| {
      IntoRemoved(h, h1, a, c);
    }
  }

  lemma FreeBufCounts(h: Heap, g: Meaning, a: nat)
    requires CanFree(h, g, a) && BufCounts(h)
    ensures BufCounts(FreeHeap(h, a))
  {
    var h1 := FreeHeap(h, a);
    forall b | 0 <= b < |h1.link| ensures h1.link[b] == |Users(h1, b)| {
      assert Users(h1, b) == Users(h, b) - {a};
    }
  }

  lemma IntoRemoved(h0: Heap, h1: Heap, x: nat, a: nat)
    requires |h1.acc| == |h0.acc| && x < |h0.acc| && h1.acc[x].linkC == 0 && h0.acc[x].linkC > 0
    requires forall p :: 0 <= p < |h0.acc| && p != x ==> h1.acc[p] == h0.acc[p]
    ensures |Into(h1, a)| == |Into(h0, a)| - if h0.acc[x].next == a then 1 else 0
  {
    assert Into(h1, a) == Into(h0, a) - {x};
  }

  lemma FreePartition(h: Heap, g: Meaning, a: nat)
    requires CanFree(h, g, a) && Partition(h, g)
    ensures Partition(FreeHeap(h, a), FreeMeaning(h, g, a))
  {
    var h1 := FreeHeap(h, a);
    assert a !in g.accList && a !in g.bufList;
    if h.link[h.acc[a].buffer] > 1 {
      PushFree(h.acc, h1.acc, h.accFree, g.accList, a);
      KeepFree(h.acc, h1.acc, h.bufFree, g.bufList);
    } else {
      PushFree(h.acc, h1.acc, h.bufFree, g.bufList, a);
      KeepFree(h.acc, h1.acc, h.accFree, g.accList);
    }
  }

  lemma FreeFreeBuffers(h: Heap, g: Meaning, a: nat)
    requires CanFree(h, g, a) && FreeBuffers(h, g.bufList) && a !in g.bufList
    ensures FreeBuffers(FreeHeap(h, a), FreeMeaning(h, g, a).bufList)
  {
    var h1, l1 := FreeHeap(h, a), FreeMeaning(h, g, a).bufList;
    if h.link[h.acc[a].buffer] > 1 {
      SameBuffers(h, h1, g.bufList);
    } else {
      assert l1 == [a] + g.bufList;
      forall c | 0 <= c < |h1.link| && h1.link[c] == 0 ensures exists x :: x in l1 && h1.acc[x].buffer == c {
        if c == h.acc[a].buffer {
          assert a in l1;
        } else {
          assert HasFree(h, g.bufList, c);
          var x :| x in g.bufList && x < |h.acc| && h.acc[x].buffer == c;
          assert x in l1;
        }
      }
    }
  }

  lemma FreeRest(h: Heap, g: Meaning, a: nat)
    requires CanFree(h, g, a) && Shape(h, g) && Views(h, g)
    ensures var h1, g1 := FreeHeap(h, a), FreeMeaning(h, g, a); Sizes(h1, g1) && Shape(h1, g1) && Views(h1, g1)
  {
    var h1, g1 := FreeHeap(h, a), FreeMeaning(h, g, a);
    forall c | 0 <= c < |h1.acc| && h1.acc[c].linkC > 0
      ensures AccOk(h1, g1, c) && ViewOk(h1, g1, c)
    {
      assert AccOk(h, g, c) && ViewOk(h, g, c) && Slice(h1, c) == Slice(h, c);
      assert c !in Into(h, a);
    }
  }

  /** Freeing an accessor changes no remaining view. */
  lemma FreeKeeps(h: Heap, g: Meaning, a: nat)
    requires CanFree(h, g, a) && Inv(h, g)
    ensures Inv(FreeHeap(h, a), FreeMeaning(h, g, a))
  {
    FreeAccCounts(h, g, a);
    FreeBufCounts(h, g, a);
    FreePartition(h, g, a);
    FreeFreeBuffers(h, g, a);
    FreeRest(h, g, a);
  }
}
