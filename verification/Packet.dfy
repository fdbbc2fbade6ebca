/**
 The packet buffer operations of inet/buf.c: bf_init, bf_memreq, bf_afree,
 bf_dupacc, bf_bufsize, bf_cut, bf_delhead, bf_append, bf_pack and bf_align.
 Each returns exactly the bytes it is specified to return, and none of them
 changes what any other client reference shows.
 */
module Packet {
  import opened Base
  import opened Lists
  import opened PacketHeap
  import opened PacketSteps

  /** The reference a client variable holds. */
  ghost function Ref(a: int): multiset<nat> {
    if a < 0 then multiset{} else multiset{a}
  }

  /** Dropping a reference to a shared accessor changes one count and nothing else. */
  ghost predicate Dropped(acc0: seq<Acc>, acc1: seq<Acc>, a: int, view0: seq<seq<byte>>, view1: seq<seq<byte>>) {
    0 <= a < |acc0| && (acc0[a].linkC > 1 ==>
      acc1 == acc0[a := acc0[a].(linkC := acc0[a].linkC - 1)] && view1 == view0)
  }

  /** Apart from the new accessor x, only accessor n has one more link. */
  ghost predicate OneMore(acc0: seq<Acc>, acc1: seq<Acc>, n: int, x: nat) {
    |acc1| == |acc0| && forall a :: 0 <= a < |acc0| && a != x ==>
      acc1[a] == acc0[a].(linkC := acc0[a].linkC + if a == n then 1 else 0)
  }

  /** The accessor shows the same bytes by itself and as a chain, and has the same fields but for its count. */
  ghost predicate SameAcc(h0: Heap, g0: Meaning, h1: Heap, g1: Meaning, a: nat)
    requires a < |h0.acc| == |h1.acc|
  {
    h1.acc[a] == h0.acc[a].(linkC := h1.acc[a].linkC) && Seen(g1.view, a) == Seen(g0.view, a)
  }

  /** Everything live in h1 was live in h0, shows the same bytes, and is no more shared than before. */
  ghost predicate Shrunk(h0: Heap, g0: Meaning, h1: Heap, g1: Meaning) {
    && |h1.acc| == |h0.acc| && h1.data == h0.data && |h1.link| == |h0.link| && g1.rank == g0.rank
    && (forall a :: 0 <= a < |h1.acc| && h1.acc[a].linkC > 0 ==> h1.acc[a].linkC <= h0.acc[a].linkC)
    && (forall a :: 0 <= a < |h1.acc| && h1.acc[a].linkC > 0 ==> SameAcc(h0, g0, h1, g1, a))
    && (forall b :: 0 <= b < |h1.link| ==> h1.link[b] <= h0.link[b])
  }

  /** Where bf_afree stands: the reference to a has been traded for one to cur. */
  ghost predicate Freeing(h0: Heap, g0: Meaning, h: Heap, g: Meaning, a: int, cur: int) {
    true == (
      && Shrunk(h0, g0, h, g) && g.roots == g0.roots - Ref(a) + Ref(cur) && |g.rank| == |h.acc|
      && (cur != NIL ==> 0 <= cur < |h.acc| && cur in g.roots)
      && (if cur == a then h == h0 && g == g0 else Dropped(h0.acc, h.acc, a, g0.view, g.view))
      && (cur != a && cur != NIL ==> 0 <= a < |h0.acc| == |g.rank| && h0.acc[a].linkC <= 1 && g.rank[cur] < g.rank[a]))
  }

  lemma FreeingNext(h0: Heap, g0: Meaning, h1: Heap, g1: Meaning, h2: Heap, g2: Meaning, a: int, cur: nat, next: int)
    requires Freeing(h0, g0, h1, g1, a, cur) && Shrunk(h1, g1, h2, g2) && g2.roots == g1.roots - Ref(cur) + Ref(next)
      && |g2.rank| == |h2.acc|
    requires next != NIL ==>
      0 <= next < |h2.acc| && next in g2.roots && g2.rank[next] < g1.rank[cur] && |g1.rank| == |h1.acc|
    requires cur < |h1.acc| && Dropped(h1.acc, h2.acc, cur, g1.view, g2.view) && (h1.acc[cur].linkC > 1 ==> next == NIL)
    ensures Freeing(h0, g0, h2, g2, a, next)
  {
    ShrunkTwice(h0, g0, h1, g1, h2, g2);
  }

  lemma ShrunkTwice(h0: Heap, g0: Meaning, h1: Heap, g1: Meaning, h2: Heap, g2: Meaning)
    requires Shrunk(h0, g0, h1, g1) && Shrunk(h1, g1, h2, g2)
    ensures Shrunk(h0, g0, h2, g2)
  {
    forall a | 0 <= a < |h2.acc| && h2.acc[a].linkC > 0 ensures SameAcc(h0, g0, h2, g2, a) {
      assert SameAcc(h1, g1, h2, g2, a) && SameAcc(h0, g0, h1, g1, a);
    }
  }

  /** Everything live in h0, outside s, is live in h1 and shows the same bytes. */
  ghost predicate Kept(h0: Heap, g0: Meaning, h1: Heap, g1: Meaning, s: seq<nat>) {
    && |h1.acc| == |h0.acc| && |h1.data| == |h0.data|
    && (forall a :: 0 <= a < |h0.acc| && h0.acc[a].linkC > 0 && a !in s ==>
      h1.acc[a].linkC > 0 && SameAcc(h0, g0, h1, g1, a))
  }

  /** An owned chain survives the release of anything else. */
  lemma {:induction false} OwnedSurvives(h0: Heap, g0: Meaning, h1: Heap, g1: Meaning, ch: seq<nat>, n: nat)
    requires Inv(h0, g0) && Inv(h1, g1) && Shrunk(h0, g0, h1, g1) && Owned(h0, g0, ch)
    requires g1.roots[ch[0]] == 1 && n <= |ch|
    ensures forall k :: 0 <= k < n ==> h1.acc[ch[k]].linkC == 1 && h1.acc[ch[k]] == h0.acc[ch[k]]
  {
    if n > 0 {
      OwnedSurvives(h0, g0, h1, g1, ch, n - 1);
      if n == 1 {
        assert h1.acc[ch[0]].linkC == g1.roots[ch[0]] + |Into(h1, ch[0])|;
      } else {
        var p := ch[n - 2];
        assert AccOk(h1, g1, p);
        assert h0.acc[ch[n - 2]].next == ch[n - 2 + 1];
      }
    }
  }

  lemma OwnedAfter(h0: Heap, g0: Meaning, h1: Heap, g1: Meaning, ch: seq<nat>)
    requires Inv(h0, g0) && Inv(h1, g1) && Shrunk(h0, g0, h1, g1) && Owned(h0, g0, ch) && g1.roots[ch[0]] == 1
    ensures Owned(h1, g1, ch) && forall k :: 0 <= k < |ch| ==> h1.acc[ch[k]] == h0.acc[ch[k]]
  {
    OwnedSurvives(h0, g0, h1, g1, ch, |ch|);
    forall k | 0 <= k < |ch| - 1 ensures h1.acc[ch[k]].next == ch[k + 1] {
      assert h0.acc[ch[k]].next == ch[k + 1];
    }
  }

  /**
   x is a new private accessor for what d shows; nothing else that is live has changed, but for one
   more link to d's successor.
   */
  ghost predicate Duplicated(h0: Heap, g0: Meaning, h1: Heap, g1: Meaning, d: nat, x: nat) {
    // "true ==" makes this one fact to prove, not one for each part.
    true == (
      && |h1.acc| == |h0.acc| && h1.data == h0.data && d < |h0.acc| && x < |h0.acc| && !Live(h0, x)
      && Owned(h1, g1, [x])
      && h1.acc[x] == h0.acc[d].(linkC := 1) && d < |g0.view| && x < |g0.view| && g1.view == g0.view[x := g0.view[d]]
      && g1.roots == g0.roots + multiset{x} && OneMore(h0.acc, h1.acc, h0.acc[d].next, x) && Kept(h0, g0, h1, g1, []))
  }

  /** The heads of the free lists say whether they are empty. */
  lemma NoneFree(h: Heap, g: Meaning)
    requires Inv(h, g)
    ensures h.accFree == NIL <==> g.accList == []
    ensures h.bufFree == NIL <==> g.bufList == []
  {
  }

  lemma DupResult(h: Heap, g: Meaning, d: nat, x: nat)
    requires CanDup(h, g, d, x) && Inv(h, g)
    ensures var h1, g1 := DupHeap(h, d, x), DupMeaning(g, d, x); Inv(h1, g1) && Duplicated(h, g, h1, g1, d, x)
  {
    DupKeeps(h, g, d, x);
    assert g.roots[x] == 0 by { assert h.acc[x].linkC == g.roots[x] + |Into(h, x)|; }
  }

  /** Everything live in h0 is exactly as it was in h1. */
  ghost predicate Untouched(h0: Heap, g0: Meaning, h1: Heap, g1: Meaning) {
    && |h1.acc| == |h0.acc|
    && (forall a :: 0 <= a < |h0.acc| && h0.acc[a].linkC > 0 ==>
      h1.acc[a] == h0.acc[a] && Seen(g1.view, a) == Seen(g0.view, a) && Slice(h1, a) == Slice(h0, a))
  }

  /** The same, except for the accessors of an owned chain. */
  ghost predicate UntouchedBut(h0: Heap, g0: Meaning, h1: Heap, g1: Meaning, ch: seq<nat>) {
    && |h1.acc| == |h0.acc|
    && (forall a :: 0 <= a < |h0.acc| && h0.acc[a].linkC > 0 && a !in ch ==>
      h1.acc[a] == h0.acc[a] && Seen(g1.view, a) == Seen(g0.view, a) && Slice(h1, a) == Slice(h0, a))
  }

  /** The views along a chain are its slices and what follows. */
  lemma {:induction false} ChainView(h: Heap, g: Meaning, ch: seq<nat>)
    requires Inv(h, g) && ch != [] && InRange(ch, |h.acc|)
    requires forall k :: 0 <= k < |ch| ==> h.acc[ch[k]].linkC > 0
    requires forall k :: 0 <= k < |ch| - 1 ==> h.acc[ch[k]].next == ch[k + 1]
    ensures g.view[ch[0]] == Cat(h, ch) + Seen(g.view, h.acc[Last(ch)].next)
  {
    assert ViewOk(h, g, ch[0]);
    var rest := ch[1..];
    if rest == [] {
      assert Cat(h, ch) == Slice(h, ch[0]) + [];
    } else {
      forall k | 0 <= k < |rest| - 1 ensures h.acc[rest[k]].next == rest[k + 1] {
        assert h.acc[ch[k + 1]].next == ch[k + 1 + 1];
      }
      ChainView(h, g, rest);
      assert h.acc[ch[0]].next == ch[0 + 1];
      assert Cat(h, ch) + Seen(g.view, h.acc[Last(ch)].next)
        == Slice(h, ch[0]) + (Cat(h, rest) + Seen(g.view, h.acc[Last(ch)].next));
    }
  }

  /** An edit, as the clients see it. */
  lemma EditResult(h0: Heap, g: Meaning, h1: Heap, ch: seq<nat>)
    requires Inv(h0, g) && Owned(h0, g, ch) && Edited(h0, g, h1, ch)
    requires var n0, n1 := h0.acc[Last(ch)].next, h1.acc[Last(ch)].next; n1 != NIL && n1 != n0 ==> n1 in g.roots
    ensures var g1 := EditMeaning(h0, g, h1, ch);
      && Inv(h1, g1) && Owned(h1, g1, ch) && UntouchedBut(h0, g, h1, g1, ch)
      && g1.roots == Moved(g.roots, h0.acc[Last(ch)].next, h1.acc[Last(ch)].next)
      && g1.view[ch[0]] == Cat(h1, ch) + Seen(g.view, h1.acc[Last(ch)].next)
  {
    EditOwned(h0, g, h1, ch);
    EditStillOwned(h0, g, h1, ch);
    forall a | 0 <= a < |h0.acc| && h0.acc[a].linkC > 0 && a !in ch ensures Slice(h1, a) == Slice(h0, a) {
      assert |Users(h0, h0.acc[a].buffer)| >= 0 && AccOk(h0, g, a);
      EditSlice(h0, h1, ch, a);
    }
  }

  lemma EditStillOwned(h0: Heap, g: Meaning, h1: Heap, ch: seq<nat>)
    requires Inv(h0, g) && Owned(h0, g, ch) && Edited(h0, g, h1, ch)
    ensures Owned(h1, EditMeaning(h0, g, h1, ch), ch)
  {
    var n0, n1 := h0.acc[Last(ch)].next, h1.acc[Last(ch)].next;
    forall k | 0 <= k < |ch| - 1 ensures h1.acc[ch[k]].next == ch[k + 1] {
      assert h0.acc[ch[k]].next == ch[k + 1];
    }
    if n0 == ch[0] {
      assert AccOk(h0, g, Last(ch));
      OwnedInto(h0, g, ch, 0, Last(ch));
    }
    assert n1 != ch[0];
  }

  lemma CatOne(h: Heap, x: nat)
    ensures Cat(h, [x]) == Slice(h, x)
  {
    assert Cat(h, [x]) == Slice(h, x) + Cat(h, []);
  }

  lemma FreeResult(h: Heap, g: Meaning, a: nat)
    requires CanFree(h, g, a) && Inv(h, g)
    ensures var h1, g1, n := FreeHeap(h, a), FreeMeaning(h, g, a), h.acc[a].next;
      && Inv(h1, g1) && Shrunk(h, g, h1, g1) == true && g1.roots == g.roots - Ref(a) + Ref(n)
      && (n != NIL ==> 0 <= n < |h1.acc| && n in g1.roots && g1.rank[n] < g1.rank[a])
  {
    FreeKeeps(h, g, a);
  }

  class Pool {
    var acc: seq<Acc>
    var link: seq<nat>          // buf_linkC
    var data: seq<seq<byte>>    // buf_data
    var accFree: int            // acc_freelist
    var bufFree: int            // buf512_freelist
    var panicked: bool          // ip_panic has been called
    ghost var g: Meaning

    ghost function H(): Heap
      reads this
    {
      Heap(acc, link, data, accFree, bufFree)
    }

    ghost predicate Valid()
      reads this
    {
      Inv(H(), g) == true
    }

    /** One of the free lists is empty. */
    ghost predicate NoneLeft()
      reads this
    {
      g.accList == [] || g.bufList == []
    }

    /** bf_init: one accessor is set aside for every buffer. */
    constructor (accNr: nat, bufNr: nat)
      ensures panicked <==> accNr < bufNr
      ensures !panicked ==> Valid() && |acc| == accNr && |data| == bufNr && g.roots == multiset{}
      ensures !panicked ==> |g.bufList| == bufNr && |g.accList| == accNr - bufNr
    {
      acc := seq(accNr, _ => Acc(0, 0, 0, NIL, NIL));
      link := seq(bufNr, _ => 0);
      data := seq(bufNr, _ => seq(BUF_S, _ => 0));
      accFree, bufFree, panicked := NIL, NIL, false;
      new;
      for i := 0 to accNr
        modifies this`acc, this`accFree
        invariant |acc| == accNr && accFree == i - 1
        invariant forall k :: 0 <= k < i ==> acc[k] == InitAcc(accNr, 0, k)
      {
        acc := acc[i := Acc(0, 0, 0, NIL, accFree)];
        accFree := i;
      }
      for i := 0 to bufNr
        modifies this`acc, this`accFree, this`bufFree, this`panicked
        invariant !panicked && |acc| == accNr && i <= accNr && accFree == accNr - i - 1
        invariant bufFree == if i == 0 then NIL else accNr - i
        invariant forall k :: 0 <= k < accNr ==> acc[k] == InitAcc(accNr, i, k)
      {
        if accFree == NIL {
          panicked := true;
          return;
        }
        var x := accFree;
        accFree := acc[x].next;
        acc := acc[x := acc[x].(buffer := i, next := bufFree)];
        bufFree := x;
      }
      g := InitMeaning(accNr, bufNr);
      InitOk(H(), accNr, bufNr);
    }

    /** bf_dupacc; runs out of accessors only when none is free. */
    method DupAcc(d: nat) returns (x: nat)
      requires Valid() && !panicked && Live(H(), d)
      modifies this
      ensures panicked ==> NoneLeft()
      ensures panicked <==> old(g).accList == []
      ensures !panicked ==> Valid() && Duplicated(old(H()), old(g), H(), g, d, x)
    {
      NoneFree(H(), g);
      if accFree == NIL {
        panicked := true;
        return 0;
      }
      x := Duplicate(d);
    }

    method Duplicate(d: nat) returns (x: nat)
      requires Valid() && Live(H(), d) && g.accList != []
      modifies this`acc, this`link, this`accFree, this`g
      ensures Valid() && Duplicated(old(H()), old(g), H(), g, d, x)
    {
      ghost var h0, g0 := H(), g;
      FreeIsDead(H(), g, d);
      DupResult(H(), g, d, accFree);
      x := accFree;
      accFree := acc[x].next;
      acc := acc[x := acc[d].(linkC := 1)];
      var n, b := acc[d].next, acc[d].buffer;
      if n != NIL { acc := acc[n := acc[n].(linkC := acc[n].linkC + 1)]; }
      link := link[b := link[b] + 1];
      g := DupMeaning(g, d, x);
      assert H() == DupHeap(h0, d, x);
    }

    /** bf_afree: drop one reference, and everything that was only reachable through it. */
    method Afree(a: int)
      requires Valid() && (a != NIL ==> a in g.roots)
      modifies this`acc, this`link, this`accFree, this`bufFree, this`g
      ensures panicked == old(panicked)
      ensures Valid() && Shrunk(old(H()), old(g), H(), g)
      ensures g.roots == old(g).roots - Ref(a)
      ensures a != NIL ==> Dropped(old(acc), acc, a, old(g).view, g.view)
      ensures a == NIL ==> H() == old(H()) && g == old(g)
    {
      ghost var h0, g0 := H(), g;
      var cur := a;
      while cur != NIL
        invariant panicked == old(panicked) && Valid() && Freeing(h0, g0, H(), g, a, cur)
        decreases if 0 <= cur < |g.rank| then g.rank[cur] + 1 else 0
      {
        cur := FreeNext(a, cur, h0, g0);
      }
    }

    method FreeNext(ghost a: int, cur: nat, ghost h0: Heap, ghost g0: Meaning) returns (n: int)
      requires Valid() && Freeing(h0, g0, H(), g, a, cur)
      modifies this`acc, this`link, this`accFree, this`bufFree, this`g
      ensures panicked == old(panicked) && Valid() && Freeing(h0, g0, H(), g, a, n)
      ensures n != NIL ==> 0 <= n < |g.rank| == |old(g).rank| && cur < |g.rank| && g.rank[n] < old(g).rank[cur]
    {
      ghost var h1, g1 := H(), g;
      n := DropOne(cur);
      FreeingNext(h0, g0, h1, g1, H(), g, a, cur, n);
    }

    /** One round of bf_afree: the next accessor to release, or NIL when the count did not reach 0. */
    method DropOne(cur: nat) returns (n: int)
      requires Valid() && cur in g.roots && cur < |acc|
      modifies this`acc, this`link, this`accFree, this`bufFree, this`g
      ensures panicked == old(panicked)
      ensures Valid() && Shrunk(old(H()), old(g), H(), g) && |g.rank| == |acc|
      ensures n != NIL ==> 0 <= n < |acc| && n in g.roots && g.rank[n] < g.rank[cur]
      ensures g.roots == old(g).roots - Ref(cur) + Ref(n)
      ensures Dropped(old(acc), acc, cur, old(g).view, g.view) && (old(acc)[cur].linkC > 1 ==> n == NIL)
    {
      assert acc[cur].linkC == g.roots[cur] + |Into(H(), cur)|;
      if acc[cur].linkC > 1 {
        Unref(cur);
        return NIL;
      }
      n := FreeOne(cur);
    }

    method Unref(a: nat)
      requires Valid() && a in g.roots && a < |acc| && acc[a].linkC > 1
      modifies this`acc, this`g
      ensures panicked == old(panicked)
      ensures Valid() && Shrunk(old(H()), old(g), H(), g) && g.roots == old(g).roots - Ref(a)
      ensures acc == old(acc)[a := old(acc)[a].(linkC := old(acc)[a].linkC - 1)] && g.view == old(g).view
    {
      UnrefKeeps(H(), g, a);
      acc := acc[a := acc[a].(linkC := acc[a].linkC - 1)];
      g := g.(roots := g.roots - multiset{a});
      assert H() == UnrefHeap(old(H()), a);
    }

    method FreeOne(a: nat) returns (n: int)
      requires Valid() && a in g.roots && a < |acc| && acc[a].linkC == 1
      modifies this`acc, this`link, this`accFree, this`bufFree, this`g
      ensures panicked == old(panicked)
      ensures Valid() && Shrunk(old(H()), old(g), H(), g) && n == old(acc)[a].next
      ensures n != NIL ==> 0 <= n < |acc| && n in g.roots && g.rank[n] < g.rank[a]
      ensures g.roots == old(g).roots - Ref(a) + Ref(n)
    {
      LastReference(H(), g, a);
      FreeResult(H(), g, a);
      n := Discard(a);
      g := FreeMeaning(old(H()), g, a);
    }

    /** The accessor goes to one of the free lists. */
    method Discard(a: nat) returns (n: int)
      requires a < |acc| && 0 <= acc[a].buffer < |link| && link[acc[a].buffer] > 0
      modifies this`acc, this`link, this`accFree, this`bufFree
      ensures panicked == old(panicked)
      ensures H() == FreeHeap(old(H()), a) && n == old(acc)[a].next
    {
      var b := acc[a].buffer;
      n := acc[a].next;
      link := link[b := link[b] - 1];
      if link[b] > 0 {
        acc := acc[a := acc[a].(linkC := 0, buffer := NIL, next := accFree)];
        accFree := a;
      } else {
        acc := acc[a := acc[a].(linkC := 0, next := bufFree)];
        bufFree := a;
      }
    }

    // ---------- owned chains ----------

    /** Setting the slice and the link of an accessor nobody else uses; the old link becomes the caller's. */
    method Reshape(x: nat, offset: nat, length: nat, n1: int)
      requires Valid() && Owned(H(), g, [x]) && offset + length <= BUF_S
      requires n1 != NIL ==> 0 <= n1 < |acc| && n1 != x && (n1 == acc[x].next || n1 in g.roots)
      modifies this`acc, this`g
      ensures Valid() && Owned(H(), g, [x]) && UntouchedBut(old(H()), old(g), H(), g, [x])
      ensures acc == old(acc)[x := old(acc)[x].(offset := offset, length := length, next := n1)]
      ensures g.roots == Moved(old(g).roots, old(acc)[x].next, n1) && |g.view| == |old(g).view|
      ensures g.view[x] == Slice(H(), x) + Seen(old(g).view, n1)
    {
      ghost var h0 := H();
      assert AccOk(h0, g, x) && (n1 != NIL ==> Live(h0, n1)) by {
        assert AccOk(h0, g, x);
        if n1 != NIL { assert h0.acc[n1].linkC == g.roots[n1] + |Into(h0, n1)|; }
      }
      acc := acc[x := acc[x].(offset := offset, length := length, next := n1)];
      EditResult(h0, g, H(), [x]);
      CatOne(H(), x);
      g := EditMeaning(h0, g, H(), [x]);
    }

    /** tail->acc_next = n, on the last accessor of an owned chain; n is given away. */
    method Attach(ghost ch: seq<nat>, tail: nat, n: nat)
      requires Valid() && Owned(H(), g, ch) && tail == Last(ch) && acc[tail].next == NIL
      requires n < |acc| && n in g.roots && n !in ch
      modifies this`acc, this`g
      ensures panicked == old(panicked)
      ensures Valid() && Attached(old(H()), old(g), H(), g, ch, n)
    {
      ghost var h0 := H();
      acc := acc[tail := acc[tail].(next := n)];
      AttachResult(h0, g, H(), ch, tail, n);
      g := EditMeaning(h0, g, H(), ch);
    }

    // ---------- bf_bufsize and bf_cut ----------

    /** bf_bufsize */
    method BufSize(a: nat) returns (size: nat)
      requires Valid() && Live(H(), a)
      ensures size == |g.view[a]|
    {
      size := 0;
      var cur: int := a;
      while cur != NIL
        invariant cur != NIL ==> Live(H(), cur)
        invariant size + |Seen(g.view, cur)| == |g.view[a]|
        decreases if 0 <= cur < |g.rank| then g.rank[cur] + 1 else 0
      {
        assert AccOk(H(), g, cur) && ViewOk(H(), g, cur);
        size := size + acc[cur].length;
        cur := acc[cur].next;
      }
    }

    /** Cutting a private accessor loose from its successor, which is linked elsewhere too, and trimming it. */
    method Loosen(x: nat, offset: nat, length: nat, ghost d: nat)
      requires Valid() && Owned(H(), g, [x]) && offset + length <= BUF_S
      requires d < |acc| && d != x && acc[d].linkC > 0 && acc[d].next == acc[x].next
      modifies this`acc, this`link, this`accFree, this`bufFree, this`g
      ensures Valid() && Loosened(old(H()), old(g), H(), g, x, offset, length)
    {
      var n := acc[x].next;
      Reshape(x, offset, length, NIL);
      ghost var h2, g2 := H(), g;
      TwiceLinked(old(H()), old(g), h2, g2, x, d);
      Afree(n);
      LoosenResult(old(H()), old(g), h2, g2, H(), g, x, offset, length);
    }

    /** A private accessor for part of one accessor: bf_dupacc, cut loose, and trimmed. */
    method CutPiece(d: nat, offset: nat, length: nat) returns (x: nat)
      requires Valid() && !panicked && Live(H(), d) && offset + length <= acc[d].length
      modifies this
      ensures panicked ==> NoneLeft()
      ensures !panicked ==> Valid() && NewPiece(old(H()), old(g), H(), g, x, Part(Slice(old(H()), d), offset, length))
    {
      assert AccOk(H(), g, d);
      x := DupAcc(d);
      if panicked { return; }
      ghost var h1, g1 := H(), g;
      Loosen(x, acc[x].offset + offset, length, d);
      CutPieceResult(old(H()), old(g), h1, g1, H(), g, d, x, offset, length);
    }

    /** Adding a piece at the end of a chain under construction. */
    method AddPiece(ghost ch: seq<nat>, tail: nat, d: nat, offset: nat, length: nat, ghost h0: Heap, ghost g0: Meaning)
      returns (x: nat, ghost longer: seq<nat>)
      requires Valid() && !panicked && Building(h0, g0, H(), g, ch) && tail == Last(ch)
      requires Live(h0, d) && Live(H(), d) && offset + length <= acc[d].length
      modifies this
      ensures panicked ==> NoneLeft()
      ensures !panicked ==> Valid() && Building(h0, g0, H(), g, longer)
      ensures longer != [] && Last(longer) == x && longer[0] == ch[0]
      ensures !panicked ==> Seen(g.view, ch[0]) == Seen(old(g).view, ch[0]) + Part(Slice(h0, d), offset, length)
    {
      x := CutPiece(d, offset, length);
      longer := ch + [x];
      if panicked { return; }
      ghost var h2, g2 := H(), g;
      PieceApart(h0, g0, old(H()), old(g), h2, g2, ch, x, Part(Slice(old(H()), d), offset, length));
      Attach(ch, tail, x);
      PieceAdded(h0, g0, old(H()), old(g), h2, g2, H(), g, ch, x, Part(Slice(old(H()), d), offset, length));
    }

    /** bf_cut: a chain of its own showing exactly the bytes asked for. */
    method Cut(from: int, start: nat, count: nat) returns (head: int)
      requires Valid() && !panicked
      requires from == NIL ==> start == 0 && count == 0
      requires from != NIL ==> Live(H(), from) && (count == 0 || start + count <= |g.view[from]|)
      modifies this
      ensures panicked ==> NoneLeft()
      ensures from == NIL ==> head == NIL && H() == old(H()) && g == old(g) && !panicked
      ensures from != NIL && !panicked ==> Valid() && head >= 0 && exists ch ::
        Building(old(H()), old(g), H(), g, ch) && ch[0] == head
      ensures from != NIL && !panicked ==> Seen(g.view, head) == if count == 0 then []
        else Part(old(g).view[from], start, count)
    {
      if from == NIL { return NIL; }
      ghost var h0, g0 := H(), g;
      head := NIL;
      if count == 0 {
        head := CutPiece(from, 0, 0);
        if !panicked { FirstPiece(h0, g0, H(), g, head, []); }
        return;
      }
      head := CutFrom(from, start, count);
    }

    /** bf_cut when there is something to cut. */
    method CutFrom(from: nat, start: nat, count: nat) returns (head: int)
      requires Valid() && !panicked && Live(H(), from) && count > 0 && start + count <= |g.view[from]|
      modifies this
      ensures panicked ==> NoneLeft()
      ensures !panicked ==> Valid() && head >= 0 && exists ch :: Building(old(H()), old(g), H(), g, ch) && ch[0] == head
      ensures !panicked ==> Seen(g.view, head) == Part(old(g).view[from], start, count)
    {
      ghost var h0, g0 := H(), g;
      head := NIL;
      var d, offset := Skip(from, start);
      SuffixPart(g.view[from], start, g.view[d], offset, count);
      var rest := acc[d].next;
      var n := if count >= acc[d].length - offset then acc[d].length - offset else count;
      SplitView(h0, g0, d, offset, n, count);
      var tail := CutPiece(d, offset, n);
      if panicked { return; }
      head := tail;
      FirstPiece(h0, g0, H(), g, head, Part(Slice(h0, d), offset, n));
      CutRest([tail], tail, rest, count - n, h0, g0, Part(g0.view[from], start, count));
    }

    /** Finding the accessor in which a byte position lies. */
    method Skip(from: nat, start: nat) returns (d: nat, offset: nat)
      requires Valid() && Live(H(), from) && start < |g.view[from]|
      ensures Live(H(), d) && offset < acc[d].length && offset < |g.view[d]|
      ensures g.view[d][offset..] == g.view[from][start..]
    {
      d, offset := from, start;
      while offset >= acc[d].length
        invariant Live(H(), d) && offset < |g.view[d]|
        invariant g.view[d][offset..] == g.view[from][start..]
        decreases g.rank[d]
      {
        assert AccOk(H(), g, d) && ViewOk(H(), g, d);
        offset := offset - acc[d].length;
        d := acc[d].next;
      }
    }

    /** The rest of bf_cut: whole accessors, then part of the last one. */
    method CutRest(ghost first: seq<nat>, last: nat, from: int, count: nat, ghost h0: Heap, ghost g0: Meaning,
                   ghost want: seq<byte>)
      requires Valid() && !panicked && Inv(h0, g0)
      requires Building(h0, g0, H(), g, first) && Cutting(h0, g0, H(), g, first, from, count, want)
        && last == Last(first)
      modifies this
      ensures panicked ==> NoneLeft()
      ensures !panicked ==> Valid() && Seen(g.view, first[0]) == want
      ensures !panicked ==> exists ch :: Building(h0, g0, H(), g, ch) && ch[0] == first[0]
    {
      var cur: int, length: nat, tail: nat := from, count, last;
      ghost var ch := first;
      while cur != NIL && length != 0 && length >= acc[cur].length
        invariant !panicked && Valid() && Building(h0, g0, H(), g, ch) && Cutting(h0, g0, H(), g, ch, cur, length, want)
        invariant tail == Last(ch) && ch[0] == first[0]
        decreases if 0 <= cur < |g0.rank| then g0.rank[cur] + 1 else 0
      {
        var n, next := acc[cur].length, acc[cur].next;
        var rest := length - n;
        tail, ch := CutStep(ch, tail, cur, next, n, length, rest, h0, g0, want);
        if panicked { return; }
        length, cur := rest, next;
      }
      CutLast(ch, tail, cur, length, h0, g0, want);
    }

    /** The last accessor gives only part of its bytes. */
    method CutLast(ghost ch: seq<nat>, tail: nat, cur: int, length: nat, ghost h0: Heap, ghost g0: Meaning,
                   ghost want: seq<byte>)
      requires Valid() && !panicked && Inv(h0, g0) && Building(h0, g0, H(), g, ch) && tail == Last(ch)
      requires Cutting(h0, g0, H(), g, ch, cur, length, want)
      requires cur == NIL || length == 0 || (0 <= cur < |acc| && length < acc[cur].length)
      modifies this
      ensures panicked ==> NoneLeft()
      ensures !panicked ==> Valid() && Seen(g.view, ch[0]) == want
      ensures !panicked ==> exists c :: Building(h0, g0, H(), g, c) && c[0] == ch[0]
    {
      if length != 0 {
        var x, longer := CutStep(ch, tail, cur, acc[cur].next, length, length, 0, h0, g0, want);
      }
    }

    /** One more piece: n bytes of cur. */
    method CutStep(ghost ch: seq<nat>, tail: nat, cur: nat, ghost next: int, n: nat, ghost length: nat, ghost rest: nat,
                   ghost h0: Heap, ghost g0: Meaning, ghost want: seq<byte>)
      returns (x: nat, ghost longer: seq<nat>)
      requires Valid() && !panicked && Inv(h0, g0) && Building(h0, g0, H(), g, ch) && tail == Last(ch)
      requires Cutting(h0, g0, H(), g, ch, cur, length, want)
      requires n <= length && Live(h0, cur) && n <= h0.acc[cur].length && (n < length ==> n == h0.acc[cur].length)
      requires next == h0.acc[cur].next && rest == length - n
      modifies this
      ensures panicked ==> NoneLeft()
      ensures !panicked ==>
        Valid() && Building(h0, g0, H(), g, longer) && Cutting(h0, g0, H(), g, longer, next, rest, want)
      ensures longer != [] && x == Last(longer) && longer[0] == ch[0]
      ensures next != NIL ==> Live(h0, next) && |g0.rank| == |h0.acc| && g0.rank[next] < g0.rank[cur]
    {
      SplitView(h0, g0, cur, 0, n, length);
      StillThere(h0, g0, H(), g, ch, cur);
      x, longer := AddPiece(ch, tail, cur, 0, n, h0, g0);
      if !panicked { CutJoin(h0, g0, old(H()), old(g), H(), g, ch, longer, cur, next, n, length, rest, want); }
    }

    // ---------- bf_delhead ----------

    /** acc_linkC++ : one more reference for the caller. */
    method TakeRef(a: nat)
      requires Valid() && Live(H(), a)
      modifies this`acc, this`g
      ensures Valid() && Survivors(old(H()), old(g), H(), g, -1) && g.roots == old(g).roots + multiset{a}
    {
      RefKeeps(H(), g, a);
      acc := acc[a := acc[a].(linkC := acc[a].linkC + 1)];
      g := g.(roots := g.roots + multiset{a});
      assert H() == RefHeap(old(H()), a);
    }

    /** A private accessor in place of a possibly shared one. */
    method Unshare(d: nat) returns (r: nat)
      requires Valid() && !panicked && d < |acc| && d in g.roots
      modifies this
      ensures panicked ==> NoneLeft()
      ensures !panicked ==> Valid() && Private(old(H()), old(g), H(), g, d, r)
    {
      r := d;
      assert acc[d].linkC == g.roots[d] + |Into(H(), d)|;
      if acc[d].linkC != 1 {
        r := DupAcc(d);
        if !panicked { DropShared(d, r, old(H()), old(g)); }
      } else {
        assert g.roots == g.roots - multiset{d} + multiset{d};
      }
    }

    method DropShared(d: nat, ghost x: nat, ghost h0: Heap, ghost g0: Meaning)
      requires Valid() && Inv(h0, g0) && Duplicated(h0, g0, H(), g, d, x) && d in g0.roots && h0.acc[d].linkC > 1
      modifies this`acc, this`link, this`accFree, this`bufFree, this`g
      ensures Valid() && Private(h0, g0, H(), g, d, x)
    {
      ghost var h1, g1 := H(), g;
      Afree(d);
      DupDropped(h0, g0, h1, g1, H(), g, d, x);
    }

    /** bf_delhead: the same bytes without the first `offset`. */
    method DelHead(from: nat, start: nat) returns (r: nat)
      requires Valid() && !panicked && from < |acc| && from in g.roots && Live(H(), from) && start < |g.view[from]|
      modifies this
      ensures panicked ==> NoneLeft()
      ensures !panicked ==> Valid() && Result(old(H()), old(g), H(), g, multiset{from}, r, old(g).view[from][start..])
    {
      ghost var h0, g0 := H(), g;
      var d, offset := Skip(from, start);
      Advance(from, d);
      ghost var h1, g1 := H(), g;
      r := Unshare(d);
      if panicked { return; }
      ghost var h2, g2 := H(), g;
      Behead(r, offset);
      DelHeadResult(h0, g0, h1, g1, h2, g2, H(), g, from, d, r, offset, start);
    }

    /** Dropping the first bytes of a private accessor. */
    method Behead(r: nat, offset: nat)
      requires Valid() && Owned(H(), g, [r]) && offset <= acc[r].length
      modifies this`acc, this`g
      ensures Valid() && Beheaded(old(H()), old(g), H(), g, r, offset)
    {
      ghost var h0, g0 := H(), g;
      OwnedOk(h0, g0, r);
      Reshape(r, acc[r].offset + offset, acc[r].length - offset, acc[r].next);
      BeheadResult(h0, g0, H(), g, r, offset);
    }

    /** Moving the caller's reference further down its chain. */
    method Advance(from: nat, d: nat)
      requires Valid() && from < |acc| && from in g.roots && Live(H(), d)
      modifies this`acc, this`link, this`accFree, this`bufFree, this`g
      ensures Valid() && Result(old(H()), old(g), H(), g, multiset{from}, d, Seen(old(g).view, d))
      ensures |acc| == |old(acc)| && acc[d] == old(acc)[d].(linkC := acc[d].linkC)
    {
      if d != from {
        TakeRef(d);
        ghost var h1, g1 := H(), g;
        Afree(from);
        AdvanceResult(old(H()), old(g), h1, g1, H(), g, from, d);
      } else {
        assert g.roots == g.roots - multiset{d} + multiset{d};
      }
    }
  }

  // ---------- bf_init ----------

  /** Accessor k when i buffers have been given theirs. */
  function InitAcc(accNr: nat, i: nat, k: nat): Acc {
    if k + i < accNr then Acc(0, 0, 0, NIL, k - 1)
    else Acc(0, 0, 0, accNr - 1 - k, if k == accNr - 1 then NIL else k + 1)
  }

  ghost function InitMeaning(accNr: nat, bufNr: nat): Meaning
    requires bufNr <= accNr
  {
    Meaning(multiset{}, seq(accNr, _ => 0), seq(accNr, _ => []),
            seq(accNr - bufNr, k requires 0 <= k < accNr - bufNr => accNr - bufNr - 1 - k),
              seq(bufNr, k => accNr - bufNr + k))
  }

  ghost predicate InitHeap(h: Heap, accNr: nat, bufNr: nat) {
    && bufNr <= accNr && |h.acc| == accNr && |h.link| == |h.data| == bufNr
    && (forall k :: 0 <= k < accNr ==> h.acc[k] == InitAcc(accNr, bufNr, k))
    && (forall b :: 0 <= b < bufNr ==> h.link[b] == 0) && (forall b :: 0 <= b < bufNr ==> |h.data[b]| == BUF_S)
    && h.accFree == accNr - bufNr - 1 && h.bufFree == if bufNr == 0 then NIL else accNr - bufNr
  }

  lemma InitOk(h: Heap, accNr: nat, bufNr: nat)
    requires InitHeap(h, accNr, bufNr)
    ensures Inv(h, InitMeaning(accNr, bufNr))
  {
    var g := InitMeaning(accNr, bufNr);
    assert Sizes(h, g) && Shape(h, g) && Views(h, g);
    assert forall a :: 0 <= a < accNr ==> Into(h, a) == {};
    assert forall b :: 0 <= b < bufNr ==> Users(h, b) == {};
    InitFree(h, accNr, bufNr);
  }

  lemma InitFree(h: Heap, accNr: nat, bufNr: nat)
    requires InitHeap(h, accNr, bufNr)
    ensures FreeLists(h, InitMeaning(accNr, bufNr))
  {
    var g := InitMeaning(accNr, bufNr);
    forall k | 0 <= k < |g.accList| ensures FreeLink(h.acc, g.accList, k) {}
    forall k | 0 <= k < |g.bufList| ensures FreeLink(h.acc, g.bufList, k) {}
    forall a | 0 <= a < accNr ensures a in g.accList || a in g.bufList {
      if a < accNr - bufNr {
        assert g.accList[accNr - bufNr - 1 - a] == a;
      } else {
        assert g.bufList[a - (accNr - bufNr)] == a;
      }
    }
    forall b | 0 <= b < |h.link| && h.link[b] == 0 ensures HasFree(h, g.bufList, b) {
      var a := accNr - 1 - b;
      assert g.bufList[bufNr - 1 - b] == a && h.acc[a] == InitAcc(accNr, bufNr, a);
    }
  }

  lemma SuffixPart(v: seq<byte>, start: nat, w: seq<byte>, offset: nat, count: nat)
    requires start <= |v| && offset <= |w| && w[offset..] == v[start..]
    ensures Part(w, offset, count) == Part(v, start, count)
  {
    assert |w| - offset == |v| - start;
    if offset + count <= |w| {
      assert w[offset..offset + count] == w[offset..][..count];
      assert v[start..start + count] == v[start..][..count];
    }
  }

  /** Only r changed, and it lost its first bytes. */
  ghost predicate Beheaded(h0: Heap, g0: Meaning, h1: Heap, g1: Meaning, r: nat, offset: nat) {
    true == (
      && UntouchedBut(h0, g0, h1, g1, [r]) && g1.roots == g0.roots && |g1.view| == |g0.view|
      && r < |g1.view| && offset <= |g0.view[r]| && g1.view[r] == g0.view[r][offset..])
  }

  lemma OwnedOk(h: Heap, g: Meaning, r: nat)
    requires Inv(h, g) && Owned(h, g, [r])
    ensures Sizes(h, g) && r < |h.acc| && AccOk(h, g, r) && h.acc[r].next != r
  {
    assert [r][0] == r;
  }

  lemma BeheadResult(h0: Heap, g0: Meaning, h1: Heap, g1: Meaning, r: nat, offset: nat)
    requires Inv(h0, g0) && Owned(h0, g0, [r]) && offset <= h0.acc[r].length && h1.data == h0.data
    requires h1.acc == h0.acc[r := h0.acc[r].(offset := h0.acc[r].offset + offset, length := h0.acc[r].length - offset)]
    requires UntouchedBut(h0, g0, h1, g1, [r]) && |g1.view| == |g0.view| && r < |g1.view|
    requires g1.roots == Moved(g0.roots, h0.acc[r].next, h0.acc[r].next)
    requires g1.view[r] == Slice(h1, r) + Seen(g0.view, h0.acc[r].next)
    ensures Beheaded(h0, g0, h1, g1, r, offset)
  {
    assert AccOk(h0, g0, r) && ViewOk(h0, g0, r);
    assert Slice(h1, r) == Slice(h0, r)[offset..];
    CutFront(Slice(h0, r), Seen(g0.view, h0.acc[r].next), offset);
    assert g1.roots == g0.roots;
  }

  lemma CutFront(a: seq<byte>, b: seq<byte>, offset: nat)
    requires offset <= |a|
    ensures (a + b)[offset..] == a[offset..] + b
  {
  }

  lemma DelHeadResult(h0: Heap, g0: Meaning, h1: Heap, g1: Meaning, h2: Heap, g2: Meaning, h3: Heap, g3: Meaning,
                      from: nat, d: nat, r: nat, offset: nat, start: nat)
    requires Inv(h2, g2) && Inv(h3, g3) && from in g0.roots && d < |g0.view| && from < |g0.view|
    requires Result(h0, g0, h1, g1, multiset{from}, d, g0.view[d]) && Private(h1, g1, h2, g2, d, r)
    requires Beheaded(h2, g2, h3, g3, r, offset)
    requires start <= |g0.view[from]| && offset <= |g0.view[d]| && g0.view[d][offset..] == g0.view[from][start..]
    ensures Result(h0, g0, h3, g3, multiset{from}, r, g0.view[from][start..])
  {
    var held := g0.roots - multiset{from};
    assert g2.roots == held + multiset{r};
    assert r !in held;
    HeldKept(h1, g1, h2, g2, held, r);
    forall c | c in held ensures Seen(g3.view, c) == Seen(g0.view, c) {
      assert c in g2.roots && h2.acc[c].linkC == g2.roots[c] + |Into(h2, c)|;
    }
  }

  /** References that are still held show the same bytes. */
  lemma HeldKept(h0: Heap, g0: Meaning, h1: Heap, g1: Meaning, held: multiset<nat>, r: int)
    requires Inv(h1, g1) && Survivors(h0, g0, h1, g1, r) && held <= g1.roots && r !in held
    ensures forall c {:trigger Seen(g1.view, c)} :: c in held ==> Seen(g1.view, c) == Seen(g0.view, c)
  {
    forall c | c in held ensures Seen(g1.view, c) == Seen(g0.view, c) {
      assert c in g1.roots && h1.acc[c].linkC == g1.roots[c] + |Into(h1, c)|;
      assert SameAcc(h0, g0, h1, g1, c);
    }
  }

  lemma ShrunkSurvivors(h0: Heap, g0: Meaning, h1: Heap, g1: Meaning, h2: Heap, g2: Meaning)
    requires Survivors(h0, g0, h1, g1, -1) && Shrunk(h1, g1, h2, g2) && |g2.view| == |h2.acc|
    ensures Survivors(h0, g0, h2, g2, -1)
  {
    forall a | 0 <= a < |h2.acc| && h2.acc[a].linkC > 0 ensures h0.acc[a].linkC > 0 && SameAcc(h0, g0, h2, g2, a) {
      assert SameAcc(h1, g1, h2, g2, a) && SameAcc(h0, g0, h1, g1, a);
    }
  }

  lemma AdvanceResult(h0: Heap, g0: Meaning, h1: Heap, g1: Meaning, h2: Heap, g2: Meaning, from: nat, d: nat)
    requires Inv(h2, g2) && Survivors(h0, g0, h1, g1, -1) && Shrunk(h1, g1, h2, g2) && |h0.acc| == |h2.acc|
    requires from in g0.roots && from != d && d < |h0.acc|
    requires g1.roots == g0.roots + multiset{d} && g2.roots == g1.roots - Ref(from)
    ensures Result(h0, g0, h2, g2, multiset{from}, d, Seen(g0.view, d))
    ensures h2.acc[d] == h0.acc[d].(linkC := h2.acc[d].linkC)
  {
    ShrunkSurvivors(h0, g0, h1, g1, h2, g2);
    assert g2.roots == g0.roots - multiset{from} + multiset{d};
    HeldKept(h0, g0, h2, g2, g2.roots, -1);
    assert h2.acc[d].linkC == g2.roots[d] + |Into(h2, d)|;
    assert SameAcc(h0, g0, h2, g2, d);
  }

  /** Everything live in h1, except r, was live in h0, with the same fields and the same bytes. */
  ghost predicate Survivors(h0: Heap, g0: Meaning, h1: Heap, g1: Meaning, r: int) {
    true == (
      && |h1.acc| == |h0.acc| && |g1.view| == |h1.acc| && h1.data == h0.data
      && (forall a :: 0 <= a < |h1.acc| && a != r && h1.acc[a].linkC > 0 ==>
        h0.acc[a].linkC > 0 && SameAcc(h0, g0, h1, g1, a)))
  }

  /** r is a private accessor with the fields and the bytes of d, which the caller has given up. */
  ghost predicate Private(h0: Heap, g0: Meaning, h1: Heap, g1: Meaning, d: nat, r: nat) {
    true == (
      && Survivors(h0, g0, h1, g1, r) && Owned(h1, g1, [r]) && d < |h0.acc|
      && g1.roots == g0.roots - multiset{d} + multiset{r}
      && h1.acc[r] == h0.acc[d].(linkC := 1) && Seen(g1.view, r) == Seen(g0.view, d)
      && (r == d || h0.acc[r].linkC == 0))
  }

  lemma DupDropped(h0: Heap, g0: Meaning, h1: Heap, g1: Meaning, h2: Heap, g2: Meaning, d: nat, x: nat)
    requires Inv(h0, g0) && Inv(h1, g1) && Inv(h2, g2) && d < |h0.acc| && h0.acc[d].linkC > 1 && !Live(h0, x)
    requires x < |h1.acc| == |h0.acc| && OneMore(h0.acc, h1.acc, h0.acc[d].next, x)
      && h1.acc[x] == h0.acc[d].(linkC := 1)
    requires h1.data == h0.data && g1.view == g0.view[x := g0.view[d]] && g1.roots == g0.roots + multiset{x}
    requires d in g0.roots && Owned(h1, g1, [x])
    requires Dropped(h1.acc, h2.acc, d, g1.view, g2.view) && h2.data == h1.data && g2.roots == g1.roots - Ref(d)
    ensures Private(h0, g0, h2, g2, d, x)
  {
    assert h1.acc[d].linkC > 1;
    forall a | 0 <= a < |h2.acc| && a != x && h2.acc[a].linkC > 0
      ensures h0.acc[a].linkC > 0 && SameAcc(h0, g0, h2, g2, a)
    {
      assert AccOk(h0, g0, d);
    }
    assert g2.roots == g0.roots - multiset{d} + multiset{x};
  }

  /** The outcome of an operation that trades client references for one new reference. */
  ghost predicate Result(h0: Heap, g0: Meaning, h1: Heap, g1: Meaning, used: multiset<nat>, r: int, bytes: seq<byte>) {
    true == (
      && 0 <= r < |g1.view| && g1.roots == g0.roots - used + multiset{r} && g1.view[r] == bytes
      && (forall c {:trigger Seen(g1.view, c)} :: c in g0.roots - used ==> Seen(g1.view, c) == Seen(g0.view, c)))
  }

  lemma StillThere(h0: Heap, g0: Meaning, h: Heap, g: Meaning, ch: seq<nat>, cur: nat)
    requires Building(h0, g0, h, g, ch) && Live(h0, cur)
    ensures Live(h, cur) && h.acc[cur] == h0.acc[cur]
  {
  }

  /** One piece more: n of the bytes still wanted were shown by cur. */
  lemma CutJoin(h0: Heap, g0: Meaning, h1: Heap, g1: Meaning, h2: Heap, g2: Meaning, ch: seq<nat>, longer: seq<nat>,
                cur: nat, next: int, n: nat, length: nat, rest: nat, want: seq<byte>)
    requires Cutting(h0, g0, h1, g1, ch, cur, length, want) && ch != [] && longer != [] && longer[0] == ch[0]
    requires Live(h0, cur) && next == h0.acc[cur].next && length == n + rest && (next != NIL ==> Live(h0, next))
    requires Seen(g2.view, ch[0]) == Seen(g1.view, ch[0]) + Part(Slice(h0, cur), 0, n)
    requires Part(Seen(g0.view, cur), 0, length) == Part(Slice(h0, cur), 0, n) + Part(Seen(g0.view, next), 0, rest)
    requires rest <= |Seen(g0.view, next)|
    ensures Cutting(h0, g0, h2, g2, longer, next, rest, want)
  {
    SameSum(Seen(g1.view, ch[0]), Part(Slice(h0, cur), 0, n), Part(Seen(g0.view, next), 0, rest));
  }

  /** What has been cut so far, followed by the next `length` bytes at cur, are the bytes wanted. */
  ghost predicate Cutting(h0: Heap, g0: Meaning, h: Heap, g: Meaning, ch: seq<nat>, cur: int, length: nat,
                          want: seq<byte>) {
    true == (
      && ch != [] && (cur != NIL ==> Live(h0, cur))
      && length <= |Seen(g0.view, cur)| && Seen(g.view, ch[0]) + Part(Seen(g0.view, cur), 0, length) == want)
  }

  /** n bytes from one accessor, the rest from its successors. */
  lemma SplitView(h: Heap, g: Meaning, d: nat, offset: nat, n: nat, count: nat)
    requires Inv(h, g) && Live(h, d) && n <= count && offset + n <= h.acc[d].length && offset + count <= |g.view[d]|
    requires n < count ==> offset + n == h.acc[d].length
    ensures Part(g.view[d], offset, count) == Part(Slice(h, d), offset, n)
      + Part(Seen(g.view, h.acc[d].next), 0, count - n)
    ensures count - n <= |Seen(g.view, h.acc[d].next)| && |Slice(h, d)| == h.acc[d].length
    ensures h.acc[d].next != NIL ==> Live(h, h.acc[d].next) && g.rank[h.acc[d].next] < g.rank[d]
  {
    assert AccOk(h, g, d) && ViewOk(h, g, d);
    assert |h.data[h.acc[d].buffer]| == BUF_S;
    PartOfSum(Slice(h, d), Seen(g.view, h.acc[d].next), offset, n, count);
  }

  lemma PartOfSum(a: seq<byte>, b: seq<byte>, offset: nat, n: nat, count: nat)
    requires n <= count && offset + n <= |a| && offset + count <= |a + b| && (n < count ==> offset + n == |a|)
    ensures Part(a + b, offset, count) == Part(a, offset, n) + Part(b, 0, count - n) && count - n <= |b|
  {
  }

  /** A chain under construction: nobody else knows it, and everything older is untouched. */
  ghost predicate Building(h0: Heap, g0: Meaning, h: Heap, g: Meaning, ch: seq<nat>) {
    true == (
      && Owned(h, g, ch) && h.acc[Last(ch)].next == NIL && |g.view| == |h.acc|
      && g.roots == g0.roots + multiset{ch[0]} && Untouched(h0, g0, h, g)
      && (forall k :: 0 <= k < |ch| ==> !Live(h0, ch[k])))
  }

  lemma FirstPiece(h0: Heap, g0: Meaning, h1: Heap, g1: Meaning, x: nat, bytes: seq<byte>)
    requires NewPiece(h0, g0, h1, g1, x, bytes)
    ensures Building(h0, g0, h1, g1, [x]) && Seen(g1.view, x) == bytes
  {
  }

  lemma PieceApart(h0: Heap, g0: Meaning, h1: Heap, g1: Meaning, h2: Heap, g2: Meaning, ch: seq<nat>, x: nat,
                   bytes: seq<byte>)
    requires Building(h0, g0, h1, g1, ch) && NewPiece(h1, g1, h2, g2, x, bytes)
    ensures Owned(h2, g2, ch) && h2.acc[Last(ch)].next == NIL && x !in ch && x in g2.roots && x < |h2.acc|
    ensures Seen(g2.view, ch[0]) == Seen(g1.view, ch[0])
  {
    forall k | 0 <= k < |ch| ensures ch[k] != x && h2.acc[ch[k]] == h1.acc[ch[k]] {}
    forall k | 0 <= k < |ch| - 1 ensures h2.acc[ch[k]].next == ch[k + 1] {
      assert h1.acc[ch[k]].next == ch[k + 1];
    }
  }

  lemma PieceAdded(h0: Heap, g0: Meaning, h1: Heap, g1: Meaning, h2: Heap, g2: Meaning, h3: Heap, g3: Meaning,
                   ch: seq<nat>, x: nat, bytes: seq<byte>)
    requires Building(h0, g0, h1, g1, ch) && NewPiece(h1, g1, h2, g2, x, bytes)
    requires Owned(h2, g2, ch) && x !in ch && Owned(h3, g3, ch) && UntouchedBut(h2, g2, h3, g3, ch)
    requires h3.acc == h2.acc[Last(ch) := h2.acc[Last(ch)].(next := x)] && |g3.view| == |g2.view|
    requires g3.roots == g2.roots - multiset{x}
    ensures Building(h0, g0, h3, g3, ch + [x])
  {
    PieceOwned(h2, g2, h3, g3, ch, x);
    PieceUntouched(h0, g0, h1, g1, h2, g2, h3, g3, ch);
    var c2 := ch + [x];
    assert forall k :: 0 <= k < |c2| ==> c2[k] == if k < |ch| then ch[k] else x;
  }

  lemma PieceOwned(h2: Heap, g2: Meaning, h3: Heap, g3: Meaning, ch: seq<nat>, x: nat)
    requires Owned(h2, g2, ch) && Owned(h2, g2, [x]) && x !in ch && Owned(h3, g3, ch)
    requires h3.acc == h2.acc[Last(ch) := h2.acc[Last(ch)].(next := x)] && g3.roots == g2.roots - multiset{x}
    ensures Owned(h3, g3, ch + [x])
  {
    var c2 := ch + [x];
    assert [x][0] == x;
    forall k | 0 <= k < |c2| - 1 ensures h3.acc[c2[k]].next == c2[k + 1] {
      if k < |ch| - 1 { assert h2.acc[ch[k]].next == ch[k + 1]; }
    }
    assert forall k :: 0 <= k < |c2| ==> c2[k] == if k < |ch| then ch[k] else x;
  }

  lemma PieceUntouched(h0: Heap, g0: Meaning, h1: Heap, g1: Meaning, h2: Heap, g2: Meaning, h3: Heap, g3: Meaning,
                       ch: seq<nat>)
    requires Untouched(h0, g0, h1, g1) && Untouched(h1, g1, h2, g2) && UntouchedBut(h2, g2, h3, g3, ch)
    requires forall k :: 0 <= k < |ch| ==> !Live(h0, ch[k])
    ensures Untouched(h0, g0, h3, g3)
  {
    forall a | 0 <= a < |h0.acc| && h0.acc[a].linkC > 0
      ensures h3.acc[a] == h0.acc[a] && Seen(g3.view, a) == Seen(g0.view, a) && Slice(h3, a) == Slice(h0, a)
    {
      assert a !in ch && h1.acc[a] == h0.acc[a] && h2.acc[a] == h0.acc[a];
    }
  }

  /** x shows part of its buffer and nothing else; its old successor has one link fewer. */
  ghost predicate Loosened(h0: Heap, g0: Meaning, h1: Heap, g1: Meaning, x: nat, offset: nat, length: nat) {
    true == (
      && x < |h0.acc| && |g1.view| == |h0.acc| && Owned(h1, g1, [x]) && g1.roots == g0.roots && h1.data == h0.data
      && h1.acc[x] == h0.acc[x].(next := NIL, offset := offset, length := length)
      && g1.view[x] == Slice(h1, x)
      && OneMore(h1.acc, h0.acc, h0.acc[x].next, x)
      && (forall a :: 0 <= a < |h0.acc| && a != x && h0.acc[a].linkC > 0 ==> Seen(g1.view, a) == Seen(g0.view, a)))
  }

  lemma TwiceLinked(h0: Heap, g0: Meaning, h2: Heap, g2: Meaning, x: nat, d: nat)
    requires Inv(h0, g0) && Inv(h2, g2) && x < |h0.acc| == |h2.acc| && d < |h0.acc|
    requires h0.acc[x].linkC > 0 && h0.acc[d].linkC > 0 && h0.acc[d].next == h0.acc[x].next
    requires h2.acc[d] == h0.acc[d] && g2.roots == Moved(g0.roots, h0.acc[x].next, NIL)
    ensures var n := h0.acc[x].next;
      n == NIL || (0 <= n < |h2.acc| && n in g2.roots && h2.acc[n].linkC > 1 && n != x)
  {
    var n := h0.acc[x].next;
    assert AccOk(h0, g0, x);
    if n != NIL {
      assert d in Into(h2, n);
      assert h2.acc[n].linkC == g2.roots[n] + |Into(h2, n)|;
    }
  }

  lemma LoosenResult(h0: Heap, g0: Meaning, h2: Heap, g2: Meaning, h3: Heap, g3: Meaning, x: nat, offset: nat,
                     length: nat)
    requires x < |h0.acc| && Owned(h2, g2, [x]) && UntouchedBut(h0, g0, h2, g2, [x]) && |g2.view| == |h0.acc|
    requires h2.acc == h0.acc[x := h0.acc[x].(offset := offset, length := length, next := NIL)] && h2.data == h0.data
    requires g2.roots == Moved(g0.roots, h0.acc[x].next, NIL) && g2.view[x] == Slice(h2, x)
    requires g3.roots == g2.roots - Ref(h0.acc[x].next) && h3.data == h2.data && -1 <= h0.acc[x].next
    requires var n := h0.acc[x].next; n != x && if n == NIL then h3 == h2 && g3 == g2
      else Dropped(h2.acc, h3.acc, n, g2.view, g3.view) && h2.acc[n].linkC > 1
    ensures Loosened(h0, g0, h3, g3, x, offset, length)
  {
    assert g3.roots == g0.roots;
  }

  /** x is a new private accessor showing the given bytes; everything else is as before. */
  ghost predicate NewPiece(h0: Heap, g0: Meaning, h1: Heap, g1: Meaning, x: nat, bytes: seq<byte>) {
    true == (
      && !Live(h0, x) && |g1.view| == |h1.acc| == |h0.acc| && Owned(h1, g1, [x]) && h1.acc[x].next == NIL
      && g1.roots == g0.roots + multiset{x} && g1.view[x] == bytes && h1.acc[x].length == |bytes|
      && Untouched(h0, g0, h1, g1))
  }

  lemma CutPieceResult(h0: Heap, g0: Meaning, h1: Heap, g1: Meaning, h3: Heap, g3: Meaning, d: nat, x: nat,
                       offset: nat, length: nat)
    requires Sizes(h0, g0) && d < |h0.acc| && AccOk(h0, g0, d) && offset + length <= h0.acc[d].length && !Live(h0, x)
    requires x < |h1.acc| == |h0.acc| && h1.acc[x] == h0.acc[d].(linkC := 1) && h1.data == h0.data
    requires g1.roots == g0.roots + multiset{x} && g1.view == g0.view[x := g0.view[d]]
    requires OneMore(h0.acc, h1.acc, h0.acc[d].next, x)
      && Loosened(h1, g1, h3, g3, x, h0.acc[d].offset + offset, length)
    ensures NewPiece(h0, g0, h3, g3, x, Part(Slice(h0, d), offset, length))
  {
    forall a | 0 <= a < |h0.acc| && h0.acc[a].linkC > 0
      ensures h3.acc[a] == h0.acc[a] && Seen(g3.view, a) == Seen(g0.view, a) && Slice(h3, a) == Slice(h0, a)
    {
      assert a != x && h1.acc[a].linkC > 0;
    }
    PieceBytes(h0, h3, d, x, offset, length);
  }

  lemma PieceBytes(h0: Heap, h3: Heap, d: nat, x: nat, offset: nat, length: nat)
    requires d < |h0.acc| && x < |h3.acc| && h3.data == h0.data && offset + length <= h0.acc[d].length
    requires h3.acc[x].buffer == h0.acc[d].buffer && 0 <= h0.acc[d].buffer < |h0.data|
      && |h0.data[h0.acc[d].buffer]| == BUF_S
    requires h0.acc[d].offset + h0.acc[d].length <= BUF_S
    requires h3.acc[x].offset == h0.acc[d].offset + offset && h3.acc[x].length == length
    ensures Slice(h3, x) == Part(Slice(h0, d), offset, length)
  {
    assert |Slice(h0, d)| == h0.acc[d].length;
    assert Slice(h3, x) == Part(Slice(h0, d), offset, length);
  }

  /** length bytes from offset. */
  function Part(s: seq<byte>, offset: nat, length: nat): seq<byte> {
    if offset + length <= |s| then s[offset..offset + length] else []
  }

  /** The owned chain ch now ends in a link to n, which the caller has given away. */
  ghost predicate Attached(h0: Heap, g0: Meaning, h1: Heap, g1: Meaning, ch: seq<nat>, n: nat) {
    true == (
      && Owned(h0, g0, ch) && Owned(h1, g1, ch) && UntouchedBut(h0, g0, h1, g1, ch) && |g1.view| == |g0.view|
      && n < |g0.view|
      && h1 == h0.(acc := h0.acc[Last(ch) := h0.acc[Last(ch)].(next := n)]) && ch[0] < |g0.view|
      && g1.roots == g0.roots - multiset{n} && g1.view[ch[0]] == g0.view[ch[0]] + g0.view[n])
  }

  lemma AttachResult(h0: Heap, g: Meaning, h1: Heap, ch: seq<nat>, tail: nat, n: nat)
    requires Inv(h0, g) && Owned(h0, g, ch) && tail == Last(ch) && h0.acc[tail].next == NIL
    requires n < |h0.acc| && n in g.roots && n !in ch
    requires h1 == h0.(acc := h0.acc[tail := h0.acc[tail].(next := n)])
    ensures var g1 := EditMeaning(h0, g, h1, ch);
      && Inv(h1, g1) && Owned(h1, g1, ch) == true && UntouchedBut(h0, g, h1, g1, ch) == true
      && g1.roots == g.roots - multiset{n}
      && g1.view[ch[0]] == g.view[ch[0]] + g.view[n]
  {
    assert Live(h0, n) by { assert h0.acc[n].linkC == g.roots[n] + |Into(h0, n)|; }
    AttachEdited(h0, g, h1, ch, tail, n);
    EditResult(h0, g, h1, ch);
    AttachView(h0, g, h1, ch, tail, n);
  }

  lemma AttachView(h0: Heap, g: Meaning, h1: Heap, ch: seq<nat>, tail: nat, n: nat)
    requires Inv(h0, g) && Owned(h0, g, ch) && tail == Last(ch) && h0.acc[tail].next == NIL
    requires h1 == h0.(acc := h0.acc[tail := h0.acc[tail].(next := n)])
    ensures Cat(h1, ch) == g.view[ch[0]]
  {
    ChainView(h0, g, ch);
    CatKept(h0, h1, ch);
  }

  lemma AttachEdited(h0: Heap, g: Meaning, h1: Heap, ch: seq<nat>, tail: nat, n: nat)
    requires Inv(h0, g) && Owned(h0, g, ch) && tail == Last(ch) && Live(h0, n) && n !in ch
    requires h1 == h0.(acc := h0.acc[tail := h0.acc[tail].(next := n)])
    ensures Edited(h0, g, h1, ch)
  {
    forall k | 0 <= k < |ch| ensures h1.acc[ch[k]].offset + h1.acc[ch[k]].length <= BUF_S {
      assert AccOk(h0, g, ch[k]);
    }
  }

  lemma {:induction false} CatKept(h0: Heap, h1: Heap, ch: seq<nat>)
    requires forall k :: 0 <= k < |ch| ==> Slice(h1, ch[k]) == Slice(h0, ch[k])
    ensures Cat(h1, ch) == Cat(h0, ch)
  {
    if ch != [] {
      CatKept(h0, h1, ch[1..]);
    }
  }
}
