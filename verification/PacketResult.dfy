/** bf_append and bf_align as a whole. */
module PacketResult {
  import opened Base
  import opened Lists
  import opened PacketHeap
  import opened Packet
  import opened PacketOps
  import opened PacketAppend
  import opened PacketMerge
  import opened PacketJoin

  /** One more reference to what follows, as a link or as the caller's. */
  method ShareNext(p: Pool, n: int, ghost ch: seq<nat>)
    requires p.Valid() && (n != NIL ==> Live(p.H(), n)) && Owned(p.H(), p.g, ch) && n !in ch
    modifies p`acc, p`g
    ensures p.Valid() && p.g.roots == old(p.g).roots + Ref(n) && SurvivorsBut(old(p.H()), old(p.g), p.H(), p.g, [])
    ensures Owned(p.H(), p.g, ch) && p.acc[Last(ch)] == old(p.acc)[Last(ch)]
      && Seen(p.g.view, ch[0]) == Seen(old(p.g).view, ch[0])
  {
    if n != NIL {
      ghost var h0, g0 := p.H(), p.g;
      p.TakeRef(n);
      assert SurvivorsBut(h0, g0, p.H(), p.g, [|h0.acc|]);
      forall k | 0 <= k < |ch| ensures p.g.roots[ch[k]] == g0.roots[ch[k]] { assert ch[k] in ch; }
      OwnedKept(h0, g0, p.H(), p.g, ch, |h0.acc|);
    } else {
      assert p.g.roots == old(p.g).roots + Ref(n);
    }
  }

  /** bf_append when the first chain has no bytes: the second one is the result. */
  lemma NothingFirst(h0: Heap, g0: Meaning, h: Heap, g: Meaning, f0: nat, s0: nat)
    requires Inv(h, g) && Appending(h0, g0, h, g, [], NIL, f0) && multiset{f0} + multiset{s0} <= g0.roots
    ensures Result(h0, g0, h, g, Ref(f0) + Ref(s0), s0, Seen(g0.view, f0) + Seen(g0.view, s0))
  {
    assert g.roots == g0.roots - Ref(f0);
    assert g.roots == g0.roots - (Ref(f0) + Ref(s0)) + multiset{s0};
    forall c | c in g.roots ensures Seen(g.view, c) == Seen(g0.view, c) && c < |h.acc| {
      assert h.acc[c].linkC == g.roots[c] + |Into(h, c)| && SameAcc(h0, g0, h, g, c);
    }
    assert [] + Seen(g.view, NIL) == [] && [] + Seen(g0.view, s0) == Seen(g0.view, s0);
  }

  /** The second chain had no bytes. */
  lemma NothingSecond(h0: Heap, g0: Meaning, h: Heap, g: Meaning, ch: seq<nat>, f0: nat, s0: nat)
    requires Inv(h, g) && Joining(h0, g0, h, g, ch, NIL, f0, s0)
    ensures Result(h0, g0, h, g, Ref(f0) + Ref(s0), ch[0], Seen(g0.view, f0) + Seen(g0.view, s0))
  {
    assert g.roots == g0.roots - (Ref(f0) + Ref(s0)) + multiset{ch[0]};
    assert Seen(g0.view, f0) + [] == Seen(g0.view, f0);
    Finish(h0, g0, h, g, ch, Ref(f0) + Ref(s0), Seen(g0.view, f0) + Seen(g0.view, s0));
  }

  /** References held besides those of the two chains show what they showed at first. */
  lemma HeldJoining(h0: Heap, g0: Meaning, h: Heap, g: Meaning, ch: seq<nat>, second: nat, f0: nat, s0: nat, c: nat)
    requires Inv(h, g) && Joining(h0, g0, h, g, ch, second, f0, s0) && c in g0.roots - (Ref(f0) + Ref(s0))
    ensures c != ch[0] && c in g.roots && Seen(g.view, c) == Seen(g0.view, c)
  {
    var held := g0.roots - (Ref(f0) + Ref(s0));
    assert g.roots == held + multiset{ch[0]} + Ref(second);
    assert held[ch[0]] == 0;
    RootOutside(h, g, ch, c);
    assert SameAcc(h0, g0, h, g, c);
  }

  /** The two parts do not fit one buffer: the second chain is linked behind the first. */
  lemma AttachedResult(h0: Heap, g0: Meaning, h: Heap, g: Meaning, h1: Heap, g1: Meaning, ch: seq<nat>, second: nat,
                       f0: nat, s0: nat)
    requires Inv(h, g) && Joining(h0, g0, h, g, ch, second, f0, s0) && Attached(h, g, h1, g1, ch, second)
    requires second in g.roots
    ensures Result(h0, g0, h1, g1, Ref(f0) + Ref(s0), ch[0], Seen(g0.view, f0) + Seen(g0.view, s0))
  {
    EditedRoots(h, g, h1, g1, ch);
    assert g1.roots == g0.roots - (Ref(f0) + Ref(s0)) + multiset{ch[0]};
    forall c | c in g0.roots - (Ref(f0) + Ref(s0)) ensures Seen(g1.view, c) == Seen(g0.view, c) {
      HeldJoining(h0, g0, h, g, ch, second, f0, s0, c);
      assert c in g1.roots;
    }
  }

  /** From the joining state to the merge, when n is what follows the first accessor of the second chain. */
  ghost predicate Merging(h: Heap, g: Meaning, h2: Heap, g2: Meaning, h3: Heap, g3: Meaning, ch: seq<nat>,
                          second: nat, n: int)
    requires second < |h.acc| && ch != []
  {
    // "true ==" makes this one fact to prove, not one for each part.
    true == (
      && SurvivorsBut(h, g, h2, g2, []) && g2.roots == g.roots + Ref(n) && n >= NIL && n == h.acc[second].next
      && h2.data == h.data && Seen(g2.view, ch[0]) == Seen(g.view, ch[0])
      && MergeOutcome(h2, g2, h3, g3, ch, second, n))
  }

  /** The end of a merge: the first accessor of the second chain is released. */
  lemma MergedResult(h0: Heap, g0: Meaning, h: Heap, g: Meaning, h2: Heap, g2: Meaning, h3: Heap, g3: Meaning,
                     h4: Heap, g4: Meaning, ch: seq<nat>, second: nat, n: int, f0: nat, s0: nat)
    requires Inv(h0, g0) && Inv(h, g) && Inv(h2, g2) && Inv(h4, g4) && Joining(h0, g0, h, g, ch, second, f0, s0)
    requires second < |h.acc| && Merging(h, g, h2, g2, h3, g3, ch, second, n)
    requires Shrunk(h3, g3, h4, g4) && g4.roots == g3.roots - Ref(second)
    ensures Result(h0, g0, h4, g4, Ref(f0) + Ref(s0), ch[0], Seen(g0.view, f0) + Seen(g0.view, s0))
  {
    var held := g0.roots - (Ref(f0) + Ref(s0));
    MergingRoots(h, g, h2, g2, h3, g3, ch, second, n);
    JoiningRoots(h0, g0, h, g, ch, second, f0, s0);
    assert ch[0] in held + multiset{ch[0]};
    forall c | c in held ensures Seen(g4.view, c) == Seen(g0.view, c) {
      assert c in held + multiset{ch[0]};
      MergedHeld(h0, g0, h, g, h2, g2, h3, g3, h4, g4, ch, second, n, f0, s0, c);
    }
    MergedView(h0, g0, h, g, h2, g2, h3, g3, h4, g4, ch, second, n, f0, s0);
  }

  lemma MergingRoots(h: Heap, g: Meaning, h2: Heap, g2: Meaning, h3: Heap, g3: Meaning, ch: seq<nat>, second: nat,
                     n: int)
    requires second < |h.acc| && ch != [] && Merging(h, g, h2, g2, h3, g3, ch, second, n)
    ensures g3.roots == g.roots
  {
    assert g3.roots == if n >= 0 then g2.roots - multiset{n} else g2.roots;
  }

  lemma JoiningRoots(h0: Heap, g0: Meaning, h: Heap, g: Meaning, ch: seq<nat>, second: nat, f0: nat, s0: nat)
    requires Joining(h0, g0, h, g, ch, second, f0, s0)
    ensures g.roots - Ref(second) == g0.roots - (Ref(f0) + Ref(s0)) + multiset{ch[0]}
  {
    assert g.roots == g0.roots - (Ref(f0) + Ref(s0)) + multiset{ch[0]} + Ref(second);
  }

  lemma MergedHeld(h0: Heap, g0: Meaning, h: Heap, g: Meaning, h2: Heap, g2: Meaning, h3: Heap, g3: Meaning, h4: Heap,
                   g4: Meaning, ch: seq<nat>, second: nat, n: int, f0: nat, s0: nat, c: nat)
    requires Inv(h, g) && Inv(h2, g2) && Inv(h4, g4) && Joining(h0, g0, h, g, ch, second, f0, s0)
    requires second < |h.acc| && Merging(h, g, h2, g2, h3, g3, ch, second, n) && Shrunk(h3, g3, h4, g4)
    requires g3.roots == g.roots && c in g0.roots - (Ref(f0) + Ref(s0)) && c in g4.roots
    ensures Seen(g4.view, c) == Seen(g0.view, c)
  {
    HeldJoining(h0, g0, h, g, ch, second, f0, s0, c);
    RootSurvives(h, g, h2, g2, c);
    RootShrunk(h3, g3, h4, g4, c);
  }

  lemma RootSurvives(h: Heap, g: Meaning, h2: Heap, g2: Meaning, c: nat)
    requires Inv(h2, g2) && SurvivorsBut(h, g, h2, g2, []) && c in g2.roots
    ensures c < |h2.acc| && Seen(g2.view, c) == Seen(g.view, c) && (h2.data == h.data ==> Slice(h2, c) == Slice(h, c))
  {
    assert h2.acc[c].linkC == g2.roots[c] + |Into(h2, c)| && SameAcc(h, g, h2, g2, c);
  }

  lemma RootShrunk(h: Heap, g: Meaning, h2: Heap, g2: Meaning, c: nat)
    requires Inv(h2, g2) && Shrunk(h, g, h2, g2) && c in g2.roots
    ensures c < |h2.acc| && Seen(g2.view, c) == Seen(g.view, c)
  {
    assert h2.acc[c].linkC == g2.roots[c] + |Into(h2, c)| && SameAcc(h, g, h2, g2, c);
  }

  lemma MergedView(h0: Heap, g0: Meaning, h: Heap, g: Meaning, h2: Heap, g2: Meaning, h3: Heap, g3: Meaning, h4: Heap,
                   g4: Meaning, ch: seq<nat>, second: nat, n: int, f0: nat, s0: nat)
    requires Inv(h0, g0) && Inv(h, g) && Inv(h2, g2) && Inv(h4, g4) && Joining(h0, g0, h, g, ch, second, f0, s0)
    requires second < |h.acc| && Merging(h, g, h2, g2, h3, g3, ch, second, n) && Shrunk(h3, g3, h4, g4)
      && ch[0] in g4.roots
    ensures Seen(g4.view, ch[0]) == Seen(g0.view, f0) + Seen(g0.view, s0) && ch[0] < |g4.view|
  {
    SecondFacts(h0, g0, h, g, ch, second, f0, s0);
    RootSurvives(h, g, h2, g2, second);
    if n != NIL { RootSurvives(h, g, h2, g2, n); }
    RootShrunk(h3, g3, h4, g4, ch[0]);
    JoinBytes(Seen(g.view, ch[0]), Slice(h, second), Seen(g.view, n));
  }

  /**
   The second chain starts with bytes: link it behind the first, or merge its first accessor into
   the last of that.
   */
  method JoinSecond(p: Pool, ghost ch: seq<nat>, tail: nat, second: nat, ghost h0: Heap, ghost g0: Meaning,
                    ghost f0: nat, ghost s0: nat)
    requires p.Valid() && !p.panicked && Inv(h0, g0) && Joining(h0, g0, p.H(), p.g, ch, second, f0, s0)
    requires tail == Last(ch) && second < |p.acc| && p.acc[second].length > 0
    modifies p
    ensures p.panicked ==> p.NoneLeft()
    ensures !p.panicked ==>
      p.Valid() && Result(h0, g0, p.H(), p.g, Ref(f0) + Ref(s0), ch[0], Seen(g0.view, f0) + Seen(g0.view, s0))
  {
    ghost var h, g := p.H(), p.g;
    SecondFacts(h0, g0, h, g, ch, second, f0, s0);
    if p.acc[tail].length + p.acc[second].length > BUF_S {
      p.Attach(ch, tail, second);
      AttachedResult(h0, g0, h, g, p.H(), p.g, ch, second, f0, s0);
    } else {
      MergeSecond(p, ch, tail, second, h0, g0, f0, s0);
    }
  }

  method MergeSecond(p: Pool, ghost ch: seq<nat>, tail: nat, second: nat, ghost h0: Heap, ghost g0: Meaning,
                     ghost f0: nat, ghost s0: nat)
    requires p.Valid() && !p.panicked && Inv(h0, g0) && Joining(h0, g0, p.H(), p.g, ch, second, f0, s0)
    requires tail == Last(ch) && second < |p.acc| && p.acc[second].length > 0
      && p.acc[tail].length + p.acc[second].length <= BUF_S
    modifies p
    ensures p.panicked ==> p.NoneLeft()
    ensures !p.panicked ==>
      p.Valid() && Result(h0, g0, p.H(), p.g, Ref(f0) + Ref(s0), ch[0], Seen(g0.view, f0) + Seen(g0.view, s0))
  {
    ghost var h, g := p.H(), p.g;
    SecondFacts(h0, g0, h, g, ch, second, f0, s0);
    var n := p.acc[second].next;
    ghost var h2, g2 := Merge(p, ch, tail, second, n);
    if p.panicked { return; }
    ghost var h3, g3 := p.H(), p.g;
    p.Afree(second);
    MergedResult(h0, g0, h, g, h2, g2, h3, g3, p.H(), p.g, ch, second, n, f0, s0);
  }

  method Merge(p: Pool, ghost ch: seq<nat>, tail: nat, second: nat, n: int) returns (ghost h2: Heap, ghost g2: Meaning)
    requires p.Valid() && !p.panicked && Owned(p.H(), p.g, ch) && tail == Last(ch) && p.acc[tail].next == NIL
      && second in p.g.roots && second !in ch
    requires second < |p.acc| && p.acc[second].length > 0 && p.acc[tail].length + p.acc[second].length <= BUF_S
    requires n == p.acc[second].next && n !in ch && p.acc[second].linkC > 0
    modifies p
    ensures p.panicked ==> p.NoneLeft()
    ensures !p.panicked ==> p.Valid() && Inv(h2, g2) && Merging(old(p.H()), old(p.g), h2, g2, p.H(), p.g, ch, second, n)
    ensures !p.panicked ==> second in p.g.roots
  {
    ghost var h, g := p.H(), p.g;
    assert AccOk(h, g, second) && AccOk(h, g, tail);
    ShareNext(p, n, ch);
    h2, g2 := p.H(), p.g;
    NextReady(h, g, h2, g2, second, n);
    MergeTwo(p, ch, tail, second, n);
  }

  method MergeTwo(p: Pool, ghost ch: seq<nat>, tail: nat, second: nat, n: int)
    requires p.Valid() && !p.panicked && Owned(p.H(), p.g, ch) && tail == Last(ch) && p.acc[tail].next == NIL
      && second !in ch
    requires Live(p.H(), second) && 0 < p.acc[tail].length + p.acc[second].length <= BUF_S
      && 0 <= p.acc[tail].buffer < |p.link|
    requires n != NIL ==> Live(p.H(), n) && n !in ch && n in p.g.roots
    modifies p
    ensures p.panicked ==> p.NoneLeft()
    ensures !p.panicked ==> p.Valid() && MergeOutcome(old(p.H()), old(p.g), p.H(), p.g, ch, second, n)
  {
    ghost var h2, g2 := p.H(), p.g;
    if p.link[p.acc[tail].buffer] == 1 {
      MergeInPlace(p, ch, tail, second, n);
    } else {
      MergeFresh(p, ch, tail, second);
      if p.panicked { return; }
      Continue(p, ch, tail, second, n, h2, g2);
    }
  }

  lemma NextReady(h: Heap, g: Meaning, h2: Heap, g2: Meaning, second: nat, n: int)
    requires Inv(h, g) && Inv(h2, g2) && SurvivorsBut(h, g, h2, g2, []) && g2.roots == g.roots + Ref(n)
      && second in g.roots && n >= NIL
    ensures second < |h2.acc| && h2.acc[second].linkC > 0
      && h2.acc[second] == h.acc[second].(linkC := h2.acc[second].linkC)
    ensures n != NIL ==> n in g2.roots && n < |h2.acc| && h2.acc[n].linkC > 0
  {
    assert second in g2.roots && h2.acc[second].linkC == g2.roots[second] + |Into(h2, second)|
      && SameAcc(h, g, h2, g2, second);
    if n != NIL {
      assert n in g2.roots && h2.acc[n].linkC == g2.roots[n] + |Into(h2, n)|;
    }
  }

  /** bf_append: the concatenation of the two chains. */
  method Append(p: Pool, first: int, second: int) returns (r: int)
    requires p.Valid() && !p.panicked
    requires first >= NIL && second >= NIL && Ref(first) + Ref(second) <= p.g.roots
    modifies p
    ensures p.panicked ==> p.NoneLeft()
    ensures first == NIL || second == NIL ==>
      !p.panicked && r == (if first == NIL then second else first) && p.H() == old(p.H()) && p.g == old(p.g)
    ensures first != NIL && second != NIL && !p.panicked ==>
      p.Valid() &&
      Result(old(p.H()), old(p.g), p.H(), p.g, Ref(first) + Ref(second), r,
        Seen(old(p.g).view, first) + Seen(old(p.g).view, second))
  {
    if first == NIL { return second; }
    if second == NIL { return first; }
    ghost var h0, g0 := p.H(), p.g;
    assert first in g0.roots && second in g0.roots;
    r := NIL;
    var head, tail;
    ghost var ch;
    head, tail, ch := Privatize(p, first);
    if p.panicked { return; }
    if head == NIL {
      NothingFirst(h0, g0, p.H(), p.g, first, second);
      return second;
    }
    StartJoining(h0, g0, p.H(), p.g, ch, first, second);
    r := AppendRest(p, ch, tail, head, second, h0, g0, first);
  }

  method AppendRest(p: Pool, ghost ch: seq<nat>, tail: nat, head: nat, second: nat, ghost h0: Heap, ghost g0: Meaning,
                    ghost first: nat)
    returns (r: nat)
    requires p.Valid() && !p.panicked && Inv(h0, g0) && Joining(h0, g0, p.H(), p.g, ch, second, first, second)
    requires tail == Last(ch) && head == ch[0]
    modifies p
    ensures p.panicked ==> p.NoneLeft()
    ensures !p.panicked ==>
      p.Valid() &&
      Result(h0, g0, p.H(), p.g, Ref(first) + Ref(second), r, Seen(g0.view, first) + Seen(g0.view, second))
  {
    r := head;
    var s := SkipEmpties(p, ch, second, h0, g0, first);
    if s == NIL {
      NothingSecond(h0, g0, p.H(), p.g, ch, first, second);
      return;
    }
    JoinSecond(p, ch, tail, s, h0, g0, first, second);
  }

  // ---------- bf_align ----------

  /** x is a new reference to the given bytes; what other references show is unchanged. */
  ghost predicate CutAway(g0: Meaning, g1: Meaning, x: int, bytes: seq<byte>) {
    true == (
      && x >= 0 && g1.roots == g0.roots + multiset{x} && x !in g0.roots && Seen(g1.view, x) == bytes
      && (forall c {:trigger Seen(g1.view, c)} :: c in g0.roots ==> Seen(g1.view, c) == Seen(g0.view, c)))
  }

  lemma CutRoots(h0: Heap, g0: Meaning, h: Heap, g: Meaning, ch: seq<nat>, head: nat, bytes: seq<byte>)
    requires Inv(h0, g0) && Building(h0, g0, h, g, ch) && ch[0] == head && Seen(g.view, head) == bytes
    ensures CutAway(g0, g, head, bytes)
  {
    forall c | c in g0.roots ensures c != head && Seen(g.view, c) == Seen(g0.view, c) {
      assert h0.acc[c].linkC == g0.roots[c] + |Into(h0, c)|;
    }
  }

  method CutOff(p: Pool, a: nat, start: nat, count: nat) returns (x: int)
    requires p.Valid() && !p.panicked && Live(p.H(), a) && count > 0 && start + count <= |p.g.view[a]|
    modifies p
    ensures p.panicked ==> p.NoneLeft()
    ensures !p.panicked ==> p.Valid() && CutAway(old(p.g), p.g, x, Part(Seen(old(p.g).view, a), start, count))
  {
    ghost var h0, g0 := p.H(), p.g;
    x := p.Cut(a, start, count);
    if p.panicked { return; }
    ghost var ch :| Building(h0, g0, p.H(), p.g, ch) && ch[0] == x;
    CutRoots(h0, g0, p.H(), p.g, ch, x, Part(g0.view[a], start, count));
  }

  lemma RootLive(h: Heap, g: Meaning, a: nat)
    requires Inv(h, g) && a in g.roots
    ensures a < |h.acc| && h.acc[a].linkC > 0 && |g.view| == |h.acc|
  {
    assert h.acc[a].linkC == g.roots[a] + |Into(h, a)|;
  }

  /** The two pieces of bf_align, and the release of the original. */
  method Split(p: Pool, a: nat, size: nat, total: nat) returns (head: int, tail: int)
    requires p.Valid() && !p.panicked && a < |p.acc| && a in p.g.roots && Live(p.H(), a)
      && 0 < size < total == |p.g.view[a]|
    modifies p
    ensures p.panicked ==> p.NoneLeft()
    ensures !p.panicked ==>
      p.Valid() && 0 <= head && 0 <= tail && head != tail
      && HeldBy(old(p.g), p.g, multiset{a}, multiset{head} + multiset{tail})
    ensures !p.panicked ==>
      Seen(p.g.view, head) == Part(old(p.g).view[a], 0, size)
      && Seen(p.g.view, tail) == Part(old(p.g).view[a], size, total - size)
  {
    ghost var g0, g1 := p.g, p.g;
    head, tail, g1 := CutBoth(p, a, size, total);
    if p.panicked { return; }
    ghost var h2, g2 := p.H(), p.g;
    p.Afree(a);
    SplitResult(g0, g1, h2, g2, p.H(), p.g, a, head, tail, Part(g0.view[a], 0, size),
      Part(g0.view[a], size, total - size));
  }

  method CutBoth(p: Pool, a: nat, size: nat, total: nat) returns (head: int, tail: int, ghost g1: Meaning)
    requires p.Valid() && !p.panicked && a < |p.acc| && a in p.g.roots && Live(p.H(), a)
      && 0 < size < total == |p.g.view[a]|
    modifies p
    ensures p.panicked ==> p.NoneLeft()
    ensures !p.panicked ==> p.Valid() && a in p.g.roots && CutAway(old(p.g), g1, head, Part(old(p.g).view[a], 0, size))
    ensures !p.panicked ==> CutAway(g1, p.g, tail, Part(old(p.g).view[a], size, total - size))
  {
    ghost var g0 := p.g;
    tail := 0;
    head := CutOff(p, a, 0, size);
    g1 := p.g;
    if p.panicked { return; }
    RootLive(p.H(), p.g, a);
    assert Seen(p.g.view, a) == Seen(g0.view, a);
    tail := CutOff(p, a, size, total - size);
  }

  /** References `used` were traded for `got`; all others show the same bytes. */
  ghost predicate HeldBy(g0: Meaning, g1: Meaning, used: multiset<nat>, got: multiset<nat>) {
    true == (
      && used <= g0.roots && g1.roots == g0.roots - used + got
      && (forall c {:trigger Seen(g1.view, c)} :: c in g0.roots - used ==> Seen(g1.view, c) == Seen(g0.view, c)))
  }

  lemma SplitResult(g0: Meaning, g1: Meaning, h2: Heap, g2: Meaning, h3: Heap, g3: Meaning, a: nat, head: nat,
                    tail: nat, front: seq<byte>, back: seq<byte>)
    requires Inv(h3, g3) && Shrunk(h2, g2, h3, g3) && g3.roots == g2.roots - Ref(a) && a in g0.roots
    requires CutAway(g0, g1, head, front) && CutAway(g1, g2, tail, back)
    ensures HeldBy(g0, g3, multiset{a}, multiset{head} + multiset{tail}) && head != tail
    ensures Seen(g3.view, head) == front && Seen(g3.view, tail) == back
  {
    assert g3.roots == g0.roots - multiset{a} + (multiset{head} + multiset{tail});
    forall c | c in g3.roots ensures Seen(g3.view, c) == Seen(g2.view, c) {
      RootShrunk(h2, g2, h3, g3, c);
    }
    forall c | c in g0.roots - multiset{a} ensures Seen(g3.view, c) == Seen(g0.view, c) {
      assert c in g0.roots && c in g1.roots && c in g3.roots;
    }
    assert head in g1.roots && head in g3.roots && tail in g3.roots;
  }

  /**
   bf_align: the same bytes, the first `size` of them in one piece; whether they are suitably placed
   is another matter.
   */
  method Align(p: Pool, a: nat, size: nat, aligned: bool) returns (r: nat)
    requires p.Valid() && !p.panicked && a < |p.acc| && a in p.g.roots && Live(p.H(), a)
    requires 0 < size <= BUF_S && |p.g.view[a]| > 0
    modifies p
    ensures p.panicked ==> p.NoneLeft()
    ensures !p.panicked ==> p.Valid() && Result(old(p.H()), old(p.g), p.H(), p.g, multiset{a}, r, old(p.g).view[a])
    ensures aligned && size <= old(p.acc)[a].length ==> r == a && p.H() == old(p.H()) && !p.panicked
    ensures !p.panicked ==> r < |p.acc| && p.acc[r].length >= if size <= |old(p.g).view[a]| then size
      else |old(p.g).view[a]|
  {
    ghost var h0, g0 := p.H(), p.g;
    if p.acc[a].length >= size && aligned {
      assert g0.roots == g0.roots - multiset{a} + multiset{a};
      return a;
    }
    var total := p.BufSize(a);
    if total <= size {
      var packed := Pack(p, a);
      r := if packed >= 0 then packed else 0;
      if !p.panicked { OnePiece(p.H(), p.g, r); }
      return;
    }
    r := AlignParts(p, a, size, total);
  }

  method AlignParts(p: Pool, a: nat, size: nat, total: nat) returns (r: nat)
    requires p.Valid() && !p.panicked && a < |p.acc| && a in p.g.roots && Live(p.H(), a)
    requires 0 < size <= BUF_S && size < total == |p.g.view[a]|
    modifies p
    ensures p.panicked ==> p.NoneLeft()
    ensures !p.panicked ==> p.Valid() && Result(old(p.H()), old(p.g), p.H(), p.g, multiset{a}, r, old(p.g).view[a])
    ensures !p.panicked ==> r < |p.acc| && p.acc[r].length == size
  {
    ghost var h0, g0 := p.H(), p.g;
    r := 0;
    var head, tail := Split(p, a, size, total);
    if p.panicked { return; }
    ghost var h1, g1 := p.H(), p.g;
    assert p.acc[head].linkC == g1.roots[head] + |Into(h1, head)|;
    var packed := Pack(p, head);
    if p.panicked { return; }
    r := packed;
    ghost var h2, g2 := p.H(), p.g;
    PackedApart(h1, g1, h2, g2, head, tail, r);
    OnePiece(h2, g2, r);
    p.Attach([r], r, tail);
    AlignResult(h0, g0, h1, g1, h2, g2, p.H(), p.g, a, head, tail, r, size, total);
  }

  /** An accessor that ends its chain shows as many bytes as its length says. */
  lemma OnePiece(h: Heap, g: Meaning, r: nat)
    requires Inv(h, g) && Owned(h, g, [r]) && h.acc[r].next == NIL
    ensures r < |g.view| && |g.view[r]| == h.acc[r].length
  {
    assert [r][0] == r;
    assert AccOk(h, g, r) && ViewOk(h, g, r);
    SliceLength(h, g, r);
  }

  lemma PackedApart(h1: Heap, g1: Meaning, h2: Heap, g2: Meaning, head: nat, tail: nat, r: nat)
    requires Inv(h2, g2) && head != tail && tail in g1.roots
      && Result(h1, g1, h2, g2, multiset{head}, r, Seen(g1.view, head)) && Owned(h2, g2, [r])
    ensures tail != r && tail in g2.roots && tail < |h2.acc|
  {
    assert tail in g1.roots - multiset{head};
    assert [r][0] == r;
  }

  lemma AlignRoots(r0: multiset<nat>, r1: multiset<nat>, r2: multiset<nat>, r3: multiset<nat>, a: nat, head: nat,
                   tail: nat, r: nat)
    requires r1 == r0 - multiset{a} + (multiset{head} + multiset{tail}) && head != tail
    requires r2 == r1 - multiset{head} + multiset{r} && r2[r] == 1 && r3 == r2 - multiset{tail} && tail != r
    ensures r3 == r0 - multiset{a} + multiset{r} && tail in r1 - multiset{head} && r3 <= r2
    ensures r0 - multiset{a} <= r1 - multiset{head} && r !in r0 - multiset{a}
  {
    assert r1 - multiset{head} == r0 - multiset{a} + multiset{tail};
  }

  lemma AlignResult(h0: Heap, g0: Meaning, h1: Heap, g1: Meaning, h2: Heap, g2: Meaning, h3: Heap, g3: Meaning,
                    a: nat, head: nat, tail: nat, r: nat, size: nat, total: nat)
    requires Inv(h2, g2) && HeldBy(g0, g1, multiset{a}, multiset{head} + multiset{tail}) && head != tail
    requires a < |g0.view| && size <= |g0.view[a]| == total
    requires Seen(g1.view, head) == Part(g0.view[a], 0, size)
      && Seen(g1.view, tail) == Part(g0.view[a], size, total - size)
    requires Result(h1, g1, h2, g2, multiset{head}, r, Seen(g1.view, head)) && Attached(h2, g2, h3, g3, [r], tail)
      && tail != r
    ensures Result(h0, g0, h3, g3, multiset{a}, r, g0.view[a])
  {
    assert [r][0] == r;
    AlignRoots(g0.roots, g1.roots, g2.roots, g3.roots, a, head, tail, r);
    EditedRoots(h2, g2, h3, g3, [r]);
    AlignHeld(h1, g0, g1, h2, g2, g3, a, head, r);
    assert Seen(g2.view, tail) == Seen(g1.view, tail);
    assert Part(g0.view[a], 0, size) + Part(g0.view[a], size, total - size) == g0.view[a];
  }

  lemma AlignHeld(h1: Heap, g0: Meaning, g1: Meaning, h2: Heap, g2: Meaning, g3: Meaning, a: nat, head: nat, r: nat)
    requires Result(h1, g1, h2, g2, multiset{head}, r, Seen(g1.view, head)) && RootsKept(g2, g3, r)
    requires forall c {:trigger Seen(g1.view, c)} ::
      c in g0.roots - multiset{a} ==> Seen(g1.view, c) == Seen(g0.view, c)
    requires g0.roots - multiset{a} <= g1.roots - multiset{head} && r !in g0.roots - multiset{a}
    requires g3.roots == g0.roots - multiset{a} + multiset{r}
    ensures forall c {:trigger Seen(g3.view, c)} :: c in g0.roots - multiset{a} ==> Seen(g3.view, c) == Seen(g0.view, c)
  {
    forall c | c in g0.roots - multiset{a} ensures Seen(g3.view, c) == Seen(g0.view, c) {
      assert c in g1.roots - multiset{head} && c in g3.roots && c != r;
    }
  }
}
