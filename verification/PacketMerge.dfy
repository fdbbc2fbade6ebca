/** The last step of bf_append: merging two accessors into one buffer, in place or in a fresh one. */
module PacketMerge {
  import opened Base
  import opened Lists
  import opened PacketHeap
  import opened Packet
  import opened PacketOps
  import opened PacketAppend

  lemma {:induction false} CatInit(h: Heap, ch: seq<nat>)
    requires ch != []
    ensures Cat(h, ch) == Cat(h, ch[..|ch| - 1]) + Slice(h, Last(ch))
  {
    assert ch == ch[..|ch| - 1] + [Last(ch)];
    CatSnoc(h, ch[..|ch| - 1], Last(ch));
  }

  // ---------- in place ----------

  /** h1 is h with the bytes of `second` appended in the buffer of the last accessor of ch. */
  ghost predicate Merged(h: Heap, h1: Heap, ch: seq<nat>, second: nat, n: int, bytes: seq<byte>)
    requires ch != [] && InRange(ch, |h.acc|) && second < |h.acc|
  {
    var t := h.acc[Last(ch)];
    && 0 <= t.buffer < |h.data| && |bytes| == BUF_S
    && t.length + h.acc[second].length <= BUF_S
    && bytes[..t.length + h.acc[second].length] == Slice(h, Last(ch)) + Slice(h, second)
    && h1 == h.(acc := h.acc[Last(ch) := t.(offset := 0, length := t.length + h.acc[second].length, next := n)],
                data := h.data[t.buffer := bytes])
  }

  lemma MergeEdited(h: Heap, g: Meaning, h1: Heap, ch: seq<nat>, second: nat, n: int, bytes: seq<byte>)
    requires Inv(h, g) && Owned(h, g, ch) && second < |h.acc| && Merged(h, h1, ch, second, n, bytes)
    requires h.link[h.acc[Last(ch)].buffer] == 1 && (n != NIL ==> Live(h, n) && n !in ch)
    ensures Edited(h, g, h1, ch)
  {
    forall k | 0 <= k < |ch| ensures h1.acc[ch[k]].offset + h1.acc[ch[k]].length <= BUF_S {
      assert AccOk(h, g, ch[k]);
    }
    assert h.acc[ch[|ch| - 1]].buffer == h.acc[Last(ch)].buffer;
  }

  /** The earlier accessors of the chain are on other buffers. */
  lemma MergeEarlier(h: Heap, g: Meaning, h1: Heap, ch: seq<nat>, k: nat)
    requires Inv(h, g) && Owned(h, g, ch) && k < |ch| - 1 && |h1.data| == |h.data| == |h.link|
    requires var b := h.acc[Last(ch)].buffer; 0 <= b < |h.data| && h.link[b] == 1 && h1.data == h.data[b := h1.data[b]]
    requires |h1.acc| == |h.acc| && h1.acc[ch[k]] == h.acc[ch[k]]
    ensures Slice(h1, ch[k]) == Slice(h, ch[k])
  {
    var b, t := h.acc[Last(ch)].buffer, Last(ch);
    if h.acc[ch[k]].buffer == b {
      assert h.link[b] == |Users(h, b)|;
      SoleMember(Users(h, b), ch[k], t);
    }
  }

  lemma MergeInit(h: Heap, g: Meaning, h1: Heap, ch: seq<nat>, second: nat, n: int, bytes: seq<byte>)
    requires Inv(h, g) && Owned(h, g, ch) && second < |h.acc| && Merged(h, h1, ch, second, n, bytes)
    requires h.link[h.acc[Last(ch)].buffer] == 1
    ensures Cat(h1, ch[..|ch| - 1]) == Cat(h, ch[..|ch| - 1])
  {
    var init := ch[..|ch| - 1];
    forall k | 0 <= k < |init| ensures Slice(h1, init[k]) == Slice(h, init[k]) {
      assert init[k] == ch[k] && ch[k] != Last(ch);
      MergeEarlier(h, g, h1, ch, k);
    }
    CatKept(h, h1, init);
  }

  lemma MergeBytes(h: Heap, g: Meaning, h1: Heap, ch: seq<nat>, second: nat, n: int, bytes: seq<byte>)
    requires Inv(h, g) && Owned(h, g, ch) && second < |h.acc| && Merged(h, h1, ch, second, n, bytes)
    requires h.link[h.acc[Last(ch)].buffer] == 1
    ensures Cat(h1, ch) == Cat(h, ch) + Slice(h, second)
  {
    var init, t := ch[..|ch| - 1], Last(ch);
    assert Slice(h1, t) == Slice(h, t) + Slice(h, second);
    MergeInit(h, g, h1, ch, second, n, bytes);
    CatInit(h, ch);
    CatInit(h1, ch);
    JoinBytes(Cat(h, init), Slice(h, t), Slice(h, second));
  }

  /** Every reference a client holds, but the one to head, shows the same bytes. */
  ghost predicate RootsKept(g0: Meaning, g1: Meaning, head: nat) {
    // "true ==" makes this one fact to prove, not one for each part.
    true == (forall c {:trigger Seen(g1.view, c)} ::
      c in g1.roots && c != head ==> Seen(g1.view, c) == Seen(g0.view, c))
  }

  lemma RootOutside(h: Heap, g: Meaning, ch: seq<nat>, c: nat)
    requires Inv(h, g) && Owned(h, g, ch) && c in g.roots && c != ch[0]
    ensures c < |h.acc| && h.acc[c].linkC > 0 && c !in ch
  {
    assert h.acc[c].linkC == g.roots[c] + |Into(h, c)|;
    if c in ch {
      var k :| 0 <= k < |ch| && ch[k] == c;
      OwnedRoots(h, g, ch, k);
    }
  }

  lemma EditedRoots(h: Heap, g: Meaning, h1: Heap, g1: Meaning, ch: seq<nat>)
    requires Inv(h, g) && Owned(h, g, ch) && UntouchedBut(h, g, h1, g1, ch) && g1.roots <= g.roots
    ensures RootsKept(g, g1, ch[0])
  {
    forall c | c in g1.roots && c != ch[0] ensures Seen(g1.view, c) == Seen(g.view, c) {
      assert c in g.roots;
      RootOutside(h, g, ch, c);
    }
  }

  /** After the merge the chain shows both parts and continues with n. */
  ghost predicate MergeOutcome(h: Heap, g: Meaning, h1: Heap, g1: Meaning, ch: seq<nat>, second: nat, n: int) {
    true == (
      && Owned(h1, g1, ch) && RootsKept(g, g1, ch[0]) && |h1.acc| == |h.acc|
      && g1.roots == (if n >= 0 then g.roots - multiset{n} else g.roots) && h1.acc[Last(ch)].next == n
      && Seen(g1.view, ch[0]) == Seen(g.view, ch[0]) + Slice(h, second) + Seen(g.view, n))
  }

  lemma MergeResult(h: Heap, g: Meaning, h1: Heap, ch: seq<nat>, second: nat, n: int, bytes: seq<byte>)
    requires Inv(h, g) && Owned(h, g, ch) && h.acc[Last(ch)].next == NIL && second < |h.acc|
    requires Merged(h, h1, ch, second, n, bytes) && h.link[h.acc[Last(ch)].buffer] == 1
    requires n != NIL ==> Live(h, n) && n !in ch && n in g.roots
    ensures Inv(h1, EditMeaning(h, g, h1, ch)) && MergeOutcome(h, g, h1, EditMeaning(h, g, h1, ch), ch, second, n)
  {
    var g1 := EditMeaning(h, g, h1, ch);
    assert Edited(h, g, h1, ch) == true by { MergeEdited(h, g, h1, ch, second, n, bytes); }
    MergeBytes(h, g, h1, ch, second, n, bytes);
    ChainView(h, g, ch);
    EditResult(h, g, h1, ch);
    EditedRoots(h, g, h1, g1, ch);
    MergeSummary(h, g, h1, g1, ch, second, n, bytes, Cat(h, ch), Cat(h1, ch));
  }

  lemma MergeSummary(h: Heap, g: Meaning, h1: Heap, g1: Meaning, ch: seq<nat>, second: nat, n: int, bytes: seq<byte>,
                     shown: seq<byte>, merged: seq<byte>)
    requires Owned(h, g, ch) && Owned(h1, g1, ch) && RootsKept(g, g1, ch[0]) && second < |h.acc|
    requires Merged(h, h1, ch, second, n, bytes) && h.acc[Last(ch)].next == NIL && |g1.view| == |g.view| == |h.acc|
    requires g1.roots == Moved(g.roots, NIL, n) && n >= NIL
    requires g1.view[ch[0]] == merged + Seen(g.view, n) && merged == shown + Slice(h, second)
    requires g.view[ch[0]] == shown + Seen(g.view, NIL)
    ensures MergeOutcome(h, g, h1, g1, ch, second, n)
  {
  }

  /** bf_append when the last buffer of the first chain has no other user. */
  method MergeInPlace(p: Pool, ghost ch: seq<nat>, tail: nat, second: nat, n: int)
    requires p.Valid() && Owned(p.H(), p.g, ch) && tail == Last(ch) && p.acc[tail].next == NIL
    requires Live(p.H(), second) && second !in ch && p.acc[tail].length + p.acc[second].length <= BUF_S
    requires 0 <= p.acc[tail].buffer < |p.link| && p.link[p.acc[tail].buffer] == 1
    requires n != NIL ==> Live(p.H(), n) && n !in ch && n in p.g.roots
    modifies p`acc, p`data, p`g
    ensures p.Valid() && MergeOutcome(old(p.H()), old(p.g), p.H(), p.g, ch, second, n)
  {
    ghost var h := p.H();
    var t := p.acc[tail];
    var bytes := MoveBytes(p, tail, second);
    p.data := p.data[t.buffer := bytes];
    p.acc := p.acc[tail := t.(offset := 0, length := t.length + p.acc[second].length, next := n)];
    MergeResult(h, p.g, p.H(), ch, second, n, bytes);
    p.g := EditMeaning(h, p.g, p.H(), ch);
  }

  /** The memmove and memcpy of the merge: the new contents of the buffer. */
  method MoveBytes(p: Pool, tail: nat, second: nat) returns (bytes: seq<byte>)
    requires p.Valid() && Live(p.H(), tail) && Live(p.H(), second)
    requires p.acc[tail].length + p.acc[second].length <= BUF_S
    ensures |bytes| == BUF_S
    ensures bytes[..p.acc[tail].length + p.acc[second].length] == Slice(p.H(), tail) + Slice(p.H(), second)
  {
    assert AccOk(p.H(), p.g, tail) && AccOk(p.H(), p.g, second);
    var t, s := p.acc[tail], p.acc[second];
    bytes := p.data[t.buffer];
    if t.offset != 0 {
      bytes := Overwrite(bytes, 0, bytes[t.offset..t.offset + t.length]);
    }
    assert bytes[..t.length] == Slice(p.H(), tail);
    ghost var moved := bytes;
    bytes := Overwrite(bytes, t.length, p.data[s.buffer][s.offset..s.offset + s.length]);
    assert bytes[..t.length + s.length] == moved[..t.length] + Slice(p.H(), second);
  }
}
