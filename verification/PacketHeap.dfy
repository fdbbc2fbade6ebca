/**
 The heap of the network server's packet buffers: accessors that each show a
 slice of a buffer and link to the next accessor, shared by reference counts.
 Inv is the invariant that bf_consistency_check looks for at run time; the
 lemmas show that the elementary heap changes of buf.c keep it.
 */
module PacketHeap {
  import opened Base
  import opened Lists

  const BUF_S: nat := 512

  datatype Acc = Acc(linkC: nat, offset: nat, length: nat, buffer: int, next: int)

  /** accFree and bufFree are the heads of acc_freelist and buf512_freelist. */
  datatype Heap = Heap(acc: seq<Acc>, link: seq<nat>, data: seq<seq<byte>>, accFree: int, bufFree: int)

  /**
   What the counts are about: the references held by clients, a rank that falls
   along every link, the bytes visible through each accessor, and the free lists.
   */
  datatype Meaning = Meaning(roots: multiset<nat>, rank: seq<nat>, view: seq<seq<byte>>, accList: seq<nat>,
                             bufList: seq<nat>)

  predicate Live(h: Heap, a: int) {
    0 <= a < |h.acc| && h.acc[a].linkC > 0
  }

  /** The live accessors linking to a. */
  ghost function Into(h: Heap, a: int): set<nat> {
    set p: nat | p < |h.acc| && h.acc[p].linkC > 0 && h.acc[p].next == a
  }

  /** The live accessors on buffer b. */
  ghost function Users(h: Heap, b: int): set<nat> {
    set p: nat | p < |h.acc| && h.acc[p].linkC > 0 && h.acc[p].buffer == b
  }

  ghost predicate Sizes(h: Heap, g: Meaning) {
    && |g.rank| == |g.view| == |h.acc| && |h.link| == |h.data|
    && (forall b :: 0 <= b < |h.data| ==> |h.data[b]| == BUF_S)
  }

  ghost predicate AccOk(h: Heap, g: Meaning, a: nat)
    requires Sizes(h, g) && a < |h.acc|
  {
    var x := h.acc[a];
    && 0 <= x.buffer < |h.data| && x.offset + x.length <= BUF_S
    && (x.next == NIL || (Live(h, x.next) && g.rank[x.next] < g.rank[a]))
  }

  ghost predicate Shape(h: Heap, g: Meaning)
    requires Sizes(h, g)
  {
    forall a {:trigger AccOk(h, g, a)} :: 0 <= a < |h.acc| && h.acc[a].linkC > 0 ==> AccOk(h, g, a)
  }

  /** acc_linkC counts the client references and the links to an accessor. */
  ghost predicate AccCounts(h: Heap, g: Meaning) {
    && (forall a :: a in g.roots ==> a < |h.acc|)
    && (forall a {:trigger Into(h, a)} :: 0 <= a < |h.acc| ==> h.acc[a].linkC == g.roots[a] + |Into(h, a)|)
  }

  /** buf_linkC counts the live accessors on a buffer. */
  ghost predicate BufCounts(h: Heap) {
    forall b {:trigger Users(h, b)} :: 0 <= b < |h.link| ==> h.link[b] == |Users(h, b)|
  }

  ghost predicate Counts(h: Heap, g: Meaning) {
    AccCounts(h, g) && BufCounts(h)
  }

  ghost predicate FreeLink(acc: seq<Acc>, list: seq<nat>, k: nat)
    requires InRange(list, |acc|) && k < |list|
  {
    acc[list[k]].next == At(list, k + 1)
  }

  ghost predicate FreeChain(acc: seq<Acc>, head: int, list: seq<nat>) {
    && InRange(list, |acc|) && Distinct(list) && head == At(list, 0)
    && (forall k :: 0 <= k < |list| ==> FreeLink(acc, list, k))
  }

  /** The free lists and the live accessors partition the accessors. */
  ghost predicate Partition(h: Heap, g: Meaning) {
    && FreeChain(h.acc, h.accFree, g.accList) && FreeChain(h.acc, h.bufFree, g.bufList)
    && (forall a :: a in g.accList ==> a < |h.acc| && h.acc[a].linkC == 0 && a !in g.bufList)
    && (forall a :: a in g.bufList ==> a < |h.acc| && h.acc[a].linkC == 0)
    && (forall a :: 0 <= a < |h.acc| && h.acc[a].linkC == 0 ==> a in g.accList || a in g.bufList)
  }

  /** Each free buffer has exactly one free accessor. */
  ghost predicate FreeBuffers(h: Heap, bufList: seq<nat>) {
    && (forall a :: a in bufList ==> a < |h.acc| && 0 <= h.acc[a].buffer < |h.link| && h.link[h.acc[a].buffer] == 0)
    && (forall a, c :: a in bufList && c in bufList && a != c ==> h.acc[a].buffer != h.acc[c].buffer)
    && (forall b {:trigger HasFree(h, bufList, b)} :: 0 <= b < |h.link| && h.link[b] == 0 ==> HasFree(h, bufList, b))
  }

  /** A free accessor is set aside for the buffer. */
  ghost predicate HasFree(h: Heap, bufList: seq<nat>, b: int) {
    exists a :: a in bufList && a < |h.acc| && h.acc[a].buffer == b
  }

  ghost predicate FreeLists(h: Heap, g: Meaning) {
    Partition(h, g) && FreeBuffers(h, g.bufList)
  }

  /** The bytes an accessor shows by itself. */
  function Slice(h: Heap, a: nat): seq<byte> {
    if a < |h.acc| && 0 <= h.acc[a].buffer < |h.data| &&
       h.acc[a].offset + h.acc[a].length <= |h.data[h.acc[a].buffer]|
    then h.data[h.acc[a].buffer][h.acc[a].offset..h.acc[a].offset + h.acc[a].length]
    else []
  }

  /** The bytes of the chain that starts at a, which may be NIL. */
  function Seen(view: seq<seq<byte>>, a: int): seq<byte> {
    if 0 <= a < |view| then view[a] else []
  }

  ghost predicate ViewOk(h: Heap, g: Meaning, a: nat)
    requires Sizes(h, g) && a < |h.acc|
  {
    g.view[a] == Slice(h, a) + Seen(g.view, h.acc[a].next)
  }

  ghost predicate Views(h: Heap, g: Meaning)
    requires Sizes(h, g)
  {
    forall a {:trigger ViewOk(h, g, a)} :: 0 <= a < |h.acc| && h.acc[a].linkC > 0 ==> ViewOk(h, g, a)
  }

  ghost predicate AllParts(h: Heap, g: Meaning) {
    Sizes(h, g) && Shape(h, g) && Counts(h, g) && FreeLists(h, g) && Views(h, g)
  }

  /** The heap invariant; written as an equation so that a claim of it is one proof obligation, not a dozen. */
  ghost predicate Inv(h: Heap, g: Meaning) {
    AllParts(h, g) == true
  }

  /** The views are determined by the heap: they are no extra information. */
  lemma {:induction false} ViewUnique(h: Heap, g: Meaning, g2: Meaning, a: nat)
    requires Inv(h, g) && Sizes(h, g2) && Views(h, g2) && Live(h, a)
    ensures g.view[a] == g2.view[a]
    decreases g.rank[a]
  {
    assert AccOk(h, g, a) && ViewOk(h, g, a) && ViewOk(h, g2, a);
    if h.acc[a].next != NIL {
      ViewUnique(h, g, g2, h.acc[a].next);
    }
  }

  lemma SoleMember(s: set<nat>, x: nat, y: nat)
    requires |s| == 1 && x in s && y in s
    ensures x == y
  {
    assert |s - {x}| == 0;
    assert y !in s - {x};
  }

  // ---------- a chain with one owner ----------

  /** ch is a chain of unshared accessors whose head is held by exactly one client. */
  ghost predicate Owned(h: Heap, g: Meaning, ch: seq<nat>) {
    && ch != [] && InRange(ch, |h.acc|) && Distinct(ch)
    && g.roots[ch[0]] == 1
    && (forall k :: 0 <= k < |ch| ==> h.acc[ch[k]].linkC == 1)
    && (forall k :: 0 <= k < |ch| - 1 ==> h.acc[ch[k]].next == ch[k + 1])
  }

  /** Nothing outside the chain links into it. */
  lemma OwnedInto(h: Heap, g: Meaning, ch: seq<nat>, k: nat, p: nat)
    requires Inv(h, g) && Owned(h, g, ch) && k < |ch| && p in Into(h, ch[k])
    ensures k > 0 && p == ch[k - 1]
  {
    assert 1 == g.roots[ch[k]] + |Into(h, ch[k])| && Into(h, ch[k]) != {};
    if k > 0 {
      assert h.acc[ch[k - 1]].next == ch[k - 1 + 1];
      SoleMember(Into(h, ch[k]), p, ch[k - 1]);
    }
  }

  ghost function Last(ch: seq<nat>): nat
    requires ch != []
  {
    ch[|ch| - 1]
  }

  /** h1 is h0 with the slices, the private buffers and the final link of an owned chain changed. */
  ghost predicate Edited(h0: Heap, g: Meaning, h1: Heap, ch: seq<nat>)
    requires Sizes(h0, g) && Owned(h0, g, ch)
  {
    && h1.link == h0.link && h1.accFree == h0.accFree && h1.bufFree == h0.bufFree
    && |h1.acc| == |h0.acc| && |h1.data| == |h0.data|
    && (forall b :: 0 <= b < |h1.data| ==> |h1.data[b]| == BUF_S)
    && (forall a :: 0 <= a < |h0.acc| && a !in ch ==> h1.acc[a] == h0.acc[a])
    && (forall k :: 0 <= k < |ch| ==> h1.acc[ch[k]].linkC == 1 && h1.acc[ch[k]].buffer == h0.acc[ch[k]].buffer)
    && (forall k :: 0 <= k < |ch| ==> h1.acc[ch[k]].offset + h1.acc[ch[k]].length <= BUF_S)
    && (forall k :: 0 <= k < |ch| - 1 ==> h1.acc[ch[k]].next == h0.acc[ch[k]].next)
    && (h1.acc[Last(ch)].next == NIL || (Live(h0, h1.acc[Last(ch)].next) && h1.acc[Last(ch)].next !in ch))
    && (forall b :: 0 <= b < |h0.data| && h1.data[b] != h0.data[b] ==>
      h0.link[b] == 1 && exists k :: 0 <= k < |ch| && h0.acc[ch[k]].buffer == b)
  }

  /** The views along a chain, recomputed from its end. */
  ghost function ReView(h: Heap, view: seq<seq<byte>>, ch: seq<nat>): (v: seq<seq<byte>>)
    requires InRange(ch, |view|) && |h.acc| == |view|
    ensures |v| == |view|
  {
    if ch == [] then view
    else
      var v := ReView(h, view, ch[1..]);
      v[ch[0] := Slice(h, ch[0]) + Seen(v, h.acc[ch[0]].next)]
  }

  lemma {:induction false} ReViewFrame(h: Heap, view: seq<seq<byte>>, ch: seq<nat>, a: int)
    requires InRange(ch, |view|) && |h.acc| == |view| && a !in ch
    ensures Seen(ReView(h, view, ch), a) == Seen(view, a)
  {
    if ch != [] {
      ReViewFrame(h, view, ch[1..], a);
    }
  }

  /** The recomputed views fit together. */
  lemma {:induction false} ReViewOk(h: Heap, view: seq<seq<byte>>, ch: seq<nat>, k: nat)
    requires InRange(ch, |view|) && |h.acc| == |view| && Distinct(ch) && k < |ch|
    requires forall j :: 0 <= j < |ch| - 1 ==> h.acc[ch[j]].next == ch[j + 1]
    requires h.acc[ch[|ch| - 1]].next !in ch
    ensures ReView(h, view, ch)[ch[k]] == Slice(h, ch[k]) + Seen(ReView(h, view, ch), h.acc[ch[k]].next)
  {
    var v := ReView(h, view, ch[1..]);
    assert ReView(h, view, ch) == v[ch[0] := Slice(h, ch[0]) + Seen(v, h.acc[ch[0]].next)];
    if k < |ch| - 1 {
      assert h.acc[ch[k]].next == ch[k + 1];
    }
    assert h.acc[ch[k]].next != ch[0];
    if k > 0 {
      RestInOrder(h, ch);
      ReViewOk(h, view, ch[1..], k - 1);
    }
  }

  function ReRank(rank: seq<nat>, ch: seq<nat>, up: nat): seq<nat> {
    seq(|rank|, a requires 0 <= a < |rank| => if a in ch then rank[a] + up else rank[a])
  }

  /** The references held by clients after the final link moved from n0 to n1. */
  function Moved(roots: multiset<nat>, n0: int, n1: int): multiset<nat> {
    var r := if n0 >= 0 then roots + multiset{n0} else roots;
    if n1 >= 0 then r - multiset{n1} else r
  }

  ghost function EditMeaning(h0: Heap, g: Meaning, h1: Heap, ch: seq<nat>): Meaning
    requires Sizes(h0, g) && Owned(h0, g, ch) && |h1.acc| == |h0.acc|
  {
    var n0, n1 := h0.acc[Last(ch)].next, h1.acc[Last(ch)].next;
    g.(roots := Moved(g.roots, n0, n1),
       view := ReView(h1, g.view, ch),
       rank := ReRank(g.rank, ch, if 0 <= n1 < |g.rank| then g.rank[n1] + 1 else 0))
  }

  /** What an edit of an owned chain shows: the slices of the chain, then what it links to. */
  ghost function Cat(h: Heap, ch: seq<nat>): seq<byte> {
    if ch == [] then [] else Slice(h, ch[0]) + Cat(h, ch[1..])
  }

  /** The accessors of ch are linked in order. */
  ghost predicate InOrder(h: Heap, ch: seq<nat>) {
    InRange(ch, |h.acc|) && forall j :: 0 <= j < |ch| - 1 ==> h.acc[ch[j]].next == ch[j + 1]
  }

  lemma RestInOrder(h: Heap, ch: seq<nat>)
    requires |ch| > 1 && InOrder(h, ch)
    ensures InOrder(h, ch[1..]) && h.acc[ch[0]].next == ch[1..][0]
  {
    var rest := ch[1..];
    forall j | 0 <= j < |rest| - 1 ensures h.acc[rest[j]].next == rest[j + 1] {
      assert h.acc[ch[j + 1]].next == ch[j + 1 + 1];
    }
    assert h.acc[ch[0]].next == ch[0 + 1];
  }

  lemma {:induction false} ReViewCat(h: Heap, view: seq<seq<byte>>, ch: seq<nat>)
    requires ch != [] && InRange(ch, |view|) && |h.acc| == |view| && Distinct(ch) && InOrder(h, ch)
    requires h.acc[Last(ch)].next !in ch
    ensures ReView(h, view, ch)[ch[0]] == Cat(h, ch) + Seen(view, h.acc[Last(ch)].next)
  {
    var rest := ch[1..];
    if rest == [] {
      assert ReView(h, view, rest) == view;
      assert Cat(h, ch) == Slice(h, ch[0]) + [];
    } else {
      RestInOrder(h, ch);
      ReViewCat(h, view, rest);
      SameSum(Slice(h, ch[0]), Cat(h, rest), Seen(view, h.acc[Last(ch)].next));
    }
  }

  lemma SameSum(a: seq<byte>, b: seq<byte>, c: seq<byte>)
    ensures (a + b) + c == a + (b + c)
  {
  }

  /** An accessor outside an owned chain does not link into it. */
  lemma OwnedOutside(h: Heap, g: Meaning, ch: seq<nat>, a: nat)
    requires Inv(h, g) && Owned(h, g, ch) && Live(h, a) && a !in ch
    ensures h.acc[a].next !in ch
  {
    if h.acc[a].next in ch {
      var k :| 0 <= k < |ch| && ch[k] == h.acc[a].next;
      OwnedInto(h, g, ch, k, a);
    }
  }

  /** Only the final link differs between the two heaps, as far as counts go. */
  ghost predicate SameLinks(h0: Heap, h1: Heap, p: nat) {
    && |h1.acc| == |h0.acc| && h1.link == h0.link
    && (forall a :: 0 <= a < |h0.acc| ==> h1.acc[a].linkC == h0.acc[a].linkC && h1.acc[a].buffer == h0.acc[a].buffer)
    && (forall a :: 0 <= a < |h0.acc| && a != p ==> h1.acc[a].next == h0.acc[a].next)
  }

  lemma EditedLinks(h0: Heap, g: Meaning, h1: Heap, ch: seq<nat>)
    requires Sizes(h0, g) && Owned(h0, g, ch) && Edited(h0, g, h1, ch)
    ensures SameLinks(h0, h1, Last(ch))
  {
    forall a | 0 <= a < |h0.acc|
      ensures h1.acc[a].linkC == h0.acc[a].linkC && h1.acc[a].buffer == h0.acc[a].buffer
      ensures a != Last(ch) ==> h1.acc[a].next == h0.acc[a].next
    {
      if a in ch { var k :| 0 <= k < |ch| && ch[k] == a; }
    }
  }

  lemma MoveLink(h0: Heap, h1: Heap, p: nat, a: nat)
    requires SameLinks(h0, h1, p) && p < |h0.acc| && h0.acc[p].linkC > 0
    ensures |Into(h1, a)| == |Into(h0, a)| + (if h1.acc[p].next == a then 1 else 0) - (if h0.acc[p].next == a then 1
      else 0)
  {
    var rest := Into(h0, a) - {p};
    assert Into(h0, a) == if h0.acc[p].next == a then rest + {p} else rest;
    assert Into(h1, a) == if h1.acc[p].next == a then rest + {p} else rest;
  }

  lemma EditCounts(h0: Heap, g: Meaning, h1: Heap, g1: Meaning, p: nat)
    requires Counts(h0, g) && SameLinks(h0, h1, p) && p < |h0.acc| && h0.acc[p].linkC > 0
    requires var n0, n1 := h0.acc[p].next, h1.acc[p].next;
      && g1.roots == Moved(g.roots, n0, n1)
      && -1 <= n0 < |h0.acc| && -1 <= n1 < |h0.acc|
      && (n1 != NIL && n1 != n0 ==> n1 in g.roots)
    ensures Counts(h1, g1)
  {
    forall a | 0 <= a < |h1.acc| ensures h1.acc[a].linkC == g1.roots[a] + |Into(h1, a)| {
      MoveLink(h0, h1, p, a);
    }
    forall b | 0 <= b < |h1.link| ensures h1.link[b] == |Users(h1, b)| {
      assert Users(h1, b) == Users(h0, b);
    }
  }

  lemma EditShape(h0: Heap, g: Meaning, h1: Heap, ch: seq<nat>)
    requires Inv(h0, g) && Owned(h0, g, ch) && Edited(h0, g, h1, ch)
    ensures Sizes(h1, EditMeaning(h0, g, h1, ch)) && Shape(h1, EditMeaning(h0, g, h1, ch))
  {
    var g1 := EditMeaning(h0, g, h1, ch);
    EditedLinks(h0, g, h1, ch);
    forall a | 0 <= a < |h1.acc| && h1.acc[a].linkC > 0 ensures AccOk(h1, g1, a) {
      assert AccOk(h0, g, a);
      if a in ch {
        EditAcc(h0, g, h1, ch, a);
      } else {
        OwnedOutside(h0, g, ch, a);
      }
    }
  }

  lemma EditAcc(h0: Heap, g: Meaning, h1: Heap, ch: seq<nat>, a: nat)
    requires Sizes(h0, g) && Owned(h0, g, ch) && Edited(h0, g, h1, ch) && SameLinks(h0, h1, Last(ch))
    requires a in ch && AccOk(h0, g, a) && Sizes(h1, EditMeaning(h0, g, h1, ch))
    ensures AccOk(h1, EditMeaning(h0, g, h1, ch), a)
  {
    var k :| 0 <= k < |ch| && ch[k] == a;
    if k < |ch| - 1 {
      assert h0.acc[ch[k]].next == ch[k + 1];
    }
  }

  lemma EditFree(h0: Heap, g: Meaning, h1: Heap, ch: seq<nat>)
    requires Sizes(h0, g) && FreeLists(h0, g) && Owned(h0, g, ch) && Edited(h0, g, h1, ch)
    ensures FreeLists(h1, EditMeaning(h0, g, h1, ch))
  {
    forall a | 0 <= a < |h0.acc| && h0.acc[a].linkC == 0 ensures h1.acc[a] == h0.acc[a] {
      assert a !in ch;
    }
    EditedLinks(h0, g, h1, ch);
    forall k | 0 <= k < |g.accList| ensures FreeLink(h1.acc, g.accList, k) {
      assert FreeLink(h0.acc, g.accList, k) && g.accList[k] in g.accList;
    }
    forall k | 0 <= k < |g.bufList| ensures FreeLink(h1.acc, g.bufList, k) {
      assert FreeLink(h0.acc, g.bufList, k) && g.bufList[k] in g.bufList;
    }
    forall b | 0 <= b < |h1.link| && h1.link[b] == 0
      ensures HasFree(h1, g.bufList, b) { assert HasFree(h0, g.bufList, b); }
  }

  lemma EditViews(h0: Heap, g: Meaning, h1: Heap, ch: seq<nat>)
    requires Inv(h0, g) && Owned(h0, g, ch) && Edited(h0, g, h1, ch)
    requires Sizes(h1, EditMeaning(h0, g, h1, ch))
    ensures Views(h1, EditMeaning(h0, g, h1, ch))
  {
    var v := ReView(h1, g.view, ch);
    forall j | 0 <= j < |ch| - 1 ensures h1.acc[ch[j]].next == ch[j + 1] {
      assert h0.acc[ch[j]].next == ch[j + 1];
    }
    forall a | 0 <= a < |h1.acc| && h1.acc[a].linkC > 0 ensures ViewOk(h1, EditMeaning(h0, g, h1, ch), a) {
      if a in ch {
        var k :| 0 <= k < |ch| && ch[k] == a;
        ReViewOk(h1, g.view, ch, k);
      } else {
        EditViewOther(h0, g, h1, ch, a);
      }
    }
  }

  /** An accessor outside the chain shows what it showed before. */
  lemma EditViewOther(h0: Heap, g: Meaning, h1: Heap, ch: seq<nat>, a: nat)
    requires Inv(h0, g) && Owned(h0, g, ch) && Edited(h0, g, h1, ch)
    requires Live(h0, a) && a !in ch
    ensures ReView(h1, g.view, ch)[a] == g.view[a] == Slice(h1, a) + Seen(ReView(h1, g.view, ch), h1.acc[a].next)
  {
    assert ViewOk(h0, g, a);
    OwnedOutside(h0, g, ch, a);
    ReViewFrame(h1, g.view, ch, a);
    ReViewFrame(h1, g.view, ch, h0.acc[a].next);
    EditSlice(h0, h1, ch, a);
  }

  /** A buffer that was written has only the chain's accessor on it. */
  lemma EditSlice(h0: Heap, h1: Heap, ch: seq<nat>, a: nat)
    requires |h1.acc| == |h0.acc| && |h1.data| == |h0.data| == |h0.link| && InRange(ch, |h0.acc|)
    requires Live(h0, a) && a !in ch && h1.acc[a] == h0.acc[a]
    requires forall k :: 0 <= k < |ch| ==> h0.acc[ch[k]].linkC > 0
    requires var b := h0.acc[a].buffer; 0 <= b < |h0.data| && h1.data[b] != h0.data[b] ==>
      h0.link[b] == |Users(h0, b)| == 1 && exists k :: 0 <= k < |ch| && h0.acc[ch[k]].buffer == b
    ensures Slice(h1, a) == Slice(h0, a)
  {
    var b := h0.acc[a].buffer;
    if 0 <= b < |h0.data| && h1.data[b] != h0.data[b] {
      var k :| 0 <= k < |ch| && h0.acc[ch[k]].buffer == b;
      SoleMember(Users(h0, b), a, ch[k]);
    }
  }

  /** Editing an owned chain keeps the heap consistent and changes no view outside the chain. */
  lemma EditOwned(h0: Heap, g: Meaning, h1: Heap, ch: seq<nat>)
    requires Inv(h0, g) && Owned(h0, g, ch) && Edited(h0, g, h1, ch)
    requires var n0, n1 := h0.acc[Last(ch)].next, h1.acc[Last(ch)].next; n1 != NIL && n1 != n0 ==> n1 in g.roots
    ensures Inv(h1, EditMeaning(h0, g, h1, ch))
    ensures forall a :: Live(h0, a) && a !in ch ==> EditMeaning(h0, g, h1, ch).view[a] == g.view[a]
    ensures EditMeaning(h0, g, h1, ch).view[ch[0]] == Cat(h1, ch) + Seen(g.view, h1.acc[Last(ch)].next)
  {
    EditedLinks(h0, g, h1, ch);
    assert AccOk(h0, g, Last(ch));
    EditCounts(h0, g, h1, EditMeaning(h0, g, h1, ch), Last(ch));
    EditShape(h0, g, h1, ch);
    EditFree(h0, g, h1, ch);
    EditViews(h0, g, h1, ch);
    forall a | Live(h0, a) && a !in ch ensures EditMeaning(h0, g, h1, ch).view[a] == g.view[a] {
      EditViewOther(h0, g, h1, ch, a);
    }
    forall j | 0 <= j < |ch| - 1 ensures h1.acc[ch[j]].next == ch[j + 1] {
      assert h0.acc[ch[j]].next == ch[j + 1];
    }
    ReViewCat(h1, g.view, ch);
  }
}
