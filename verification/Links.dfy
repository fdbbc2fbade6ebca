/**
 Link counts: search_dir and the directory calls.  The i_nlinks of every inode is
 the number of directory entries that name it.
 */
module Links {

  const NR_DIR_ENTRIES: nat := 64       // directory entries in a block
  const LINK_MAX: nat := 127
  const ROOT_INODE: nat := 1

  /** A directory entry; d_ino is 0 in a free slot. */
  datatype Slot = Slot(ino: nat, name: string)

  datatype Node = Node(used: bool, dir: bool, nlinks: int, slots: seq<Slot>)

  const NO_NODE := Node(false, false, 0, [])

  // ---------- counting entries ----------

  function Naming(slots: seq<Slot>, n: nat): nat {
    if slots == [] then 0 else (if slots[0].ino == n then 1 else 0) + Naming(slots[1..], n)
  }

  /** The directory entries that name inode n, in all directories. */
  function Total(nodes: seq<Node>, n: nat): nat {
    if nodes == [] then 0 else Naming(nodes[0].slots, n) + Total(nodes[1..], n)
  }

  lemma {:induction false} NamingChanged(slots: seq<Slot>, k: nat, s: Slot, n: nat)
    requires k < |slots|
    ensures Naming(slots[k := s], n) == Naming(slots, n)
      + (if s.ino == n then 1 else 0) - (if slots[k].ino == n then 1 else 0)
  {
    if k > 0 {
      NamingChanged(slots[1..], k - 1, s, n);
      assert slots[k := s][1..] == slots[1..][k - 1 := s];
    } else {
      assert slots[k := s][1..] == slots[1..];
    }
  }

  lemma {:induction false} NamingMore(slots: seq<Slot>, s: Slot, n: nat)
    ensures Naming(slots + [s], n) == Naming(slots, n) + if s.ino == n then 1 else 0
  {
    if slots != [] {
      NamingMore(slots[1..], s, n);
      assert (slots + [s])[1..] == slots[1..] + [s];
    } else {
      assert slots + [s] == [s] && [s][1..] == [];
    }
  }

  lemma {:induction false} TotalChanged(nodes: seq<Node>, d: nat, node: Node, n: nat)
    requires d < |nodes|
    ensures Total(nodes[d := node], n) == Total(nodes, n) + Naming(node.slots, n) - Naming(nodes[d].slots, n)
  {
    if d > 0 {
      TotalChanged(nodes[1..], d - 1, node, n);
      assert nodes[d := node][1..] == nodes[1..][d - 1 := node];
    } else {
      assert nodes[d := node][1..] == nodes[1..];
    }
  }

  lemma {:induction false} NamingSome(slots: seq<Slot>, k: nat, n: nat)
    requires k < |slots| && slots[k].ino == n
    ensures Naming(slots, n) > 0
  {
    if k > 0 { NamingSome(slots[1..], k - 1, n); }
  }

  lemma {:induction false} TotalAtLeast(nodes: seq<Node>, d: nat, n: nat)
    requires d < |nodes|
    ensures Total(nodes, n) >= Naming(nodes[d].slots, n)
  {
    if d > 0 { TotalAtLeast(nodes[1..], d - 1, n); }
  }

  lemma {:induction false} NamingNone(slots: seq<Slot>, n: nat)
    requires n > 0 && NoEntries(slots)
    ensures Naming(slots, n) == 0
  {
    if slots != [] {
      assert NoEntries(slots[1..]) by { forall k | 0 <= k < |slots[1..]|
        ensures slots[1..][k].ino == 0 { assert slots[1..][k] == slots[k + 1]; } }
      NamingNone(slots[1..], n);
    }
  }

  // ---------- what every call keeps ----------

  predicate NoEntries(slots: seq<Slot>) {
    forall k :: 0 <= k < |slots| ==> slots[k].ino == 0
  }

  predicate HasDot(nodes: seq<Node>, d: nat) {
    d < |nodes| && exists k :: 0 <= k < |nodes[d].slots| && nodes[d].slots[k] == Slot(d, ".")
  }

  ghost predicate UniqueNames(slots: seq<Slot>) {
    forall i, j :: 0 <= i < j < |slots| && slots[i].ino != 0 && slots[j].ino != 0 ==> slots[i].name != slots[j].name
  }

  /** Only directories in use have entries, with distinct names, for inodes in use. */
  ghost predicate NodeOk(nodes: seq<Node>, d: nat)
    requires d < |nodes|
  {
    && (!nodes[d].used ==> nodes[d] == NO_NODE) && (!nodes[d].dir ==> nodes[d].slots == [])
    && UniqueNames(nodes[d].slots)
    && forall k {:trigger nodes[d].slots[k]} :: 0 <= k < |nodes[d].slots| ==> nodes[d].slots[k].ino < |nodes|
  }

  /** i_nlinks counts the entries that name the inode. */
  ghost predicate Exact(nodes: seq<Node>, n: nat)
    requires n < |nodes|
  {
    nodes[n].nlinks == Total(nodes, n)
  }

  /** A directory with entries has one for itself. */
  ghost predicate DotOk(nodes: seq<Node>, d: nat)
    requires d < |nodes|
  {
    NoEntries(nodes[d].slots) || HasDot(nodes, d)
  }

  ghost predicate Shaped(nodes: seq<Node>) {
    // "true ==" makes this one fact to prove, not one for each part.
    true == (forall d {:trigger NodeOk(nodes, d)} :: 0 < d < |nodes| ==> NodeOk(nodes, d)) && |nodes| > 0
      && nodes[0] == NO_NODE
  }

  ghost predicate Counted(nodes: seq<Node>) {
    true == (forall n {:trigger Exact(nodes, n)} :: 0 < n < |nodes| ==> Exact(nodes, n))
  }

  ghost predicate Dotted(nodes: seq<Node>) {
    true == (forall d {:trigger DotOk(nodes, d)} :: 0 < d < |nodes| ==> DotOk(nodes, d))
  }

  /** At least as many links as entries: what no call ever spoils. */
  ghost predicate Enough(nodes: seq<Node>, n: nat)
    requires n < |nodes|
  {
    nodes[n].nlinks >= Total(nodes, n)
  }

  ghost predicate Ample(nodes: seq<Node>) {
    true == (forall n {:trigger Enough(nodes, n)} :: 0 < n < |nodes| ==> Enough(nodes, n))
  }

  ghost predicate Good(nodes: seq<Node>) {
    Shaped(nodes) && Ample(nodes)
  }

  /** How many links too many each inode has is unchanged. */
  ghost predicate SameExcess(t0: seq<Node>, t1: seq<Node>) {
    true == (|t1| == |t0| && forall n: nat {:trigger Total(t1, n)} ::
      0 < n < |t0| ==> t1[n].nlinks - Total(t1, n) == t0[n].nlinks - Total(t0, n))
  }

  /** So the counts are exact if they were. */
  lemma ExcessKept(t0: seq<Node>, t1: seq<Node>)
    requires SameExcess(t0, t1)
    ensures (Ample(t1) <==> Ample(t0)) && (Counted(t1) <==> Counted(t0))
  {
    forall n: nat | 0 < n < |t0| ensures (Enough(t1, n) <==> Enough(t0, n)) && (Exact(t1, n) <==> Exact(t0, n)) {
      assert t1[n].nlinks - Total(t1, n) == t0[n].nlinks - Total(t0, n);
    }
  }

  lemma ExcessTwice(t0: seq<Node>, t1: seq<Node>, t2: seq<Node>)
    requires SameExcess(t0, t1) && SameExcess(t1, t2)
    ensures SameExcess(t0, t2)
  {
    forall n: nat | 0 < n < |t0| ensures t2[n].nlinks - Total(t2, n) == t0[n].nlinks - Total(t0, n) {
      assert t1[n].nlinks - Total(t1, n) == t0[n].nlinks - Total(t0, n);
    }
  }

  lemma CountedAmple(nodes: seq<Node>)
    requires Counted(nodes)
    ensures Ample(nodes)
  {
    forall n | 0 < n < |nodes| ensures Enough(nodes, n) { assert Exact(nodes, n); }
  }

  /** An inode without links is named nowhere, so a directory without links has no entries. */
  lemma NoLinks(nodes: seq<Node>, n: nat)
    requires Ample(nodes) && 0 < n < |nodes| && nodes[n].nlinks == 0 && DotOk(nodes, n)
    ensures NoEntries(nodes[n].slots)
  {
    assert Enough(nodes, n);
    if HasDot(nodes, n) {
      var k :| 0 <= k < |nodes[n].slots| && nodes[n].slots[k] == Slot(n, ".");
      NamingSome(nodes[n].slots, k, n);
      TotalAtLeast(nodes, n, n);
    }
  }

  lemma Named(nodes: seq<Node>, d: nat, k: nat)
    requires Ample(nodes) && d < |nodes| && k < |nodes[d].slots| && 0 < nodes[d].slots[k].ino < |nodes|
    ensures nodes[nodes[d].slots[k].ino].nlinks > 0
  {
    var n := nodes[d].slots[k].ino;
    assert Enough(nodes, n);
    NamingSome(nodes[d].slots, k, n);
    TotalAtLeast(nodes, d, n);
  }

  // ---------- one entry and one count ----------

  /** The inode a name stands for in a directory, 0 if there is no such entry. */
  function Lookup(slots: seq<Slot>, name: string): nat {
    if slots == [] then 0
    else if slots[0].ino != 0 && slots[0].name == name then slots[0].ino
    else Lookup(slots[1..], name)
  }

  /** The entry at k is the first one with the name. */
  predicate FirstMatch(slots: seq<Slot>, name: string, k: nat) {
    && k < |slots| && slots[k].ino != 0 && slots[k].name == name
    && forall j :: 0 <= j < k ==> slots[j].ino == 0 || slots[j].name != name
  }

  lemma {:induction false} LookupFirst(slots: seq<Slot>, name: string, k: nat)
    requires FirstMatch(slots, name, k)
    ensures Lookup(slots, name) == slots[k].ino
  {
    if k > 0 {
      assert slots[0].ino == 0 || slots[0].name != name;
      assert FirstMatch(slots[1..], name, k - 1) by { forall j | 0 <= j < k - 1
        ensures slots[1..][j].ino == 0 || slots[1..][j].name != name { assert slots[1..][j] == slots[j + 1]; } }
      LookupFirst(slots[1..], name, k - 1);
    }
  }

  lemma {:induction false} LookupNone(slots: seq<Slot>, name: string)
    requires forall j :: 0 <= j < |slots| ==> slots[j].ino == 0 || slots[j].name != name
    ensures Lookup(slots, name) == 0
  {
    if slots != [] {
      assert forall j :: 0 <= j < |slots[1..]| ==> slots[1..][j] == slots[j + 1];
      LookupNone(slots[1..], name);
    }
  }

  lemma {:induction false} LookupSome(slots: seq<Slot>, name: string) returns (k: nat)
    requires Lookup(slots, name) != 0
    ensures FirstMatch(slots, name, k) && slots[k].ino == Lookup(slots, name)
  {
    if slots[0].ino != 0 && slots[0].name == name {
      k := 0;
    } else {
      k := LookupSome(slots[1..], name);
      k := k + 1;
    }
  }

  /** An entry is put into a free slot, or behind the others. */
  function Entered(slots: seq<Slot>, k: nat, s: Slot): seq<Slot>
    requires k <= |slots|
  {
    if k < |slots| then slots[k := s] else slots + [s]
  }

  lemma {:induction false} LookupEntered(slots: seq<Slot>, k: nat, s: Slot, name: string)
    requires k <= |slots| && (k < |slots| ==> slots[k].ino == 0) && s.ino != 0 && Lookup(slots, s.name) == 0
    ensures Lookup(Entered(slots, k, s), name) == if name == s.name then s.ino else Lookup(slots, name)
  {
    if slots == [] {
      assert Entered(slots, k, s) == [s] && [s][1..] == [];
    } else if k == 0 {
      assert Entered(slots, k, s)[1..] == slots[1..];
    } else {
      assert Entered(slots, k, s)[1..] == Entered(slots[1..], k - 1, s);
      LookupEntered(slots[1..], k - 1, s, name);
    }
  }

  function Erased(slots: seq<Slot>, k: nat): seq<Slot>
    requires k < |slots|
  {
    slots[k := slots[k].(ino := 0)]
  }

  lemma {:induction false} LookupErased(slots: seq<Slot>, k: nat, name: string)
    requires k < |slots| && FirstMatch(slots, slots[k].name, k) && UniqueNames(slots)
    ensures Lookup(Erased(slots, k), name) == if name == slots[k].name then 0 else Lookup(slots, name)
  {
    var u := Erased(slots, k);
    if name == slots[k].name {
      LookupNone(u, name);
    } else if Lookup(slots, name) != 0 {
      var m := LookupSome(slots, name);
      assert FirstMatch(u, name, m);
      LookupFirst(u, name, m);
    } else {
      forall j | 0 <= j < |slots| ensures slots[j].ino == 0 || slots[j].name != name { NoLookup(slots, name, j); }
      LookupNone(u, name);
    }
  }

  lemma {:induction false} NoLookup(slots: seq<Slot>, name: string, j: nat)
    requires Lookup(slots, name) == 0 && j < |slots|
    ensures slots[j].ino == 0 || slots[j].name != name
  {
    if j > 0 { NoLookup(slots[1..], name, j - 1); }
  }

  /** The nodes after the slots of d and the count of n have changed. */
  function Updated(nodes: seq<Node>, d: nat, slots: seq<Slot>, n: nat, delta: int): seq<Node>
    requires d < |nodes| && n < |nodes|
  {
    var t := nodes[d := nodes[d].(slots := slots)];
    t[n := t[n].(nlinks := t[n].nlinks + delta)]
  }

  lemma UpdatedTotal(nodes: seq<Node>, d: nat, slots: seq<Slot>, n: nat, delta: int, m: nat)
    requires d < |nodes| && n < |nodes|
    ensures Total(Updated(nodes, d, slots, n, delta), m) == Total(nodes, m)
      + Naming(slots, m) - Naming(nodes[d].slots, m)
  {
    var t := nodes[d := nodes[d].(slots := slots)];
    TotalChanged(nodes, d, nodes[d].(slots := slots), m);
    TotalChanged(t, n, t[n].(nlinks := t[n].nlinks + delta), m);
  }

  /** A new entry for n and one more link. */
  lemma EnterGood(nodes: seq<Node>, d: nat, k: nat, s: Slot)
    requires Shaped(nodes) && 0 < d < |nodes| && nodes[d].dir && nodes[d].used && k <= |nodes[d].slots|
      && 0 < s.ino < |nodes|
    requires nodes[s.ino].used && (k < |nodes[d].slots| ==> nodes[d].slots[k].ino == 0)
      && Lookup(nodes[d].slots, s.name) == 0
    ensures var t := Updated(nodes, d, Entered(nodes[d].slots, k, s), s.ino, 1); Shaped(t) && SameExcess(nodes, t)
  {
    var u := Entered(nodes[d].slots, k, s);
    var t := Updated(nodes, d, u, s.ino, 1);
    forall n: nat | 0 < n < |t| ensures t[n].nlinks - Total(t, n) == nodes[n].nlinks - Total(nodes, n) {
      UpdatedTotal(nodes, d, u, s.ino, 1, n);
      if k < |nodes[d].slots| { NamingChanged(nodes[d].slots, k, s, n); } else { NamingMore(nodes[d].slots, s, n); }
    }
    EnterShaped(nodes, d, k, s, t);
  }

  lemma EnterShaped(nodes: seq<Node>, d: nat, k: nat, s: Slot, t: seq<Node>)
    requires Shaped(nodes) && 0 < d < |nodes| && nodes[d].dir && nodes[d].used && k <= |nodes[d].slots|
      && 0 < s.ino < |nodes| && nodes[s.ino].used
    requires Lookup(nodes[d].slots, s.name) == 0 && t == Updated(nodes, d, Entered(nodes[d].slots, k, s), s.ino, 1)
    ensures Shaped(t)
  {
    forall j | 0 <= j < |nodes[d].slots| ensures nodes[d].slots[j].ino == 0 || nodes[d].slots[j].name != s.name {
      NoLookup(nodes[d].slots, s.name, j);
    }
    forall e | 0 < e < |t| ensures NodeOk(t, e) {
      assert NodeOk(nodes, e) && NodeOk(nodes, d);
    }
  }

  /** An entry is erased and the inode it named loses a link. */
  lemma EraseGood(nodes: seq<Node>, d: nat, k: nat, n: nat)
    requires Good(nodes) && 0 < d < |nodes| && k < |nodes[d].slots| && n == nodes[d].slots[k].ino != 0
    ensures n < |nodes| && var t := Updated(nodes, d, Erased(nodes[d].slots, k), n, -1);
      Shaped(t) && SameExcess(nodes, t)
  {
    assert NodeOk(nodes, d);
    var u := Erased(nodes[d].slots, k);
    var t := Updated(nodes, d, u, n, -1);
    forall m: nat | 0 < m < |t| ensures t[m].nlinks - Total(t, m) == nodes[m].nlinks - Total(nodes, m) {
      UpdatedTotal(nodes, d, u, n, -1, m);
      NamingChanged(nodes[d].slots, k, nodes[d].slots[k].(ino := 0), m);
    }
    Named(nodes, d, k);
    assert nodes[n].used by { assert NodeOk(nodes, n); }
    forall e | 0 < e < |t| ensures NodeOk(t, e) {
      assert NodeOk(nodes, e);
    }
  }

  /** An inode without links is given back: the counts stay exact if and only if it has no entries. */
  lemma FreeGood(nodes: seq<Node>, n: nat)
    requires Good(nodes) && 0 < n < |nodes| && nodes[n].nlinks == 0
    ensures Good(nodes[n := NO_NODE])
    ensures Counted(nodes[n := NO_NODE]) <==> Counted(nodes) && NoEntries(nodes[n].slots)
  {
    var t := nodes[n := NO_NODE];
    forall m: nat | 0 < m < |t|
      ensures t[m].nlinks - Total(t, m) == nodes[m].nlinks - Total(nodes, m)
      + (if m == n then 0 else Naming(nodes[n].slots, m)) {
      FreedExcess(nodes, n, m);
    }
    forall m | 0 < m < |t| ensures Enough(t, m) { assert Enough(nodes, m); }
    if NoEntries(nodes[n].slots) {
      forall m: nat | 0 < m < |t| ensures Exact(t, m) <==> Exact(nodes, m) { NamingNone(nodes[n].slots, m); }
    } else {
      LostEntry(nodes, n, t);
    }
    if !Counted(nodes) {
      var m: nat :| 0 < m < |nodes| && !Exact(nodes, m);
      assert Enough(nodes, m) && Enough(nodes, n) && !Exact(t, m);
    }
    forall e | 0 < e < |t| ensures NodeOk(t, e) { assert NodeOk(nodes, e); }
  }

  lemma FreedExcess(nodes: seq<Node>, n: nat, m: nat)
    requires Ample(nodes) && 0 < n < |nodes| && nodes[n].nlinks == 0 && 0 < m < |nodes|
    ensures var t := nodes[n := NO_NODE];
      t[m].nlinks - Total(t, m) == nodes[m].nlinks - Total(nodes, m) + (if m == n then 0 else Naming(nodes[n].slots, m))
  {
    assert Enough(nodes, n);
    TotalChanged(nodes, n, NO_NODE, m);
    TotalAtLeast(nodes, n, n);
  }

  lemma LostEntry(nodes: seq<Node>, n: nat, t: seq<Node>)
    requires Good(nodes) && 0 < n < |nodes| && nodes[n].nlinks == 0 && !NoEntries(nodes[n].slots)
      && t == nodes[n := NO_NODE]
    ensures !Counted(t)
  {
    assert NodeOk(nodes, n) && Enough(nodes, n);
    var k :| 0 <= k < |nodes[n].slots| && nodes[n].slots[k].ino != 0;
    var m := nodes[n].slots[k].ino;
    NamingSome(nodes[n].slots, k, m);
    TotalAtLeast(nodes, n, n);
    assert Enough(nodes, m) && m != n;
    FreedExcess(nodes, n, m);
    assert !Exact(t, m);
  }
}
