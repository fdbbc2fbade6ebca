/** Whole runs of directory calls, and when they keep the link counts exact. */
module LinkRuns {
  import opened Base
  import opened Links
  import opened LinkCalls

  /**
   The calls, with what the permission check, alloc_inode, alloc_zone and the other users of inodes
   have to say; Put is the release of an inode.
   */
  datatype Call =
    | DoLink(n: nat, d: nat, name: string, su: bool, access: Access, space: bool)
    | DoUnlink(d: nat, name: string, su: bool, access: Access, last: bool)
    | DoRmdir(d: nat, name: string, access: Access, busy: bool, last: bool)
    | DoMknod(d: nat, name: string, dir: bool, su: bool, fifo: bool, access: Access, space: bool, avail: Option<nat>)
    | DoMkdir(d: nat, name: string, access: Access, space: bool, avail: Option<nat>)
    | DoRename(d: nat, name: string, nd: nat, nname: string, oldDir: Access, newDir: Access, busy: bool,
      isSuper: bool, space: bool, last: bool)
    | Put(n: nat, last: bool)

  predicate Directory(nodes: seq<Node>, d: nat) {
    0 < d < |nodes| && nodes[d].used && nodes[d].dir
  }

  /** The directories have been looked up. */
  predicate CanBe(nodes: seq<Node>, c: Call) {
    match c
    case DoLink(n, d, _, _, _, _) => 0 < n < |nodes| && nodes[n].used && Directory(nodes, d)
    case DoUnlink(d, _, _, _, _) => Directory(nodes, d)
    case DoRmdir(d, _, _, _, _) => Directory(nodes, d)
    case DoMknod(d, _, _, _, _, _, _, avail) => Directory(nodes, d) && Avail(nodes, avail)
    case DoMkdir(d, _, _, _, avail) => Directory(nodes, d) && Avail(nodes, avail)
    case DoRename(d, _, nd, _, oldDir, newDir, _, _, _, _) =>
      Directory(nodes, d) && Directory(nodes, nd) && (oldDir.write ==> oldDir.look) && (newDir.write ==> newDir.look)
    case Put(n, _) => 0 < n < |nodes|
  }

  /** The call frees a directory that still has entries. */
  ghost predicate Loses(nodes: seq<Node>, c: Call)
    requires CanBe(nodes, c)
  {
    match c
    case DoUnlink(d, name, su, access, last) =>
      access.look && access.write && MayUnlink(nodes, Lookup(nodes[d].slots, name), su) && Orphans(nodes, d, name, last)
    case Put(n, last) => last && nodes[n].nlinks == 0 && !NoEntries(nodes[n].slots)
    case _ => false
  }

  /** What a call does to the names. */
  ghost predicate Does(t: seq<Node>, c: Call, r: Err, u: seq<Node>)
    requires CanBe(t, c)
  {
    && |u| == |t|
    && match c
       case DoLink(n, d, name, _, _, _) => if r == OK then Renamed(t, u, d, name, n) && OnlyIn(t, u, d) else u == t
       case DoUnlink(d, name, _, _, _) => if r == OK then u[d].used ==> Renamed(t, u, d, name, 0) else u == t
       case DoRmdir(d, name, _, _, _) => if r == OK then Renamed(t, u, d, name, 0) else u == t
       case DoMknod(d, name, dir, _, _, _, _, avail) => if r == OK
         then avail.Some? && Made(t, u, d, name, avail.value, dir) else u == t
       case DoMkdir(d, name, _, _, avail) => if r == OK then avail.Some? && MadeDir(t, u, d, name, avail.value)
         else SameNames(t, u)
       case DoRename(d, name, nd, nname, _, _, _, _, space, _) =>
         if r == OK && Lookup(t[d].slots, name) != Lookup(t[nd].slots, nname)
           then RenamedTree(t, u, d, name, nd, nname, space) else u == t
       case Put(n, last) => u == if last && t[n].nlinks == 0 then t[n := NO_NODE] else t
  }

  /** Names are entered only in directories that have their "." entry, and "." itself is not touched. */
  ghost predicate Ordinary(nodes: seq<Node>, c: Call)
    requires CanBe(nodes, c)
  {
    match c
    case DoLink(_, d, _, _, _, _) => HasDot(nodes, d)
    case DoUnlink(_, name, _, _, _) => name != "."
    case DoMknod(d, _, _, _, _, _, _, _) => HasDot(nodes, d)
    case DoMkdir(d, name, _, _, _) => HasDot(nodes, d) && name != "."
    case DoRename(d, name, nd, _, _, _, _, _, _, _) =>
      HasDot(nodes, nd) && DirDotted(nodes, Lookup(nodes[d].slots, name))
    case _ => true
  }

  /** Among directories with their "." entries nothing is lost. */
  lemma NothingLost(nodes: seq<Node>, c: Call)
    requires Good(nodes) && Dotted(nodes) && CanBe(nodes, c) && Ordinary(nodes, c)
    ensures !Loses(nodes, c)
  {
    match c {
      case DoUnlink(d, name, su, access, last) =>
        var n := Lookup(nodes[d].slots, name);
        assert 0 < n < |nodes| ==> DotOk(nodes, n);
        NotOrphaned(nodes, d, name, last);
      case Put(n, last) =>
        if nodes[n].nlinks == 0 {
          assert DotOk(nodes, n);
          NoLinks(nodes, n);
        }
      case _ =>
    }
  }

  /** One call: the counts stay exact unless it loses a directory's entries. */
  method Step(tree: Tree, c: Call) returns (r: Err)
    requires tree.Valid() && CanBe(tree.nodes, c)
    modifies tree
    ensures tree.Valid() && Does(old(tree.nodes), c, r, tree.nodes)
    ensures Counted(tree.nodes) <==> Counted(old(tree.nodes)) && !Loses(old(tree.nodes), c)
    ensures Dotted(old(tree.nodes)) && Ordinary(old(tree.nodes), c) ==> Dotted(tree.nodes)
  {
    match c {
      case DoLink(n, d, name, su, access, space) => r := tree.Link(n, d, name, su, access, space);
      case DoUnlink(d, name, su, access, last) => r := tree.Unlink(d, name, su, access, last);
      case DoRmdir(d, name, access, busy, last) => r := tree.Rmdir(d, name, access, busy, last);
      case DoMknod(d, name, dir, su, fifo, access, space, avail) =>
        r := tree.Mknod(d, name, dir, su, fifo, access, space, avail);
      case DoMkdir(d, name, access, space, avail) => r := tree.Mkdir(d, name, access, space, avail);
      case DoRename(d, name, nd, nname, oldDir, newDir, busy, isSuper, space, last) =>
        r := tree.Rename(d, name, nd, nname, oldDir, newDir, busy, isSuper, space, last);
      case Put(n, last) =>
        tree.PutInode(n, last);
        r := OK;
    }
  }

  /** The calls of a run take the tree through the states of the trace; calls that cannot be made do not arrive. */
  ghost predicate Explained(calls: seq<Call>, got: seq<Err>, trace: seq<seq<Node>>) {
    && |got| == |calls| && |trace| == |calls| + 1
    && forall k :: 0 <= k < |calls| ==>
      if CanBe(trace[k], calls[k]) then Does(trace[k], calls[k], got[k], trace[k + 1]) else trace[k + 1] == trace[k]
  }

  /** None of the first n calls loses anything. */
  ghost predicate NoneLoses(calls: seq<Call>, trace: seq<seq<Node>>, n: nat)
    requires n <= |calls| && n <= |trace|
  {
    forall k :: 0 <= k < n && CanBe(trace[k], calls[k]) ==> !Loses(trace[k], calls[k])
  }

  ghost predicate AllOrdinary(calls: seq<Call>, trace: seq<seq<Node>>, n: nat)
    requires n <= |calls| && n <= |trace|
  {
    forall k :: 0 <= k < n && CanBe(trace[k], calls[k]) ==> Ordinary(trace[k], calls[k])
  }

  /** A run leaves every count exact if and only if it began so and no call frees a directory that still has entries. */
  method Run(tree: Tree, calls: seq<Call>) returns (got: seq<Err>, ghost trace: seq<seq<Node>>)
    requires tree.Valid()
    modifies tree
    ensures tree.Valid() && Explained(calls, got, trace) && trace[0] == old(tree.nodes) && trace[|calls|] == tree.nodes
    ensures Counted(tree.nodes) <==> Counted(old(tree.nodes)) && NoneLoses(calls, trace, |calls|)
    ensures Counted(old(tree.nodes)) && Dotted(old(tree.nodes)) && AllOrdinary(calls, trace, |calls|) ==>
      Counted(tree.nodes) && Dotted(tree.nodes)
  {
    got, trace := [], [tree.nodes];
    var k := 0;
    while k < |calls|
      invariant 0 <= k <= |calls| && tree.Valid() && |trace| == k + 1 && trace[0] == old(tree.nodes)
      invariant Explained(calls[..k], got, trace) && trace[k] == tree.nodes
      invariant Counted(tree.nodes) <==> Counted(old(tree.nodes)) && NoneLoses(calls, trace, k)
      invariant Counted(old(tree.nodes)) && Dotted(old(tree.nodes)) && AllOrdinary(calls, trace, k) ==>
        Counted(tree.nodes) && Dotted(tree.nodes)
    {
      var r := OK;
      if CanBe(tree.nodes, calls[k]) {
        if Dotted(tree.nodes) && Ordinary(tree.nodes, calls[k]) { NothingLost(tree.nodes, calls[k]); }
        r := Step(tree, calls[k]);
      }
      ghost var trace1 := trace + [tree.nodes];
      OneMoreCall(calls, got, trace, trace1, k, r);
      got, trace, k := got + [r], trace1, k + 1;
    }
    assert calls[..|calls|] == calls;
  }

  lemma OneMoreCall(calls: seq<Call>, got: seq<Err>, trace: seq<seq<Node>>, trace1: seq<seq<Node>>, k: nat, r: Err)
    requires k < |calls| && |trace| == k + 1 && |trace1| == k + 2 && trace1[..k + 1] == trace
      && Explained(calls[..k], got, trace)
    requires if CanBe(trace[k], calls[k]) then Does(trace[k], calls[k], r, trace1[k + 1]) else trace1[k + 1] == trace[k]
    ensures Explained(calls[..k + 1], got + [r], trace1)
    ensures NoneLoses(calls, trace1, k + 1) <==>
      NoneLoses(calls, trace, k) && (CanBe(trace[k], calls[k]) ==> !Loses(trace[k], calls[k]))
    ensures AllOrdinary(calls, trace1, k + 1) <==>
      AllOrdinary(calls, trace, k) && (CanBe(trace[k], calls[k]) ==> Ordinary(trace[k], calls[k]))
  {
    assert forall m :: 0 <= m <= k ==> trace1[m] == trace[m];
  }

  // ---------- a lost link ----------

  const Free: Access := Access(true, true)

  /** A file system with a root directory and room for two more inodes. */
  function Root(): seq<Node> {
    [NO_NODE, Node(true, true, 2, [Slot(1, "."), Slot(1, "..")]), NO_NODE, NO_NODE]
  }

  lemma RootGood()
    ensures Good(Root()) && Counted(Root())
  {
    var t := Root();
    var s := t[1].slots;
    var r := t[1..];
    forall n | 0 < n < |t| ensures Exact(t, n) {
      assert s[1..] == [Slot(1, "..")] && s[1..][1..] == [];
      assert Naming(s, n) == (if n == 1 then 1 else 0) + Naming(s[1..], n);
      assert Naming(s[1..], n) == if n == 1 then 1 else 0;
      NoneNamed(r[1..], n);
      assert Total(r, n) == Naming(s, n) + Total(r[1..], n);
      assert Total(t, n) == Naming(t[0].slots, n) + Total(r, n);
    }
    CountedAmple(t);
  }

  lemma {:induction false} NoneNamed(nodes: seq<Node>, n: nat)
    requires forall d :: 0 <= d < |nodes| ==> nodes[d].slots == []
    ensures Total(nodes, n) == 0
  {
    if nodes != [] { NoneNamed(nodes[1..], n); }
  }

  /**
   The superuser makes a directory with mknod, a file is made in it, and the directory is unlinked:
   nothing names the file, but its count is still 1.
   */
  method LostLink() returns (tree: Tree)
    ensures fresh(tree) && tree.Valid() && !Counted(tree.nodes) && |tree.nodes| == 4
  {
    RootGood();
    tree := new Tree(Root());
    ghost var t0 := tree.nodes;
    assert Lookup(t0[1].slots, "d") == 0 by { assert t0[1].slots[1..][1..] == []; }
    var r := tree.Mknod(1, "d", true, true, false, Free, true, Some(2));
    ghost var t1 := tree.nodes;
    r := tree.Mknod(2, "f", false, true, false, Free, true, Some(3));
    ghost var t2 := tree.nodes;
    assert Lookup(t2[2].slots, "f") == 3 && Lookup(t2[1].slots, "d") == 2 by { assert t2[1] == t1[1]; }
    if NoEntries(t2[2].slots) { NamesNone(t2[2].slots, "f"); }
    r := tree.Unlink(1, "d", true, Free, true);
  }
}
