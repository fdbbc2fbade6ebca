/** The directory calls: link, unlink, rmdir, mknod, mkdir and rename. */
module LinkCalls {
  import opened Base
  import opened Links

  datatype Err = OK | EMLINK | EPERM | ENOENT | EACCES | EEXIST | ENOSPC | ENOTDIR | EISDIR | ENOTEMPTY | EINVAL
               | EBUSY | ENFILE

  /** What the permission check says about searching and writing a directory. */
  datatype Access = Access(look: bool, write: bool)

  /** Only one directory may be without its "." entry. */
  ghost predicate DottedBut(nodes: seq<Node>, x: nat) {
    // "true ==" makes this one fact to prove, not one for each part.
    true == (forall d {:trigger DotOk(nodes, d)} :: 0 < d < |nodes| && d != x ==> DotOk(nodes, d))
  }

  /** The names in directory d are as before, except that `name` now stands for n. */
  ghost predicate Renamed(t0: seq<Node>, t1: seq<Node>, d: nat, name: string, n: nat) {
    true == (d < |t0| == |t1| && forall s: string {:trigger Lookup(t1[d].slots, s)} ::
      Lookup(t1[d].slots, s) == if s == name then n else Lookup(t0[d].slots, s))
  }

  /** Apart from directory d, and apart from counts, nothing has changed. */
  ghost predicate OnlyIn(t0: seq<Node>, t1: seq<Node>, d: nat) {
    true == (|t1| == |t0| && forall e ::
      0 <= e < |t0| ==> t1[e].used == t0[e].used && t1[e].dir == t0[e].dir && (e != d ==> t1[e].slots == t0[e].slots))
  }

  /** Inode n has gained or lost links, the others have as many as before. */
  ghost predicate CountsBy(t0: seq<Node>, t1: seq<Node>, n: nat, delta: int) {
    true == (|t1| == |t0| && forall e :: 0 <= e < |t0| ==> t1[e].nlinks == t0[e].nlinks + if e == n then delta else 0)
  }

  lemma EnterDotted(nodes: seq<Node>, d: nat, k: nat, s: Slot, x: nat)
    requires Shaped(nodes) && 0 < d < |nodes| && k <= |nodes[d].slots| && 0 < s.ino < |nodes|
    requires k < |nodes[d].slots| ==> nodes[d].slots[k].ino == 0
    ensures DottedBut(nodes, x) && (d == x || HasDot(nodes, d) || s == Slot(d, ".")) ==>
      DottedBut(Updated(nodes, d, Entered(nodes[d].slots, k, s), s.ino, 1), x)
    ensures HasDot(nodes, d) || s == Slot(d, ".") ==>
      HasDot(Updated(nodes, d, Entered(nodes[d].slots, k, s), s.ino, 1), d)
  {
    var u := Entered(nodes[d].slots, k, s);
    var t := Updated(nodes, d, u, s.ino, 1);
    if HasDot(nodes, d) || s == Slot(d, ".") {
      DotKept(nodes[d].slots, k, s, d);
      assert t[d].slots == u;
    }
    if DottedBut(nodes, x) && (d == x || HasDot(nodes, d) || s == Slot(d, ".")) {
      forall e | 0 < e < |t| && e != x ensures DotOk(t, e) {
        assert DotOk(nodes, e);
        assert e != d ==> t[e].slots == nodes[e].slots;
      }
    }
  }

  lemma DotKept(slots: seq<Slot>, k: nat, s: Slot, d: nat)
    requires k <= |slots| && (k < |slots| ==> slots[k].ino == 0) && d > 0
    requires s == Slot(d, ".") || exists j :: 0 <= j < |slots| && slots[j] == Slot(d, ".")
    ensures exists j :: 0 <= j < |Entered(slots, k, s)| && Entered(slots, k, s)[j] == Slot(d, ".")
  {
    var u := Entered(slots, k, s);
    if s == Slot(d, ".") {
      assert u[k] == s;
    } else {
      var j :| 0 <= j < |slots| && slots[j] == Slot(d, ".");
      assert u[j] == slots[j];
    }
  }

  lemma EraseDotted(nodes: seq<Node>, d: nat, k: nat, n: nat, x: nat)
    requires 0 < d < |nodes| && k < |nodes[d].slots| && n < |nodes|
    ensures DottedBut(nodes, x) && (d == x || nodes[d].slots[k].name != ".") ==>
      DottedBut(Updated(nodes, d, Erased(nodes[d].slots, k), n, -1), x)
  {
    var t := Updated(nodes, d, Erased(nodes[d].slots, k), n, -1);
    if DottedBut(nodes, x) && (d == x || nodes[d].slots[k].name != ".") {
      forall e | 0 < e < |t| && e != x ensures DotOk(t, e) {
        assert DotOk(nodes, e);
        if e == d && HasDot(nodes, d) {
          var j :| 0 <= j < |nodes[d].slots| && nodes[d].slots[j] == Slot(d, ".");
          assert t[d].slots[j] == nodes[d].slots[j];
        }
      }
    }
  }

  class Tree {
    var nodes: seq<Node>

    constructor (nodes0: seq<Node>)
      requires Good(nodes0)
      ensures Valid() && nodes == nodes0
    {
      nodes := nodes0;
    }

    ghost predicate Valid()
      reads this
    {
      Good(nodes) == true
    }

    /** A directory in use. */
    predicate IsDir(d: nat)
      reads this
    {
      0 < d < |nodes| && nodes[d].used && nodes[d].dir
    }

    // ---------- search_dir ----------

    /** LOOK_UP and DELETE: the first entry with the name. */
    method Search(d: nat, name: string) returns (k: Option<nat>)
      requires d < |nodes|
      ensures k.Some? ==>
        FirstMatch(nodes[d].slots, name, k.value) && Lookup(nodes[d].slots, name) == nodes[d].slots[k.value].ino
      ensures k == None ==> Lookup(nodes[d].slots, name) == 0
    {
      var j := 0;
      while j < |nodes[d].slots|
        invariant 0 <= j <= |nodes[d].slots|
        invariant forall i :: 0 <= i < j ==> nodes[d].slots[i].ino == 0 || nodes[d].slots[i].name != name
      {
        if nodes[d].slots[j].ino != 0 && nodes[d].slots[j].name == name {
          LookupFirst(nodes[d].slots, name, j);
          return Some(j);
        }
        j := j + 1;
      }
      LookupNone(nodes[d].slots, name);
      k := None;
    }

    /** IS_EMPTY: only "." and ".." are left. */
    method IsEmpty(d: nat) returns (r: bool)
      requires d < |nodes|
      ensures r <==> OnlyDots(nodes[d].slots)
    {
      var j := 0;
      while j < |nodes[d].slots|
        invariant 0 <= j <= |nodes[d].slots|
        invariant forall i :: 0 <= i < j && nodes[d].slots[i].ino != 0 ==> nodes[d].slots[i].name in {".", ".."}
      {
        if nodes[d].slots[j].ino != 0 && nodes[d].slots[j].name != "." && nodes[d].slots[j].name != ".." {
          return false;
        }
        j := j + 1;
      }
      r := true;
    }

    /** ENTER: the first free slot, else room in the last block, else a new block if there is space for it. */
    method FreeSlot(d: nat, space: bool) returns (k: Option<nat>)
      requires d < |nodes|
      ensures k.Some? ==>
        k.value <= |nodes[d].slots| && (k.value < |nodes[d].slots| ==> nodes[d].slots[k.value].ino == 0)
      ensures k == None <==> !space && !Room(nodes[d].slots)
    {
      var j := 0;
      while j < |nodes[d].slots| && nodes[d].slots[j].ino != 0
        invariant 0 <= j <= |nodes[d].slots| && forall i :: 0 <= i < j ==> nodes[d].slots[i].ino != 0
      {
        j := j + 1;
      }
      if j == |nodes[d].slots| && j % NR_DIR_ENTRIES == 0 && !space { return None; }
      k := Some(j);
    }

    /** ENTER, and one more link for the inode. */
    method AddLink(d: nat, name: string, n: nat, space: bool, ghost x: nat) returns (ok: bool)
      requires Valid() && IsDir(d) && 0 < n < |nodes| && nodes[n].used && Lookup(nodes[d].slots, name) == 0
      modifies this
      ensures Valid() && SameExcess(old(nodes), nodes)
      ensures DottedBut(old(nodes), x) && (d == x || old(HasDot(nodes, d)) || (name == "." && n == d)) ==>
        DottedBut(nodes, x)
      ensures !ok ==> nodes == old(nodes)
      ensures ok ==>
        Renamed(old(nodes), nodes, d, name, n) && OnlyIn(old(nodes), nodes, d) && CountsBy(old(nodes), nodes, n, 1)
      ensures ok && (old(HasDot(nodes, d)) || (name == "." && n == d)) ==> HasDot(nodes, d)
      ensures ok ==> |old(nodes)[d].slots| <= |nodes[d].slots| <= |old(nodes)[d].slots| + 1 && |nodes[d].slots| > 0
      ensures ok <==> Room(old(nodes)[d].slots) || space
    {
      var k := FreeSlot(d, space);
      if k == None {
        SameAsBefore(nodes);
        return false;
      }
      var s := Slot(n, name);
      EnterGood(nodes, d, k.value, s);
      EnterDotted(nodes, d, k.value, s, x);
      forall nm: string
        ensures Lookup(Entered(nodes[d].slots, k.value, s), nm) == if nm == name then n
        else Lookup(nodes[d].slots, nm) {
        LookupEntered(nodes[d].slots, k.value, s, nm);
      }
      ghost var t := Updated(nodes, d, Entered(nodes[d].slots, k.value, s), n, 1);
      ExcessKept(nodes, t);
      nodes := Updated(nodes, d, Entered(nodes[d].slots, k.value, s), n, 1);
      ok := true;
    }

    /** unlink_file, once the permission check has passed: the entry goes and its inode loses a link. */
    method DropLink(d: nat, name: string, ghost x: nat) returns (ok: bool)
      requires Valid() && 0 < d < |nodes|
      modifies this
      ensures Valid() && SameExcess(old(nodes), nodes)
      ensures DottedBut(old(nodes), x) && (d == x || name != ".") ==> DottedBut(nodes, x)
      ensures ok <==> old(Lookup(nodes[d].slots, name)) != 0
      ensures !ok ==> nodes == old(nodes)
      ensures |nodes| == |old(nodes)| && Renamed(old(nodes), nodes, d, name, 0) && OnlyIn(old(nodes), nodes, d)
      ensures name != "." && old(HasDot(nodes, d)) ==> HasDot(nodes, d)
      ensures ok ==> Room(nodes[d].slots) && CountsBy(old(nodes), nodes, Lookup(old(nodes)[d].slots, name), -1)
      ensures NoEntries(nodes[d].slots) <==> !EntriesBut(old(nodes)[d].slots, name)
    {
      var k := Search(d, name);
      if k == None {
        SameAsBefore(nodes);
        NoneBut(nodes[d].slots, name);
        return false;
      }
      var n := nodes[d].slots[k.value].ino;
      assert NodeOk(nodes, d);
      EraseGood(nodes, d, k.value, n);
      EraseDotted(nodes, d, k.value, n, x);
      forall nm: string
        ensures Lookup(Erased(nodes[d].slots, k.value), nm) == if nm == name then 0 else Lookup(nodes[d].slots, nm) {
        LookupErased(nodes[d].slots, k.value, nm);
      }
      DotStays(nodes, d, k.value);
      ErasedBut(nodes[d].slots, k.value);
      ghost var t := Updated(nodes, d, Erased(nodes[d].slots, k.value), n, -1);
      ExcessKept(nodes, t);
      nodes := Updated(nodes, d, Erased(nodes[d].slots, k.value), n, -1);
      assert nodes[d].slots[k.value].ino == 0;
      ok := true;
    }

    /**
     put_inode: the last user of an inode without links gives it back; the counts stay exact if and
     only if it has no entries.
     */
    method PutInode(n: nat, last: bool)
      requires Valid() && 0 < n < |nodes|
      modifies this
      ensures Valid() && |nodes| == |old(nodes)|
      ensures nodes == if last && old(nodes)[n].nlinks == 0 then old(nodes)[n := NO_NODE] else old(nodes)
      ensures Counted(nodes) <==>
        Counted(old(nodes)) && !(last && old(nodes)[n].nlinks == 0 && !NoEntries(old(nodes)[n].slots))
      ensures Dotted(old(nodes)) ==> Dotted(nodes)
    {
      if last && nodes[n].nlinks == 0 {
        FreeGood(nodes, n);
        FreeDotted(nodes, n);
        nodes := nodes[n := NO_NODE];
      }
    }

    // ---------- link, unlink and rmdir ----------

    /** do_link: a second name for inode n, in directory d. */
    method Link(n: nat, d: nat, name: string, su: bool, access: Access, space: bool) returns (r: Err)
      requires Valid() && 0 < n < |nodes| && nodes[n].used && IsDir(d)
      modifies this
      ensures Valid() && (r != OK ==> nodes == old(nodes)) && (Counted(nodes) <==> Counted(old(nodes)))
      ensures r == OK ==>
        old(Lookup(nodes[d].slots, name)) == 0 && Renamed(old(nodes), nodes, d, name, n) && OnlyIn(old(nodes), nodes, d)
      ensures r == OK <==>
        (old(nodes)[n].nlinks < LINK_MAX && (old(nodes)[n].dir ==> su)
          && CanMake(old(nodes)[d].slots, name, access, space, Some(n)))
      ensures r == EEXIST ==> old(Lookup(nodes[d].slots, name)) != 0
      ensures Dotted(old(nodes)) && old(HasDot(nodes, d)) ==> Dotted(nodes)
    {
      if nodes[n].nlinks >= LINK_MAX { return EMLINK; }
      if nodes[n].dir && !su { return EPERM; }
      if !access.look { return EACCES; }
      var k := Search(d, name);
      if k.Some? { return EEXIST; }
      if !access.write { return EACCES; }
      AllDotted(nodes);
      ghost var t0 := nodes;
      var ok := AddLink(d, name, n, space, 0);
      AllDotted(nodes);
      ExcessKept(t0, nodes);
      r := if ok then OK else ENOSPC;
    }

    /** do_unlink: entries are lost if and only if the inode that goes is a directory that still has some. */
    method Unlink(d: nat, name: string, su: bool, access: Access, last: bool) returns (r: Err)
      requires Valid() && IsDir(d)
      modifies this
      ensures Valid() && |nodes| == |old(nodes)| && (r != OK ==> nodes == old(nodes))
      ensures r == OK <==> access.look && access.write && MayUnlink(old(nodes), Lookup(old(nodes)[d].slots, name), su)
      ensures r == OK && nodes[d].used ==> Renamed(old(nodes), nodes, d, name, 0)
      ensures forall e ::
        0 <= e < |nodes| && e !in {d, Lookup(old(nodes)[d].slots, name)} ==> nodes[e].slots == old(nodes)[e].slots
      ensures Counted(nodes) <==> Counted(old(nodes)) && !(r == OK && Orphans(old(nodes), d, name, last))
      ensures Dotted(old(nodes)) && name != "." ==> Dotted(nodes)
    {
      assert NodeOk(nodes, d);
      if !access.look { return EACCES; }
      var k := Search(d, name);
      if k == None { return ENOENT; }
      var n := nodes[d].slots[k.value].ino;
      if n == ROOT_INODE { return EBUSY; }
      if nodes[n].dir && !su { return EPERM; }
      if !access.write { return EACCES; }
      AllDotted(nodes);
      ghost var t0 := nodes;
      var ok := DropLink(d, name, 0);
      AllDotted(nodes);
      ExcessKept(t0, nodes);
      LeftBehind(t0, nodes, d, name, n, last);
      PutInode(n, last);
      r := OK;
    }

    /** remove_dir: x is the directory that `name` stands for in d. */
    method RemoveDir(d: nat, x: nat, name: string, write: bool, busy: bool) returns (r: Err)
      requires Valid() && IsDir(d) && x == Lookup(nodes[d].slots, name) != 0 && x < |nodes|
      modifies this
      ensures Valid() && SameExcess(old(nodes), nodes) && (r != OK ==> nodes == old(nodes))
      ensures r == OK <==>
        old(nodes)[x].dir && OnlyDots(old(nodes)[x].slots) && name !in {".", ".."} && x != ROOT_INODE && !busy && write
      ensures r == OK ==> x != d && Renamed(old(nodes), nodes, d, name, 0) && NoEntries(nodes[x].slots)
      ensures r == OK ==> TwoDirs(old(nodes), nodes, d, x)
      ensures r == OK ==> Room(nodes[d].slots) && (old(HasDot(nodes, d)) ==> HasDot(nodes, d))
      ensures Dotted(old(nodes)) ==> Dotted(nodes)
    {
      assert NodeOk(nodes, d);
      SameAsBefore(nodes);
      ghost var k := LookupSome(nodes[d].slots, name);
      if !nodes[x].dir { return ENOTDIR; }
      var empty := IsEmpty(x);
      if !empty { return ENOTEMPTY; }
      if name == "." || name == ".." { return EINVAL; }
      if x == ROOT_INODE { return EBUSY; }
      if busy { return EBUSY; }
      if !write { return EACCES; }
      ghost var t0 := nodes;
      AllDotted(nodes);
      DottedLess(nodes, x);
      var ok := DropLink(d, name, x);
      ghost var t1 := nodes;
      DropDots(x);
      NothingLeft(t0[x].slots, nodes[x].slots);
      assert DotOk(nodes, x);
      DottedMore(nodes, x);
      ExcessTwice(t0, t1, nodes);
      RemovedDir(t0, t1, nodes, d, x, name);
      r := OK;
    }

    /** The end of remove_dir: "." and ".." go as well. */
    method DropDots(x: nat)
      requires Valid() && 0 < x < |nodes|
      modifies this
      ensures Valid() && SameExcess(old(nodes), nodes) && OnlyIn(old(nodes), nodes, x)
        && (DottedBut(old(nodes), x) ==> DottedBut(nodes, x))
      ensures Lookup(nodes[x].slots, ".") == 0 && Lookup(nodes[x].slots, "..") == 0
      ensures forall nm: string :: nm !in {".", ".."} ==> Lookup(nodes[x].slots, nm) == Lookup(old(nodes)[x].slots, nm)
    {
      ghost var t0 := nodes;
      var ok := DropLink(x, ".", x);
      ghost var t1 := nodes;
      ok := DropLink(x, "..", x);
      ExcessTwice(t0, t1, nodes);
      forall nm: string | nm !in {".", ".."} ensures Lookup(nodes[x].slots, nm) == Lookup(t0[x].slots, nm) {
        assert Lookup(t1[x].slots, nm) == Lookup(t0[x].slots, nm);
      }
    }

    /** do_unlink for RMDIR. */
    method Rmdir(d: nat, name: string, access: Access, busy: bool, last: bool) returns (r: Err)
      requires Valid() && IsDir(d)
      modifies this
      ensures Valid() && |nodes| == |old(nodes)| && (r != OK ==> nodes == old(nodes))
        && (Counted(nodes) <==> Counted(old(nodes)))
      ensures r == OK <==>
        access.look && access.write && !busy && name !in {".", ".."}
        && old(MayRemove(nodes, Lookup(nodes[d].slots, name), d))
      ensures r == OK ==> Renamed(old(nodes), nodes, d, name, 0)
      ensures forall e ::
        0 <= e < |nodes| && e !in {d, Lookup(old(nodes)[d].slots, name)} ==> nodes[e].slots == old(nodes)[e].slots
      ensures Dotted(old(nodes)) ==> Dotted(nodes)
    {
      if !access.look { return EACCES; }
      var k := Search(d, name);
      if k == None { return ENOENT; }
      assert NodeOk(nodes, d);
      var n := nodes[d].slots[k.value].ino;
      if n == ROOT_INODE { return EBUSY; }
      ghost var t0 := nodes;
      r := RemoveDir(d, n, name, access.write, busy);
      ExcessKept(t0, nodes);
      if r == OK { PutInode(n, last); }
    }

    // ---------- mknod and mkdir ----------

    /** new_node: an inode and its first name; avail is what alloc_inode has to offer. */
    method NewNode(d: nat, name: string, dir: bool, access: Access, space: bool, avail: Option<nat>)
        returns (r: Err, x: nat)
      requires Valid() && IsDir(d) && Avail(nodes, avail)
      modifies this
      ensures Valid() && SameExcess(old(nodes), nodes) && (r != OK ==> nodes == old(nodes))
      ensures r in {OK, EACCES, EEXIST, ENFILE, ENOSPC}
      ensures r == OK <==> CanMake(old(nodes)[d].slots, name, access, space, avail)
      ensures r == OK ==> avail == Some(x) && Made(old(nodes), nodes, d, name, x, dir)
      ensures Dotted(old(nodes)) && old(HasDot(nodes, d)) ==> Dotted(nodes)
    {
      x := 0;
      SameAsBefore(nodes);
      if !access.look { return EACCES, x; }
      var k := Search(d, name);
      if k.Some? { return EEXIST, x; }
      if avail == None { return ENFILE, x; }
      x := avail.value;
      ghost var t0 := nodes;
      AllocGood(nodes, x, dir);
      nodes := nodes[x := Node(true, dir, 0, [])];
      ghost var t1 := nodes;
      AllDotted(nodes);
      var ok := false;
      if access.write { ok := AddLink(d, name, x, space, 0); }
      AllDotted(nodes);
      if !ok {
        r := if access.write then ENOSPC else EACCES;
        nodes := nodes[x := NO_NODE];
        assert nodes == t0;
        return;
      }
      ExcessTwice(t0, t1, nodes);
      NodeMade(t0, t1, nodes, d, name, x, dir);
      r := OK;
    }

    /** do_mknod */
    method Mknod(d: nat, name: string, dir: bool, su: bool, fifo: bool, access: Access, space: bool,
                 avail: Option<nat>) returns (r: Err)
      requires Valid() && IsDir(d) && Avail(nodes, avail)
      modifies this
      ensures Valid() && (r != OK ==> nodes == old(nodes)) && (Counted(nodes) <==> Counted(old(nodes)))
      ensures r == EPERM <==> !su && !fifo
      ensures r == OK <==> (su || fifo) && CanMake(old(nodes)[d].slots, name, access, space, avail)
      ensures r == OK ==> avail.Some? && Made(old(nodes), nodes, d, name, avail.value, dir)
      ensures Dotted(old(nodes)) && old(HasDot(nodes, d)) ==> Dotted(nodes)
    {
      if !su && !fifo { return EPERM; }
      var x;
      ghost var t0 := nodes;
      r, x := NewNode(d, name, dir, access, space, avail);
      ExcessKept(t0, nodes);
      if r == OK { PutInode(x, true); }
    }

    /** do_mkdir: the new directory has "." and "..", or everything is as before. */
    method Mkdir(d: nat, name: string, access: Access, space: bool, avail: Option<nat>) returns (r: Err)
      requires Valid() && IsDir(d) && Avail(nodes, avail)
      modifies this
      ensures Valid() && |nodes| == |old(nodes)| && (Counted(nodes) <==> Counted(old(nodes)))
      ensures r == OK ==> avail.Some? && MadeDir(old(nodes), nodes, d, name, avail.value)
      ensures r == EMLINK <==> old(nodes)[d].nlinks >= LINK_MAX
      ensures r == OK <==>
        old(nodes)[d].nlinks < LINK_MAX && CanMake(old(nodes)[d].slots, name, access, space, avail) && space
      ensures r != OK ==> SameNames(old(nodes), nodes)
      ensures Dotted(old(nodes)) && old(HasDot(nodes, d)) && name != "." ==> Dotted(nodes)
    {
      if nodes[d].nlinks >= LINK_MAX { return EMLINK; }
      ghost var t0 := nodes;
      var x;
      r, x := NewNode(d, name, true, access, space, avail);
      ExcessKept(t0, nodes);
      if r == OK {
        assert NodeOk(t0, x);
        r := Populate(d, name, x, space, t0);
      }
    }

    /** The rest of do_mkdir, once there is an inode. */
    method Populate(d: nat, name: string, x: nat, space: bool, ghost t0: seq<Node>) returns (r: Err)
      requires Valid() && Good(t0) && Made(t0, nodes, d, name, x, true) && IsDir(d) && 0 < x < |nodes|
        && t0[x] == NO_NODE
      modifies this
      ensures Valid() && |nodes| == |old(nodes)| && (Counted(nodes) <==> Counted(old(nodes))) && r in {OK, ENOSPC}
        && (r == OK <==> space)
      ensures r == OK ==> MadeDir(t0, nodes, d, name, x)
      ensures r != OK ==> SameNames(t0, nodes)
      ensures Dotted(old(nodes)) && name != "." ==> Dotted(nodes)
    {
      ghost var t1 := nodes;
      var ok := EnterDots(x, d, space);
      ExcessKept(t1, nodes);
      if !ok {
        UndoMkdir(d, name, x, t0, t1);
        return ENOSPC;
      }
      DirMade(t0, t1, nodes, d, name, x);
      PutInode(d, false);
      PutInode(x, true);
      r := OK;
    }

    /** Entering "." and ".." in a new directory; a directory without a block has no room for either. */
    method EnterDots(x: nat, d: nat, space: bool) returns (ok: bool)
      requires Valid() && IsDir(x) && nodes[x] == Node(true, true, 1, []) && IsDir(d) && d != x
      modifies this
      ensures Valid() && SameExcess(old(nodes), nodes) && (!ok ==> nodes == old(nodes))
        && (Dotted(old(nodes)) ==> Dotted(nodes))
      ensures ok ==> OnlyIn(old(nodes), nodes, x) && DotsOnly(nodes, x, d)
      ensures ok ==> nodes[x].nlinks == 2 && nodes[d].nlinks == old(nodes)[d].nlinks + 1
      ensures ok <==> space
    {
      ghost var t0 := nodes;
      AllDotted(nodes);
      ok := AddLink(x, ".", x, space, 0);
      if !ok { return; }
      ghost var t1 := nodes;
      assert Lookup(t1[x].slots, "..") == Lookup(t0[x].slots, "..") == 0;
      ok := AddLink(x, "..", d, space, 0);
      AllDotted(nodes);
      ExcessTwice(t0, t1, nodes);
      forall s: string ensures Lookup(nodes[x].slots, s) == if s == "." then x else if s == ".." then d else 0 {
        assert Lookup(t1[x].slots, s) == if s == "." then x else Lookup(t0[x].slots, s);
      }
    }

    /** The undo path of do_mkdir. */
    method UndoMkdir(d: nat, name: string, x: nat, ghost t0: seq<Node>, ghost t1: seq<Node>)
      requires Valid() && IsDir(d) && nodes == t1 && 0 < x < |t0| && Made(t0, t1, d, name, x, true) && t0[x] == NO_NODE
      modifies this
      ensures Valid() && SameNames(t0, nodes) && (Counted(nodes) <==> Counted(t1))
      ensures Dotted(t1) && name != "." ==> Dotted(nodes)
    {
      AllDotted(nodes);
      var ok := DropLink(d, name, 0);
      AllDotted(nodes);
      ghost var t2 := nodes;
      ExcessKept(t1, t2);
      PutInode(x, true);
      Undone(t0, t1, t2, nodes, d, name, x);
    }

    // ---------- rename ----------

    /** The checks of do_rename; n is the old inode, m the one that has the new name, 0 if none. */
    method RenameCheck(od: nat, oname: string, nd: nat, nname: string, oldDir: Access, newDir: Access, isSuper: bool)
      returns (r: Err, same: bool, n: nat, m: nat)
      requires Valid() && IsDir(od) && IsDir(nd) && (oldDir.write ==> oldDir.look) && (newDir.write ==> newDir.look)
      ensures r == OK && !same && n < |nodes| && nodes[n].dir && od != nd ==> n != nd
      ensures r == OK && !same ==>
        n == Lookup(nodes[od].slots, oname) != 0 && m == Lookup(nodes[nd].slots, nname) && n != m
      ensures r == OK && !same ==> oname !in {".", ".."} && nname !in {".", ".."} && oldDir.write && newDir.write
      ensures r == OK && !same ==> n < |nodes| && m < |nodes| && (m != 0 ==> nodes[m].dir == nodes[n].dir)
      ensures same ==> r == OK
      ensures r == OK && !same <==> CheckOk(nodes, od, oname, nd, nname, oldDir, newDir, isSuper)
      ensures same ==> Lookup(nodes[od].slots, oname) == Lookup(nodes[nd].slots, nname) != 0
    {
      r, same, n, m := OK, false, 0, 0;
      assert NodeOk(nodes, od) && NodeOk(nodes, nd);
      var k := Search(od, oname);
      if !oldDir.look { return EACCES, false, 0, 0; }
      if k == None { return ENOENT, false, 0, 0; }
      n := nodes[od].slots[k.value].ino;
      if newDir.look {
        var k2 := Search(nd, nname);
        if k2.Some? { m := nodes[nd].slots[k2.value].ino; }
      }
      if nodes[n].dir && od != nd && (n == nd || isSuper) { r := EINVAL; }
      if oname == "." || oname == ".." || nname == "." || nname == ".." { r := EINVAL; }
      if !oldDir.write || !newDir.write { r := EACCES; }
      if m == 0 {
        if nodes[n].dir && nodes[nd].nlinks >= LINK_MAX && od != nd && r == OK { r := EMLINK; }
      } else {
        if n == m { r, same := OK, true; }
        if nodes[n].dir && !nodes[m].dir { r := ENOTDIR; }
        if !nodes[n].dir && nodes[m].dir { r := EISDIR; }
      }
    }

    /** The new name goes, if it is there. */
    method DropTarget(nd: nat, nname: string, m: nat, write: bool, busy: bool) returns (r: Err)
      requires Valid() && IsDir(nd) && m == Lookup(nodes[nd].slots, nname) && m < |nodes| && nname !in {".", ".."}
        && write
      modifies this
      ensures Valid() && SameExcess(old(nodes), nodes) && (r != OK ==> nodes == old(nodes))
        && (r == OK <==> TargetOk(old(nodes), m, busy))
      ensures r == OK ==> Renamed(old(nodes), nodes, nd, nname, 0) && TwoDirs(old(nodes), nodes, nd, m)
      ensures r == OK && m != 0 ==>
        Room(nodes[nd].slots) && (old(nodes)[m].dir ==> m != nd && OnlyDots(old(nodes)[m].slots))
        && NoEntries(nodes[m].slots)
      ensures r == OK && !old(nodes)[m].dir ==> OnlyIn(old(nodes), nodes, nd)
      ensures m == 0 ==> nodes == old(nodes)
      ensures (Dotted(old(nodes)) ==> Dotted(nodes)) && (old(HasDot(nodes, nd)) ==> HasDot(nodes, nd))
    {
      r := OK;
      SameAsBefore(nodes);
      assert NodeOk(nodes, nd);
      if m == 0 { return; }
      if nodes[m].dir {
        r := RemoveDir(nd, m, nname, write, busy);
      } else {
        assert NodeOk(nodes, m);
        AllDotted(nodes);
        var ok := DropLink(nd, nname, 0);
        AllDotted(nodes);
      }
    }

    /** The old name goes and the new one is made, in the order that cannot lose the file. */
    method Move(od: nat, oname: string, nd: nat, nname: string, n: nat, space: bool) returns (ok: bool)
      requires Valid() && IsDir(od) && IsDir(nd) && n == Lookup(nodes[od].slots, oname) != 0 && n < |nodes|
        && nodes[n].used
      requires Lookup(nodes[nd].slots, nname) == 0 && oname !in {".", ".."} && nname !in {".", ".."}
      modifies this
      ensures Valid() && SameExcess(old(nodes), nodes) && (!ok ==> nodes == old(nodes))
      ensures ok <==> od == nd || space || Room(old(nodes)[nd].slots)
      ensures ok ==>
        Moved(old(nodes), nodes, od, oname, nd, nname, n) && TwoDirs(old(nodes), nodes, od, nd)
        && CountsBy(old(nodes), nodes, n, 0)
      ensures ok && od != nd ==> Room(nodes[od].slots)
      ensures Dotted(old(nodes)) && old(HasDot(nodes, nd)) ==> Dotted(nodes)
    {
      ghost var t0 := nodes;
      AllDotted(nodes);
      if od == nd {
        ok := DropLink(od, oname, 0);
        ghost var t1 := nodes;
        ok := AddLink(nd, nname, n, space, 0);
        ExcessTwice(t0, t1, nodes);
        MovedSame(t0, t1, nodes, od, oname, nname, n);
      } else {
        ok := AddLink(nd, nname, n, space, 0);
        if !ok { return; }
        ghost var t1 := nodes;
        var gone := DropLink(od, oname, 0);
        ExcessTwice(t0, t1, nodes);
        MovedOther(t0, t1, nodes, od, oname, nd, nname, n);
      }
      AllDotted(nodes);
    }

    /** The ".." of a directory that has moved. */
    method FixDotDot(n: nat, nd: nat, space: bool)
      requires Valid() && IsDir(n) && IsDir(nd)
      modifies this
      ensures Valid() && SameExcess(old(nodes), nodes) && OnlyIn(old(nodes), nodes, n)
      ensures Renamed(old(nodes), nodes, n, "..", if DotDotFits(old(nodes), n, space) then nd else 0)
      ensures Dotted(old(nodes)) && old(HasDot(nodes, n)) ==> Dotted(nodes)
    {
      ghost var t0 := nodes;
      AllDotted(nodes);
      var gone := DropLink(n, "..", 0);
      ghost var t1 := nodes;
      var ok := AddLink(n, "..", nd, space, 0);
      AllDotted(nodes);
      ExcessTwice(t0, t1, nodes);
      if ok { RenamedTwice(t0, t1, nodes, n, "..", nd); }
    }

    /** do_rename; isSuper is what the walk up from the new directory has found. */
    method Rename(od: nat, oname: string, nd: nat, nname: string, oldDir: Access, newDir: Access, busy: bool,
                  isSuper: bool, space: bool, last: bool)
      returns (r: Err)
      requires Valid() && IsDir(od) && IsDir(nd) && (oldDir.write ==> oldDir.look) && (newDir.write ==> newDir.look)
      modifies this
      ensures Valid() && |nodes| == |old(nodes)| && (r != OK ==> nodes == old(nodes))
        && (Counted(nodes) <==> Counted(old(nodes)))
      ensures r == OK && old(Lookup(nodes[od].slots, oname)) != old(Lookup(nodes[nd].slots, nname)) ==>
        CheckOk(old(nodes), od, oname, nd, nname, oldDir, newDir, isSuper)
      ensures (CheckOk(old(nodes), od, oname, nd, nname, oldDir, newDir, isSuper)
        && TargetOk(old(nodes), old(Lookup(nodes[nd].slots, nname)), busy)
        && (od == nd || space || old(Lookup(nodes[nd].slots, nname)) != 0)) ==> r == OK
      ensures r == OK ==> if old(Lookup(nodes[od].slots, oname)) == old(Lookup(nodes[nd].slots, nname))
        then nodes == old(nodes)
                          else RenamedTree(old(nodes), nodes, od, oname, nd, nname, space)
      ensures
        (Dotted(old(nodes)) && old(HasDot(nodes, nd)) && old(DirDotted(nodes, Lookup(nodes[od].slots, oname)))) ==>
        Dotted(nodes)
    {
      var same, n, m;
      r, same, n, m := RenameCheck(od, oname, nd, nname, oldDir, newDir, isSuper);
      if r != OK || same { return; }
      ghost var t0 := nodes;
      NamedUsed(nodes, od, oname, n);
      r := DropTarget(nd, nname, m, newDir.write, busy);
      ExcessKept(t0, nodes);
      if r != OK { return; }
      ghost var t1 := nodes;
      TargetGone(t0, t1, od, oname, nd, nname, n, m);
      r := MoveAndFix(od, oname, nd, nname, n, space);
      ExcessKept(t1, nodes);
      ghost var t2 := nodes;
      if m != 0 {
        TargetEmpty(t1, t2, od, oname, nd, nname, n, m, space);
        PutInode(m, last);
      }
      if r == OK { WholeRename(t0, t1, t2, nodes, od, oname, nd, nname, n, m, space); }
    }

    /** The second half of do_rename. */
    method MoveAndFix(od: nat, oname: string, nd: nat, nname: string, n: nat, space: bool) returns (r: Err)
      requires Valid() && IsDir(od) && IsDir(nd) && n == Lookup(nodes[od].slots, oname) != 0 && n < |nodes|
        && nodes[n].used
      requires Lookup(nodes[nd].slots, nname) == 0 && oname !in {".", ".."} && nname !in {".", ".."}
        && (nodes[n].dir && od != nd ==> n != nd)
      modifies this
      ensures Valid() && SameExcess(old(nodes), nodes) && (r != OK ==> nodes == old(nodes) && !Room(nodes[nd].slots))
      ensures r == OK <==> od == nd || space || Room(old(nodes)[nd].slots)
      ensures r == OK ==> MovedTree(old(nodes), nodes, od, oname, nd, nname, n, space)
      ensures Dotted(old(nodes)) && old(HasDot(nodes, nd)) && old(nodes[n].dir ==> HasDot(nodes, n)) ==> Dotted(nodes)
    {
      ghost var t0 := nodes;
      var ok := Move(od, oname, nd, nname, n, space);
      if !ok { return ENOSPC; }
      r := OK;
      ghost var t1 := nodes;
      if nodes[n].dir && od != nd {
        if Dotted(t1) && HasDot(t0, n) { MovedDots(t0, t1, od, oname, nd, nname, n); }
        FixDotDot(n, nd, space);
        ExcessTwice(t0, t1, nodes);
      }
      MovedAll(t0, t1, nodes, od, oname, nd, nname, n, space);
    }
  }

  /** od has lost oname and nd has gained nname for n; no other name in them has changed. */
  ghost predicate Moved(t0: seq<Node>, t1: seq<Node>, od: nat, oname: string, nd: nat, nname: string, n: nat) {
    true == (
      && od < |t0| == |t1| && nd < |t0|
      && (forall s: string {:trigger Lookup(t1[nd].slots, s)} ::
        Lookup(t1[nd].slots, s) == if s == nname then n else if od == nd && s == oname then 0
          else Lookup(t0[nd].slots, s))
      && (od != nd ==> forall s: string {:trigger Lookup(t1[od].slots, s)} ::
        Lookup(t1[od].slots, s) == if s == oname then 0 else Lookup(t0[od].slots, s)))
  }

  lemma MovedSame(t0: seq<Node>, t1: seq<Node>, t2: seq<Node>, d: nat, oname: string, nname: string, n: nat)
    requires Renamed(t0, t1, d, oname, 0) && Renamed(t1, t2, d, nname, n) && OnlyIn(t0, t1, d) && OnlyIn(t1, t2, d)
    requires CountsBy(t0, t1, n, -1) && CountsBy(t1, t2, n, 1)
    ensures Moved(t0, t2, d, oname, d, nname, n) && TwoDirs(t0, t2, d, d) && CountsBy(t0, t2, n, 0)
  {
    forall s: string
      ensures Lookup(t2[d].slots, s) == if s == nname then n else if s == oname then 0 else Lookup(t0[d].slots, s) {
      assert Lookup(t1[d].slots, s) == if s == oname then 0 else Lookup(t0[d].slots, s);
    }
  }

  lemma MovedOther(t0: seq<Node>, t1: seq<Node>, t2: seq<Node>, od: nat, oname: string, nd: nat, nname: string, n: nat)
    requires Renamed(t0, t1, nd, nname, n) && Renamed(t1, t2, od, oname, 0) && OnlyIn(t0, t1, nd)
      && OnlyIn(t1, t2, od) && od != nd
    requires CountsBy(t0, t1, n, 1) && CountsBy(t1, t2, n, -1)
    ensures Moved(t0, t2, od, oname, nd, nname, n) && TwoDirs(t0, t2, od, nd) && CountsBy(t0, t2, n, 0)
  {
  }

  lemma RenamedTwice(t0: seq<Node>, t1: seq<Node>, t2: seq<Node>, d: nat, name: string, n: nat)
    requires Renamed(t0, t1, d, name, 0) && Renamed(t1, t2, d, name, n)
    ensures Renamed(t0, t2, d, name, n)
  {
    forall s: string ensures Lookup(t2[d].slots, s) == if s == name then n else Lookup(t0[d].slots, s) {
      assert s == name || Lookup(t1[d].slots, s) == Lookup(t0[d].slots, s);
    }
  }

  /** What a name stands for is in use. */
  lemma NamedUsed(nodes: seq<Node>, d: nat, name: string, n: nat)
    requires Good(nodes) && 0 < d < |nodes| && n == Lookup(nodes[d].slots, name) != 0
    ensures n < |nodes| && nodes[n].used
  {
    var k := LookupSome(nodes[d].slots, name);
    assert NodeOk(nodes, d);
    Named(nodes, d, k);
    assert NodeOk(nodes, n);
  }

  /** Removing the target leaves the old name and its inode alone. */
  lemma TargetGone(t0: seq<Node>, t1: seq<Node>, od: nat, oname: string, nd: nat, nname: string, n: nat, m: nat)
    requires 0 < od < |t0| && 0 < nd < |t0| && n < |t0| && m < |t0| && n == Lookup(t0[od].slots, oname) != 0
      && m == Lookup(t0[nd].slots, nname) && n != m
    requires oname !in {".", ".."} && Renamed(t0, t1, nd, nname, 0) && TwoDirs(t0, t1, nd, m)
    requires m != 0 && t0[m].dir ==> m != nd && OnlyDots(t0[m].slots)
    requires !t0[m].dir ==> OnlyIn(t0, t1, nd)
    requires m == 0 ==> t1 == t0
    requires t0[od].dir && t0[nd].dir
    ensures Lookup(t1[od].slots, oname) == n && m != od && m != nd && (od == nd ==> oname != nname)
  {
    var k := LookupSome(t0[od].slots, oname);
    assert !OnlyDots(t0[od].slots) by { assert t0[od].slots[k].ino != 0 && t0[od].slots[k].name == oname; }
    if od == nd {
      assert oname != nname;
    } else {
      assert t1[od].slots == t0[od].slots;
    }
  }

  // ---------- what a rename does to every name ----------

  /** There is room for a new ".." entry: that of the old one, a free slot, or a new block. */
  predicate DotDotFits(nodes: seq<Node>, n: nat, space: bool)
    requires n < |nodes|
  {
    Lookup(nodes[n].slots, "..") != 0 || space || Room(nodes[n].slots)
  }

  /** What a name in directory e stands for once n has moved; a directory that changes its parent has a new "..". */
  function MovedName(t: seq<Node>, od: nat, oname: string, nd: nat, nname: string, n: nat, space: bool, e: nat,
                     s: string): nat
    requires e < |t| && n < |t|
  {
    if e == nd && s == nname then n
    else if e == od && s == oname then 0
    else if e == n && s == ".." && t[n].dir && od != nd then (if n == od || DotDotFits(t, n, space) then nd else 0)
    else Lookup(t[e].slots, s)
  }

  ghost predicate MovedTree(t0: seq<Node>, t1: seq<Node>, od: nat, oname: string, nd: nat, nname: string, n: nat,
                            space: bool) {
    true == (|t1| == |t0| && n < |t0| && forall e: nat, s: string {:trigger Lookup(t1[e].slots, s)} :: e < |t0| ==>
      Lookup(t1[e].slots, s) == MovedName(t0, od, oname, nd, nname, n, space, e, s))
  }

  /** The same for the whole call, which may have replaced an inode m: nothing is left in m. */
  ghost predicate RenamedTree(t0: seq<Node>, t1: seq<Node>, od: nat, oname: string, nd: nat, nname: string,
                              space: bool) {
    true == (od < |t0| && nd < |t0| == |t1| &&
      var n, m := Lookup(t0[od].slots, oname), Lookup(t0[nd].slots, nname);
      0 < n < |t0| && forall e: nat, s: string {:trigger Lookup(t1[e].slots, s)} :: e < |t0| ==>
        Lookup(t1[e].slots, s) == if m != 0 && e == m then 0 else MovedName(t0, od, oname, nd, nname, n, space, e, s))
  }

  lemma MovedAll(t0: seq<Node>, t1: seq<Node>, t2: seq<Node>, od: nat, oname: string, nd: nat, nname: string, n: nat,
                 space: bool)
    requires Moved(t0, t1, od, oname, nd, nname, n) && TwoDirs(t0, t1, od, nd) && n < |t0| && oname != ".."
      && nname != ".."
    requires t0[n].dir && od != nd ==> n != nd && Room(t1[od].slots)
    requires if t0[n].dir && od != nd
      then OnlyIn(t1, t2, n) && Renamed(t1, t2, n, "..", if DotDotFits(t1, n, space) then nd else 0) else t2 == t1
    ensures MovedTree(t0, t2, od, oname, nd, nname, n, space)
  {
    if t0[n].dir && od != nd {
      assert DotDotFits(t1, n, space) <==>
        n == od || DotDotFits(t0, n, space) by { if n != od { assert t1[n].slots == t0[n].slots; } }
    }
    forall e: nat, s: string | e < |t0|
      ensures Lookup(t2[e].slots, s) == MovedName(t0, od, oname, nd, nname, n, space, e, s) {
      assert Lookup(t1[e].slots, s) == if e == nd && s == nname then n else if e == od && s == oname then 0
        else Lookup(t0[e].slots, s);
      if t0[n].dir && od != nd && e != n { assert t2[e].slots == t1[e].slots; }
    }
  }

  lemma NoNames(slots: seq<Slot>)
    requires forall s: string :: Lookup(slots, s) == 0
    ensures NoEntries(slots)
  {
    forall k | 0 <= k < |slots| ensures slots[k].ino == 0 { NoLookup(slots, slots[k].name, k); }
  }

  lemma {:induction false} NamesNone(slots: seq<Slot>, s: string)
    requires NoEntries(slots)
    ensures Lookup(slots, s) == 0
  {
    if Lookup(slots, s) != 0 { var k := LookupSome(slots, s); }
  }

  /** The replaced inode has no entries when it is released. */
  lemma TargetEmpty(t1: seq<Node>, t2: seq<Node>, od: nat, oname: string, nd: nat, nname: string, n: nat, m: nat,
                    space: bool)
    requires m < |t1| && NoEntries(t1[m].slots) && m != od && m != nd && m != n
    requires t2 == t1 || MovedTree(t1, t2, od, oname, nd, nname, n, space)
    ensures |t2| == |t1| && NoEntries(t2[m].slots)
  {
    if t2 != t1 {
      forall s: string ensures Lookup(t2[m].slots, s) == 0 { NamesNone(t1[m].slots, s); }
      NoNames(t2[m].slots);
    }
  }

  lemma WholeRename(t0: seq<Node>, t1: seq<Node>, t2: seq<Node>, t3: seq<Node>, od: nat, oname: string, nd: nat,
                    nname: string, n: nat, m: nat, space: bool)
    requires od < |t0| && nd < |t0| && n == Lookup(t0[od].slots, oname) != 0 && m == Lookup(t0[nd].slots, nname)
      && n < |t0| && m < |t0| && n != m
    requires Renamed(t0, t1, nd, nname, 0) && TwoDirs(t0, t1, nd, m) && (m == 0 ==> t1 == t0)
      && (t0[n].dir && od != nd ==> n != nd)
    requires MovedTree(t1, t2, od, oname, nd, nname, n, space) && m != od && m != nd
    requires m != 0 ==> NoEntries(t1[m].slots) && NoEntries(t2[m].slots) && (t3 == t2 || t3 == t2[m := NO_NODE])
    requires m == 0 ==> t3 == t2
    ensures RenamedTree(t0, t3, od, oname, nd, nname, space)
  {
    forall e: nat, s: string | e < |t0|
      ensures Lookup(t3[e].slots, s) == if m != 0 && e == m then 0
        else MovedName(t0, od, oname, nd, nname, n, space, e, s)
    {
      if m != 0 && e == m {
        NamesNone(t3[m].slots, s);
      } else {
        assert Lookup(t3[e].slots, s) == MovedName(t1, od, oname, nd, nname, n, space, e, s);
        if e == n && t0[n].dir && od != nd { assert t1[n].slots == t0[n].slots; }
      }
    }
  }

  /** A moved directory still has its "." entry. */
  lemma MovedDots(t0: seq<Node>, t1: seq<Node>, od: nat, oname: string, nd: nat, nname: string, n: nat)
    requires Moved(t0, t1, od, oname, nd, nname, n) && TwoDirs(t0, t1, od, nd) && Dotted(t1) && 0 < n < |t1|
    requires HasDot(t0, n) && oname != "." && nname != "."
    ensures HasDot(t1, n)
  {
    DotNamed(t0, n);
    if n != od && n != nd {
      assert t1[n].slots == t0[n].slots;
    } else {
      assert Lookup(t1[n].slots, ".") != 0;
      var k := LookupSome(t1[n].slots, ".");
      assert DotOk(t1, n);
    }
  }

  lemma DotNamed(nodes: seq<Node>, d: nat)
    requires HasDot(nodes, d) && d > 0
    ensures Lookup(nodes[d].slots, ".") != 0
  {
    var k :| 0 <= k < |nodes[d].slots| && nodes[d].slots[k] == Slot(d, ".");
    if Lookup(nodes[d].slots, ".") == 0 { NoLookup(nodes[d].slots, ".", k); }
  }

  /** Every directory has the same names for the same inodes. */
  ghost predicate SameNames(t0: seq<Node>, t1: seq<Node>) {
    |t1| == |t0| && forall e, s: string {:trigger Lookup(t1[e].slots, s)} ::
      0 <= e < |t0| ==> Lookup(t1[e].slots, s) == Lookup(t0[e].slots, s)
  }

  lemma Undone(t0: seq<Node>, t1: seq<Node>, t2: seq<Node>, t3: seq<Node>, d: nat, name: string, x: nat)
    requires Made(t0, t1, d, name, x, true) && Renamed(t1, t2, d, name, 0) && OnlyIn(t1, t2, d)
    requires (t3 == t2 || t3 == t2[x := NO_NODE]) && t0[x] == NO_NODE
    ensures SameNames(t0, t3)
  {
    forall e, s: string | 0 <= e < |t0| ensures Lookup(t3[e].slots, s) == Lookup(t0[e].slots, s) {
      if e == d {
        assert Lookup(t2[d].slots, s) == if s == name then 0 else Lookup(t1[d].slots, s);
        assert Lookup(t1[d].slots, s) == if s == name then x else Lookup(t0[d].slots, s);
      }
    }
  }

  // ---------- new inodes ----------

  predicate Avail(nodes: seq<Node>, avail: Option<nat>) {
    avail.Some? ==> 0 < avail.value < |nodes| && !nodes[avail.value].used
  }

  /** Inode x is new, with one name in d; nothing else has changed. */
  ghost predicate Made(t0: seq<Node>, t1: seq<Node>, d: nat, name: string, x: nat, dir: bool) {
    true == (
      && d < |t0| == |t1| && x < |t0| && x != d && t1[x] == Node(true, dir, 1, [])
      && Lookup(t0[d].slots, name) == 0 && Renamed(t0, t1, d, name, x) && t1[d] == t0[d].(slots := t1[d].slots)
      && forall e :: 0 <= e < |t0| && e != d && e != x ==> t1[e] == t0[e])
  }

  lemma NodeMade(t0: seq<Node>, t1: seq<Node>, t2: seq<Node>, d: nat, name: string, x: nat, dir: bool)
    requires d < |t0| && x < |t0| && t0[d].used && !t0[x].used && t1 == t0[x := Node(true, dir, 0, [])]
    requires Lookup(t0[d].slots, name) == 0 && Renamed(t1, t2, d, name, x) && OnlyIn(t1, t2, d)
      && CountsBy(t1, t2, x, 1)
    ensures Made(t0, t2, d, name, x, dir)
  {
    forall s: string ensures Lookup(t2[d].slots, s) == if s == name then x else Lookup(t0[d].slots, s) {}
  }

  /** Its only names are "." and "..". */
  ghost predicate DotsOnly(nodes: seq<Node>, x: nat, d: nat) {
    true == (x < |nodes| && forall s: string {:trigger Lookup(nodes[x].slots, s)} ::
      Lookup(nodes[x].slots, s) == if s == "." then x else if s == ".." then d else 0)
  }

  /** Directory x is new, with its two links, and d has one link more. */
  ghost predicate MadeDir(t0: seq<Node>, t1: seq<Node>, d: nat, name: string, x: nat) {
    true == (
      && d < |t0| == |t1| && x < |t0| && x != d && t1[x].used && t1[x].dir && t1[x].nlinks == 2 && DotsOnly(t1, x, d)
      && Lookup(t0[d].slots, name) == 0 && Renamed(t0, t1, d, name, x) && t1[d].nlinks == t0[d].nlinks + 1
      && forall e :: 0 <= e < |t0| && e != d && e != x ==> t1[e].slots == t0[e].slots)
  }

  lemma DirMade(t0: seq<Node>, t1: seq<Node>, t2: seq<Node>, d: nat, name: string, x: nat)
    requires Made(t0, t1, d, name, x, true) && OnlyIn(t1, t2, x) && DotsOnly(t2, x, d) && t2[x].nlinks == 2
      && t2[d].nlinks == t1[d].nlinks + 1
    ensures MadeDir(t0, t2, d, name, x)
  {
    assert t2[d].slots == t1[d].slots;
  }

  // ---------- what an unlink leaves behind ----------

  /** There are entries besides the one with the name. */
  ghost predicate EntriesBut(slots: seq<Slot>, name: string) {
    exists j :: 0 <= j < |slots| && slots[j].ino != 0 && !FirstMatch(slots, name, j)
  }

  lemma NoneBut(slots: seq<Slot>, name: string)
    requires Lookup(slots, name) == 0
    ensures NoEntries(slots) <==> !EntriesBut(slots, name)
  {
    forall j | 0 <= j < |slots| ensures !FirstMatch(slots, name, j) {
      if FirstMatch(slots, name, j) { LookupFirst(slots, name, j); }
    }
  }

  lemma ErasedBut(slots: seq<Slot>, k: nat)
    requires k < |slots| && FirstMatch(slots, slots[k].name, k)
    ensures NoEntries(Erased(slots, k)) <==> !EntriesBut(slots, slots[k].name)
  {
    var u := Erased(slots, k);
    forall j | 0 <= j < |slots| ensures u[j].ino != 0 <==> slots[j].ino != 0 && !FirstMatch(slots, slots[k].name, j) {}
  }

  /** The last link of an inode that nobody uses goes, and the inode is a directory with other entries. */
  ghost predicate Orphans(nodes: seq<Node>, d: nat, name: string, last: bool)
    requires d < |nodes|
  {
    var n := Lookup(nodes[d].slots, name);
    last && 0 < n < |nodes| && nodes[n].nlinks == 1 && if n == d then EntriesBut(nodes[d].slots, name)
      else !NoEntries(nodes[n].slots)
  }

  lemma LeftBehind(t0: seq<Node>, t1: seq<Node>, d: nat, name: string, n: nat, last: bool)
    requires d < |t0| && 0 < n < |t0| && n == Lookup(t0[d].slots, name) && OnlyIn(t0, t1, d) && CountsBy(t0, t1, n, -1)
    requires NoEntries(t1[d].slots) <==> !EntriesBut(t0[d].slots, name)
    ensures last && t1[n].nlinks == 0 && !NoEntries(t1[n].slots) <==> Orphans(t0, d, name, last)
  {
    if n != d { assert t1[n].slots == t0[n].slots; }
  }

  /** A directory with its "." entry is not lost when another name goes. */
  lemma NotOrphaned(nodes: seq<Node>, d: nat, name: string, last: bool)
    requires Good(nodes) && 0 < d < |nodes| && name != "."
    requires var n := Lookup(nodes[d].slots, name); 0 < n < |nodes| ==> DotOk(nodes, n)
    ensures !Orphans(nodes, d, name, last)
  {
    var n := Lookup(nodes[d].slots, name);
    if Orphans(nodes, d, name, last) {
      var k := LookupSome(nodes[d].slots, name);
      assert Enough(nodes, n) && !NoEntries(nodes[n].slots);
      TwoNamings(nodes, d, k, n);
    }
  }

  /** An entry elsewhere and its own "." make two. */
  lemma TwoNamings(nodes: seq<Node>, d: nat, k: nat, n: nat)
    requires d < |nodes| && 0 < n < |nodes| && k < |nodes[d].slots| && nodes[d].slots[k].ino == n
      && nodes[d].slots[k].name != "." && HasDot(nodes, n)
    ensures Total(nodes, n) >= 2
  {
    var u := Erased(nodes[d].slots, k);
    NamingChanged(nodes[d].slots, k, nodes[d].slots[k].(ino := 0), n);
    var t := nodes[d := nodes[d].(slots := u)];
    TotalChanged(nodes, d, nodes[d].(slots := u), n);
    var j :| 0 <= j < |nodes[n].slots| && nodes[n].slots[j] == Slot(n, ".");
    assert t[n].slots[j] == Slot(n, ".");
    NamingSome(t[n].slots, j, n);
    TotalAtLeast(t, n, n);
  }

  /** A directory has its "." entry, if it is one. */
  ghost predicate DirDotted(nodes: seq<Node>, n: nat) {
    n < |nodes| && nodes[n].dir ==> HasDot(nodes, n)
  }

  lemma SameAsBefore(nodes: seq<Node>)
    ensures SameExcess(nodes, nodes)
  {
  }

  /** Only directories d and x may have changed. */
  ghost predicate TwoDirs(t0: seq<Node>, t1: seq<Node>, d: nat, x: nat) {
    true == (|t1| == |t0| && forall e ::
      0 <= e < |t0| ==>
      t1[e].used == t0[e].used && t1[e].dir == t0[e].dir && (e != d && e != x ==> t1[e].slots == t0[e].slots))
  }

  lemma RemovedDir(t0: seq<Node>, t1: seq<Node>, t2: seq<Node>, d: nat, x: nat, name: string)
    requires Renamed(t0, t1, d, name, 0) && OnlyIn(t0, t1, d) && OnlyIn(t1, t2, x) && d != x && x < |t0|
    ensures Renamed(t0, t2, d, name, 0) && TwoDirs(t0, t2, d, x) && t2[d].slots == t1[d].slots
  {
  }

  lemma DottedLess(nodes: seq<Node>, x: nat)
    ensures DottedBut(nodes, 0) ==> DottedBut(nodes, x)
  {
  }

  lemma DottedMore(nodes: seq<Node>, x: nat)
    requires 0 < x < |nodes| ==> DotOk(nodes, x)
    ensures DottedBut(nodes, x) ==> DottedBut(nodes, 0) && Dotted(nodes)
  {
  }

  lemma AllDotted(nodes: seq<Node>)
    ensures DottedBut(nodes, 0) <==> Dotted(nodes)
  {
  }

  /** A directory that held only "." and ".." is empty once they are gone. */
  lemma NothingLeft(s0: seq<Slot>, s1: seq<Slot>)
    requires OnlyDots(s0) && forall nm: string :: nm !in {".", ".."} ==> Lookup(s1, nm) == Lookup(s0, nm)
    requires Lookup(s1, ".") == 0 && Lookup(s1, "..") == 0
    ensures NoEntries(s1)
  {
    forall k | 0 <= k < |s1| ensures s1[k].ino == 0 {
      var nm := s1[k].name;
      if Lookup(s1, nm) != 0 {
        var j := LookupSome(s0, nm);
        assert false;
      }
      NoLookup(s1, nm, k);
    }
  }

  /** alloc_inode */
  lemma AllocGood(nodes: seq<Node>, x: nat, dir: bool)
    requires Good(nodes) && 0 < x < |nodes| && !nodes[x].used
    ensures var t := nodes[x := Node(true, dir, 0, [])];
      Good(t) && SameExcess(nodes, t) && (Dotted(nodes) ==> Dotted(t)) && nodes[x] == NO_NODE
  {
    var t := nodes[x := Node(true, dir, 0, [])];
    assert NodeOk(nodes, x);
    forall e: nat | 0 < e < |t| ensures NodeOk(t, e) && t[e].nlinks - Total(t, e) == nodes[e].nlinks - Total(nodes, e) {
      assert NodeOk(nodes, e);
      TotalChanged(nodes, x, t[x], e);
    }
    ExcessKept(nodes, t);
    if Dotted(nodes) {
      forall e | 0 < e < |t| ensures DotOk(t, e) { assert DotOk(nodes, e); }
    }
  }

  /**
   Both names are proper ones, the directories may be written, a directory does not move below
   itself, and kinds and counts agree.
   */
  predicate CheckOk(nodes: seq<Node>, od: nat, oname: string, nd: nat, nname: string, oldDir: Access, newDir: Access,
                    isSuper: bool)
    requires od < |nodes| && nd < |nodes|
  {
    var n, m := Lookup(nodes[od].slots, oname), Lookup(nodes[nd].slots, nname);
    && 0 < n < |nodes| && m < |nodes| && n != m && oldDir.write && newDir.write && oname !in {".", ".."}
    && nname !in {".", ".."}
    && (nodes[n].dir && od != nd ==> n != nd && !isSuper && (m == 0 ==> nodes[nd].nlinks < LINK_MAX))
    && (m != 0 ==> nodes[m].dir == nodes[n].dir)
  }

  /** What the new name stands for can be removed. */
  predicate TargetOk(nodes: seq<Node>, m: nat, busy: bool) {
    m < |nodes| && (m != 0 && nodes[m].dir ==> m != ROOT_INODE && OnlyDots(nodes[m].slots) && !busy)
  }

  /** The name is new, and there are an inode for it and room for the entry. */
  predicate CanMake(slots: seq<Slot>, name: string, access: Access, space: bool, avail: Option<nat>) {
    access.look && access.write && Lookup(slots, name) == 0 && avail.Some? && (Room(slots) || space)
  }

  /** There is such an inode, it is not the root, and only the superuser unlinks a directory. */
  predicate MayUnlink(nodes: seq<Node>, n: nat, su: bool) {
    0 < n < |nodes| && n != ROOT_INODE && (nodes[n].dir ==> su)
  }

  /** An entry can be made without a new block. */
  predicate Room(slots: seq<Slot>) {
    |slots| % NR_DIR_ENTRIES != 0 || exists k :: 0 <= k < |slots| && slots[k].ino == 0
  }

  /** An empty directory other than the root and its own parent. */
  predicate MayRemove(nodes: seq<Node>, x: nat, d: nat) {
    0 < x < |nodes| && x != ROOT_INODE && x != d && nodes[x].dir && OnlyDots(nodes[x].slots)
  }

  predicate OnlyDots(slots: seq<Slot>) {
    forall k :: 0 <= k < |slots| && slots[k].ino != 0 ==> slots[k].name in {".", ".."}
  }

  lemma DotStays(nodes: seq<Node>, d: nat, k: nat)
    requires d < |nodes| && k < |nodes[d].slots|
    ensures nodes[d].slots[k].name != "." && HasDot(nodes, d) ==>
      exists j :: 0 <= j < |nodes[d].slots| && Erased(nodes[d].slots, k)[j] == Slot(d, ".")
  {
    if nodes[d].slots[k].name != "." && HasDot(nodes, d) {
      var j :| 0 <= j < |nodes[d].slots| && nodes[d].slots[j] == Slot(d, ".");
      assert Erased(nodes[d].slots, k)[j] == Slot(d, ".");
    }
  }

  lemma FreeDotted(nodes: seq<Node>, n: nat)
    requires n < |nodes|
    ensures Dotted(nodes) ==> Dotted(nodes[n := NO_NODE])
  {
    var t := nodes[n := NO_NODE];
    if Dotted(nodes) {
      forall e | 0 < e < |t| ensures DotOk(t, e) { assert DotOk(nodes, e); }
    }
  }
}
