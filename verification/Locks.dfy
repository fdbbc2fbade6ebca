/**
 Advisory record locks: lock_op of lock.c, the release of locks in do_close, and
 the revival of processes that wait for a lock.
 */
module Locks {
  import opened Base

  const NR_LOCKS: nat := 8
  const OFF_T: nat := 0x1_0000_0000            // off_t is an unsigned 32-bit number
  const MAX_FILE_POS: nat := 0xFFFF_FFFF

  datatype Kind = Unused | ReadLock | WriteLock

  /** A slot of file_lock. */
  datatype Lock = Lock(kind: Kind, pid: nat, inode: nat, first: nat, last: nat)

  /** A request to lock a region, as it is compared with the table. */
  datatype Region = Region(pid: nat, inode: nat, kind: Kind, first: nat, last: nat)

  // ---------- the region of a request ----------

  /** The value of an off_t that is taken as a signed number. */
  function Signed(x: nat): int { if x < OFF_T / 2 then x else x - OFF_T }

  /** The region from l_whence (as a position), l_start and l_len. */
  method Bounds(base: nat, start: nat, len: nat) returns (r: Option<(nat, nat)>)
    requires base < OFF_T && start < OFF_T && len < OFF_T
    ensures r.Some? <==> 0 <= base + Signed(start) < OFF_T && base + Signed(start) + len <= OFF_T
    ensures r.Some? ==> r.value.0 == base + Signed(start) && r.value.0 <= r.value.1 < OFF_T
    ensures r.Some? ==> r.value.1 == if len == 0 then MAX_FILE_POS else r.value.0 + len - 1
  {
    if Signed(start) > 0 && (base + start) % OFF_T < base { return None; }
    if Signed(start) < 0 && (base + start) % OFF_T > base { return None; }
    var first := (base + start) % OFF_T;
    var last := (first + len - 1) % OFF_T;
    if len == 0 { last := MAX_FILE_POS; }
    if last < first { return None; }
    r := Some((first, last));
  }

  // ---------- the table ----------

  predicate Overlaps(l: Lock, inode: nat, first: nat, last: nat) {
    l.kind != Unused && l.inode == inode && last >= l.first && first <= l.last
  }

  /** The lock stands in the way of the request. */
  predicate Conflicts(l: Lock, r: Region) {
    Overlaps(l, r.inode, r.first, r.last) && !(r.kind == ReadLock && l.kind == ReadLock) && l.pid != r.pid
  }

  /** The first slot that is not in use. */
  ghost predicate FirstFree(t: seq<Lock>, e: nat) {
    e < |t| && t[e].kind == Unused && forall m :: 0 <= m < e ==> t[m].kind != Unused
  }

  /** The lock that a request asks for. */
  function LockFor(r: Region): Lock { Lock(r.kind, r.pid, r.inode, r.first, r.last) }

  /** The lock has been put in the first free slot. */
  ghost predicate Placed(t: seq<Lock>, u: seq<Lock>, l: Lock) {
    exists e: nat {:trigger t[e := l]} :: FirstFree(t, e) && u == t[e := l]
  }

  function Used(t: seq<Lock>): nat {
    if t == [] then 0 else (if t[0].kind != Unused then 1 else 0) + Used(t[1..])
  }

  lemma {:induction false} UsedChanged(t: seq<Lock>, i: nat, l: Lock)
    requires i < |t|
    ensures Used(t[i := l]) == Used(t) + (if l.kind != Unused then 1 else 0) - (if t[i].kind != Unused then 1 else 0)
  {
    if i > 0 {
      UsedChanged(t[1..], i - 1, l);
      assert t[i := l][1..] == t[1..][i - 1 := l];
    } else {
      assert t[i := l][1..] == t[1..];
    }
  }

  lemma {:induction false} AllUsed(t: seq<Lock>)
    ensures Used(t) <= |t| && (Used(t) == |t| <==> forall i :: 0 <= i < |t| ==> t[i].kind != Unused)
  {
    if t != [] {
      AllUsed(t[1..]);
      assert (forall i :: 0 <= i < |t| ==> t[i].kind != Unused) <==>
        t[0].kind != Unused && forall i :: 0 <= i < |t[1..]| ==> t[1..][i].kind != Unused by {
        forall i | 0 < i < |t| ensures t[i] == t[1..][i - 1] {}
      }
    }
  }

  /** Locks of different processes overlap only if both are read locks. */
  ghost predicate Compatible(a: Lock, b: Lock) {
    Overlaps(a, b.inode, b.first, b.last) && b.kind != Unused && a.pid != b.pid ==>
      a.kind == ReadLock && b.kind == ReadLock
  }

  ghost predicate ConflictFree(t: seq<Lock>) {
    forall i, j :: 0 <= i < |t| && 0 <= j < |t| ==> Compatible(t[i], t[j])
  }

  ghost predicate Shaped(t: seq<Lock>) {
    |t| == NR_LOCKS && forall i :: 0 <= i < |t| && t[i].kind != Unused ==> t[i].first <= t[i].last < OFF_T
  }

  /** The byte is locked by the process in the given way. */
  ghost predicate Covers(t: seq<Lock>, inode: nat, pid: nat, kind: Kind, b: nat) {
    kind != Unused && exists i :: 0 <= i < |t| && LockHas(t[i], inode, pid, kind, b)
  }

  predicate LockHas(l: Lock, inode: nat, pid: nat, kind: Kind, b: nat) {
    l.kind == kind && l.inode == inode && l.pid == pid && l.first <= b <= l.last
  }

  /** The lock is part of another one: same holder and kind, and no byte more. */
  ghost predicate Within(a: Lock, b: Lock) {
    a.kind != Unused ==>
      a.kind == b.kind && a.pid == b.pid && a.inode == b.inode && b.first <= a.first && a.last <= b.last
  }

  // ---------- unlocking ----------

  predicate Inside(inode: nat, first: nat, last: nat, ino: nat, b: nat) {
    ino == inode && first <= b <= last
  }

  /** Bytes outside the region are locked as before. */
  ghost predicate SameOutside(t: seq<Lock>, u: seq<Lock>, inode: nat, first: nat, last: nat) {
    forall ino: nat, pid: nat, kind: Kind, b: nat {:trigger Covers(u, ino, pid, kind, b)} ::
      !Inside(inode, first, last, ino, b) ==> (Covers(u, ino, pid, kind, b) <==> Covers(t, ino, pid, kind, b))
  }

  /** Every lock is part of one that was there before. */
  ghost predicate AllWithin(t: seq<Lock>, u: seq<Lock>) {
    |u| == |t| && forall i {:trigger PartOf(t, u[i])} :: 0 <= i < |u| ==> PartOf(t, u[i])
  }

  ghost predicate PartOf(t: seq<Lock>, a: Lock) {
    exists j :: 0 <= j < |t| && Within(a, t[j])
  }

  lemma PartOfTwice(t: seq<Lock>, u: seq<Lock>, a: Lock)
    requires AllWithin(t, u) && PartOf(u, a)
    ensures PartOf(t, a)
  {
    var j :| 0 <= j < |u| && Within(a, u[j]);
    assert PartOf(t, u[j]);
    if a.kind != Unused {
      var m :| 0 <= m < |t| && Within(u[j], t[m]);
      assert Within(a, t[m]);
    } else {
      assert PartOf(t, u[j]);
    }
  }

  /** What is locked is locked by one slot. */
  lemma CoveredBy(t: seq<Lock>, i: nat, ino: nat, pid: nat, kind: Kind, b: nat)
    requires i < |t| && kind != Unused && LockHas(t[i], ino, pid, kind, b)
    ensures Covers(t, ino, pid, kind, b)
  {
  }

  /** One slot has been cut back, and what it lost outside the region may have moved to a slot that was free. */
  ghost predicate CutBack(t: seq<Lock>, u: seq<Lock>, i: nat, j: nat, inode: nat, first: nat, last: nat) {
    && i < |t| == |u| && j < |t| && Overlaps(t[i], inode, first, last) && (j == i || t[j].kind == Unused)
    && (forall m :: 0 <= m < |t| && m != i && m != j ==> u[m] == t[m])
    && Within(u[i], t[i]) && Within(u[j], t[i])
    && (forall b: nat :: t[i].first <= b <= t[i].last && !(first <= b <= last) ==> Keeps(u[i], b) || Keeps(u[j], b))
  }

  predicate Keeps(l: Lock, b: nat) { l.kind != Unused && l.first <= b <= l.last }

  lemma CutBackCovers(t: seq<Lock>, u: seq<Lock>, i: nat, j: nat, inode: nat, first: nat, last: nat, ino: nat,
                      pid: nat, kind: Kind, b: nat)
    requires CutBack(t, u, i, j, inode, first, last) && !Inside(inode, first, last, ino, b)
    ensures Covers(u, ino, pid, kind, b) <==> Covers(t, ino, pid, kind, b)
  {
    if Covers(u, ino, pid, kind, b) {
      var m :| 0 <= m < |u| && LockHas(u[m], ino, pid, kind, b);
      CoveredBy(t, if m == j then i else m, ino, pid, kind, b);
    }
    if Covers(t, ino, pid, kind, b) {
      var m :| 0 <= m < |t| && LockHas(t[m], ino, pid, kind, b);
      if m == i {
        CoveredBy(u, if Keeps(u[i], b) then i else j, ino, pid, kind, b);
      } else {
        CoveredBy(u, m, ino, pid, kind, b);
      }
    }
  }

  lemma CutStep(t0: seq<Lock>, t: seq<Lock>, u: seq<Lock>, i: nat, j: nat, inode: nat, first: nat, last: nat)
    requires SameOutside(t0, t, inode, first, last) && AllWithin(t0, t) && CutBack(t, u, i, j, inode, first, last)
    ensures SameOutside(t0, u, inode, first, last) && AllWithin(t0, u)
  {
    forall ino: nat, pid: nat, kind: Kind, b: nat | !Inside(inode, first, last, ino, b)
      ensures Covers(u, ino, pid, kind, b) <==> Covers(t0, ino, pid, kind, b)
    {
      CutBackCovers(t, u, i, j, inode, first, last, ino, pid, kind, b);
    }
    forall m | 0 <= m < |u| ensures PartOf(t0, u[m]) {
      assert Within(u[m], t[if m == j then i else m]);
      PartOfTwice(t0, t, u[m]);
    }
  }

  /** The first i slots are clear of the region, and nothing outside it has been lost. */
  ghost predicate Unlocking(t0: seq<Lock>, t: seq<Lock>, inode: nat, first: nat, last: nat, i: nat) {
    // "true ==" makes this one fact to prove, not one for each part.
    true == (SameOutside(t0, t, inode, first, last) && AllWithin(t0, t) && forall m ::
      0 <= m < i && m < |t| ==> !Overlaps(t[m], inode, first, last))
  }

  lemma NextSlot(t0: seq<Lock>, t: seq<Lock>, inode: nat, first: nat, last: nat, i: nat)
    requires Unlocking(t0, t, inode, first, last, i) && i < |t| && !Overlaps(t[i], inode, first, last)
    ensures Unlocking(t0, t, inode, first, last, i + 1)
  {
  }

  lemma CutNextOk(t0: seq<Lock>, t: seq<Lock>, u: seq<Lock>, i: nat, j: nat, inode: nat, first: nat, last: nat)
    requires Unlocking(t0, t, inode, first, last, i) && CutBack(t, u, i, j, inode, first, last)
      && SameOutside(t0, u, inode, first, last) && AllWithin(t0, u)
    requires !Overlaps(u[i], inode, first, last) && !Overlaps(u[j], inode, first, last)
    ensures Unlocking(t0, u, inode, first, last, i + 1)
  {
  }

  /** Nothing that is left overlaps the region: exactly the bytes of the region have been unlocked, for every holder. */
  ghost predicate Unlocked(t0: seq<Lock>, t: seq<Lock>, inode: nat, first: nat, last: nat) {
    forall ino: nat, pid: nat, kind: Kind, b: nat {:trigger Covers(t, ino, pid, kind, b)} ::
      Covers(t, ino, pid, kind, b) <==> Covers(t0, ino, pid, kind, b) && !Inside(inode, first, last, ino, b)
  }

  lemma UnlockedAtEnd(t0: seq<Lock>, t: seq<Lock>, inode: nat, first: nat, last: nat)
    requires SameOutside(t0, t, inode, first, last) && forall i :: 0 <= i < |t| ==> !Overlaps(t[i], inode, first, last)
    ensures Unlocked(t0, t, inode, first, last)
  {
  }

  /** A process that waits for a lock is still in the way of nobody's progress: some lock conflicts with its request. */
  ghost predicate Blocked(t: seq<Lock>, r: Region) {
    exists i :: 0 <= i < |t| && Conflicts(t[i], r)
  }

  // ---------- the whole of an unlock, lock by lock ----------

  /** The lock reaches beyond the region on both sides. */
  predicate Splits(l: Lock, inode: nat, first: nat, last: nat) {
    Overlaps(l, inode, first, last) && l.first < first && last < l.last
  }

  /** What a lock leaves when the region is unlocked. */
  function Pieces(l: Lock, inode: nat, first: nat, last: nat): seq<Lock> {
    if !Overlaps(l, inode, first, last) then [l]
    else
      (if l.first < first then [l.(last := first - 1)] else [])
      + (if last < l.last then [l.(first := last + 1)] else [])
  }

  /** How many slots that takes more. */
  function Extra(l: Lock, inode: nat, first: nat, last: nat): int {
    if !Overlaps(l, inode, first, last) then 0
      else (if l.first < first then 1 else 0) + (if last < l.last then 1 else 0) - 1
  }

  /** With n slots in use, the locks run into one that must be split when every slot is in use. */
  predicate Overflow(t: seq<Lock>, n: int, inode: nat, first: nat, last: nat) {
    t != [] && ((Splits(t[0], inode, first, last) && n == NR_LOCKS)
      || Overflow(t[1..], n + Extra(t[0], inode, first, last), inode, first, last))
  }

  /** What is left of the locks; those from that one on are left alone. */
  function Remains(t: seq<Lock>, n: int, inode: nat, first: nat, last: nat): seq<Lock> {
    if t == [] || (Splits(t[0], inode, first, last) && n == NR_LOCKS) then t
    else Pieces(t[0], inode, first, last) + Remains(t[1..], n + Extra(t[0], inode, first, last), inode, first, last)
  }

  /** How many slots hold the lock. */
  ghost function Count(t: seq<Lock>, l: Lock): nat {
    if t == [] then 0 else Is(t[0], l) + Count(t[1..], l)
  }

  ghost function Is(k: Lock, l: Lock): nat {
    if k == l then 1 else 0
  }

  /** The same locks, wherever they stand. */
  ghost predicate SameLocks(t: seq<Lock>, u: seq<Lock>) {
    true == forall l: Lock {:trigger Count(u, l)} :: l.kind != Unused ==> Count(t, l) == Count(u, l)
  }

  lemma {:induction false} CountChanged(t: seq<Lock>, i: nat, k: Lock, l: Lock)
    requires i < |t|
    ensures Count(t[i := k], l) == Count(t, l) - Is(t[i], l) + Is(k, l)
  {
    if i > 0 {
      CountChanged(t[1..], i - 1, k, l);
      assert t[i := k][1..] == t[1..][i - 1 := k];
    } else {
      assert t[i := k][1..] == t[1..];
    }
  }

  lemma {:induction false} CountTwo(a: seq<Lock>, b: seq<Lock>, l: Lock)
    ensures Count(a + b, l) == Count(a, l) + Count(b, l)
  {
    if a == [] {
      assert a + b == b;
    } else {
      CountTwo(a[1..], b, l);
      assert (a + b)[1..] == a[1..] + b;
    }
  }

  lemma {:induction false} CountIn(t: seq<Lock>, l: Lock)
    ensures Count(t, l) > 0 <==> l in t
  {
    if t != [] { CountIn(t[1..], l); }
  }

  /** Whether a request is blocked depends on the locks alone. */
  lemma SameBlocked(t: seq<Lock>, u: seq<Lock>, r: Region)
    requires SameLocks(t, u) && Blocked(t, r)
    ensures Blocked(u, r)
  {
    var i :| 0 <= i < |t| && Conflicts(t[i], r);
    CountIn(t, t[i]);
    CountIn(u, t[i]);
    var j :| 0 <= j < |u| && u[j] == t[i];
  }

  /** A slot that the loop has yet to visit is as it was, or holds a piece that was split off. */
  predicate Unvisited(l: Lock, k: Lock, inode: nat, first: nat, last: nat) {
    k == l || (l.kind == Unused && !Overlaps(k, inode, first, last))
  }

  /** i slots of t0 have been visited; they have left `done`. */
  ghost predicate Visited(t0: seq<Lock>, n0: int, t: seq<Lock>, n: int, done: seq<Lock>, i: nat, inode: nat,
                          first: nat, last: nat) {
    true == (
      && i <= |t0| == |t| && (forall l: Lock {:trigger Count(t, l)} ::
        l.kind != Unused ==> Count(t, l) == Count(done, l) + Count(t0[i..], l))
      && Remains(t0, n0, inode, first, last) == done + Remains(t0[i..], n, inode, first, last)
      && (Overflow(t0, n0, inode, first, last) <==> Overflow(t0[i..], n, inode, first, last))
      && forall m :: i <= m < |t| ==> Unvisited(t0[m], t[m], inode, first, last))
  }

  /** What the loop has done, whether it came to its end or ran out of slots. */
  ghost predicate AllCut(t0: seq<Lock>, n0: int, t: seq<Lock>, ok: bool, inode: nat, first: nat, last: nat) {
    true == (
      && (ok <==> !Overflow(t0, n0, inode, first, last)) && SameLocks(t, Remains(t0, n0, inode, first, last))
      && Unlocking(t0, t, inode, first, last, if ok then NR_LOCKS else 0))
  }

  lemma VisitNone(t0: seq<Lock>, n0: int, inode: nat, first: nat, last: nat)
    ensures Unlocking(t0, t0, inode, first, last, 0) && Visited(t0, n0, t0, n0, [], 0, inode, first, last)
  {
    assert t0[0..] == t0;
    StartUnlock(t0, inode, first, last);
  }

  /** The effect of one cut on the locks. */
  ghost predicate CutCounts(t: seq<Lock>, u: seq<Lock>, i: nat, inode: nat, first: nat, last: nat) {
    true == (
      && i < |t| == |u|
      && (forall l: Lock {:trigger Count(u, l)} ::
        l.kind != Unused ==> Count(u, l) == Count(t, l) - Is(t[i], l) + Count(Pieces(t[i], inode, first, last), l))
      && forall m :: i < m < |t| ==> Unvisited(t[m], u[m], inode, first, last))
  }

  lemma Visit(t0: seq<Lock>, n0: int, t: seq<Lock>, n: int, u: seq<Lock>, done: seq<Lock>, i: nat, inode: nat,
              first: nat, last: nat)
    requires Visited(t0, n0, t, n, done, i, inode, first, last) && i < |t|
    requires if Overlaps(t[i], inode, first, last)
      then CutCounts(t, u, i, inode, first, last) && !(Splits(t[i], inode, first, last) && n == NR_LOCKS) else u == t
    ensures Visited(t0, n0, u, n + Extra(t[i], inode, first, last), done + Pieces(t0[i], inode, first, last), i + 1,
      inode, first, last)
  {
    var p := Pieces(t0[i], inode, first, last);
    VisitRest(t0, n, i, done, inode, first, last);
    assert Unvisited(t0[i], t[i], inode, first, last);
    forall l: Lock | l.kind != Unused ensures Count(u, l) == Count(done + p, l) + Count(t0[i + 1..], l) {
      CountTwo(done, p, l);
      CountFirst(t0, i, l);
      if !Overlaps(t[i], inode, first, last) { CountOne(t0[i], l); }
    }
  }

  lemma CountOne(k: Lock, l: Lock)
    ensures Count([k], l) == Is(k, l)
  {
    assert [k][1..] == [];
  }

  lemma CountFirst(t: seq<Lock>, i: nat, l: Lock)
    requires i < |t|
    ensures Count(t[i..], l) == Is(t[i], l) + Count(t[i + 1..], l)
  {
    assert t[i..][1..] == t[i + 1..];
  }

  /** The rest of the table, without its first slot. */
  lemma VisitRest(t0: seq<Lock>, n: int, i: nat, done: seq<Lock>, inode: nat, first: nat, last: nat)
    requires i < |t0| && (Splits(t0[i], inode, first, last) ==> n != NR_LOCKS)
    ensures var p, m, rest := Pieces(t0[i], inode, first, last), n + Extra(t0[i], inode, first, last), t0[i + 1..];
      && done + Remains(t0[i..], n, inode, first, last) == done + p + Remains(rest, m, inode, first, last)
      && (Overflow(t0[i..], n, inode, first, last) <==> Overflow(rest, m, inode, first, last))
  {
    assert t0[i..][1..] == t0[i + 1..] && t0[i..][0] == t0[i];
  }

  /** The loop stops at a lock that it cannot split. */
  lemma StopVisit(t0: seq<Lock>, n0: int, t: seq<Lock>, n: int, done: seq<Lock>, i: nat, inode: nat, first: nat,
                  last: nat)
    requires Unlocking(t0, t, inode, first, last, i) && Visited(t0, n0, t, n, done, i, inode, first, last) && i < |t|
      && Splits(t[i], inode, first, last) && n == NR_LOCKS
    ensures AllCut(t0, n0, t, false, inode, first, last)
  {
    assert Unvisited(t0[i], t[i], inode, first, last);
    assert t0[i..][0] == t0[i] && Remains(t0, n0, inode, first, last) == done + t0[i..];
    forall l: Lock | l.kind != Unused ensures Count(t, l) == Count(done + t0[i..], l) { CountTwo(done, t0[i..], l); }
  }

  lemma EndVisit(t0: seq<Lock>, n0: int, t: seq<Lock>, n: int, done: seq<Lock>, inode: nat, first: nat, last: nat)
    requires Unlocking(t0, t, inode, first, last, |t0|) && Visited(t0, n0, t, n, done, |t0|, inode, first, last)
      && |t0| == NR_LOCKS
    ensures AllCut(t0, n0, t, true, inode, first, last)
  {
    assert t0[|t0|..] == [] && Remains(t0, n0, inode, first, last) == done;
  }

  /** A slot after its process has closed the file. */
  function GivenUp(l: Lock, inode: nat, pid: nat): Lock {
    if l.kind != Unused && l.inode == inode && l.pid == pid then l.(kind := Unused) else l
  }

  datatype Outcome = Granted | Again | Waits | NoLocks

  class LockTable {
    const table: array<Lock>
    var nrLocks: int
    var waiting: seq<Region>      // the requests of processes suspended in F_SETLKW and not yet revived

    constructor ()
      ensures Valid() && fresh(table) && nrLocks == 0 && waiting == []
      ensures forall i :: 0 <= i < NR_LOCKS ==> table[i].kind == Unused
    {
      table := new Lock[NR_LOCKS](_ => Lock(Unused, 0, 0, 0, 0));
      nrLocks, waiting := 0, [];
      new;
      NoneUsed(table[..]);
    }

    /** nr_locks counts the slots in use, and no two of the locks conflict. */
    ghost predicate Valid()
      reads this, table
    {
      Shaped(table[..]) && nrLocks == Used(table[..]) && ConflictFree(table[..]) == true
    }

    ghost predicate NoLostWakeups()
      reads this, table
    {
      forall k :: 0 <= k < |waiting| ==> Blocked(table[..], waiting[k])
    }

    /** The search for a free slot when a lock is split. */
    method FreeSlot() returns (j: nat)
      requires table.Length == NR_LOCKS && nrLocks == Used(table[..]) && nrLocks != NR_LOCKS
      ensures j < NR_LOCKS && table[j].kind == Unused
    {
      AllUsed(table[..]);
      j := 0;
      while j < NR_LOCKS && table[j].kind != Unused
        invariant j <= NR_LOCKS && forall m :: 0 <= m < j ==> table[m].kind != Unused
      {
        j := j + 1;
      }
    }

    /** Cutting one lock that overlaps the region; fails only when it must be split and every slot is in use. */
    method Cut(i: nat, inode: nat, first: nat, last: nat) returns (ok: bool, ghost j: nat)
      requires Shaped(table[..]) && nrLocks == Used(table[..]) && i < NR_LOCKS
        && Overlaps(table[i], inode, first, last) && first <= last < OFF_T
      modifies table, this`nrLocks
      ensures Shaped(table[..]) && nrLocks == Used(table[..])
      ensures ok <==> !(Splits(old(table[i]), inode, first, last) && old(nrLocks) == NR_LOCKS)
      ensures !ok ==> table[..] == old(table[..]) && nrLocks == NR_LOCKS
      ensures ok ==>
        CutBack(old(table[..]), table[..], i, j, inode, first, last) && !Overlaps(table[i], inode, first, last)
      ensures ok ==> !Overlaps(table[j], inode, first, last)
      ensures ok ==>
        CutCounts(old(table[..]), table[..], i, inode, first, last)
        && nrLocks == old(nrLocks) + Extra(old(table[i]), inode, first, last)
    {
      ok, j := true, i;
      ghost var t := table[..];
      var l := table[i];
      if first <= l.first && last >= l.last {
        table[i] := l.(kind := Unused);
        OneCut(t, i, table[i], inode, first, last);
        nrLocks := nrLocks - 1;
      } else if first <= l.first {
        table[i] := l.(first := last + 1);
        OneCut(t, i, table[i], inode, first, last);
      } else if last >= l.last {
        table[i] := l.(last := first - 1);
        OneCut(t, i, table[i], inode, first, last);
      } else {
        if nrLocks == NR_LOCKS { return false, i; }
        var k := FreeSlot();
        j := k;
        SplitAt(i, k, inode, first, last);
      }
    }

    method CutNext(ghost t0: seq<Lock>, i: nat, inode: nat, first: nat, last: nat) returns (ok: bool)
      requires Shaped(table[..]) && nrLocks == Used(table[..]) && i < NR_LOCKS
        && Overlaps(table[i], inode, first, last) && first <= last < OFF_T
      requires Unlocking(t0, table[..], inode, first, last, i)
      modifies table, this`nrLocks
      ensures Shaped(table[..]) && nrLocks == Used(table[..])
      ensures ok <==> !(Splits(old(table[i]), inode, first, last) && old(nrLocks) == NR_LOCKS)
      ensures ok ==> Unlocking(t0, table[..], inode, first, last, i + 1)
      ensures ok ==>
        CutCounts(old(table[..]), table[..], i, inode, first, last)
        && nrLocks == old(nrLocks) + Extra(old(table[i]), inode, first, last)
      ensures !ok ==> table[..] == old(table[..]) && nrLocks == NR_LOCKS
    {
      ghost var t := table[..];
      ghost var j;
      ok, j := Cut(i, inode, first, last);
      if ok {
        CutStep(t0, t, table[..], i, j, inode, first, last);
        CutNextOk(t0, t, table[..], i, j, inode, first, last);
      }
    }

    /** lock_op for F_UNLCK: on success exactly the bytes of the region have been unlocked, whoever held them. */
    method Unlock(inode: nat, first: nat, last: nat) returns (o: Outcome)
      requires Valid() && first <= last < OFF_T
      modifies table, this`nrLocks, this`waiting
      ensures Valid() && o in {Granted, NoLocks}
      ensures o == NoLocks <==> Overflow(old(table[..]), old(nrLocks), inode, first, last)
      ensures SameLocks(table[..], Remains(old(table[..]), old(nrLocks), inode, first, last))
      ensures o == Granted ==> Unlocked(old(table[..]), table[..], inode, first, last)
      ensures o == Granted && old(NoLostWakeups()) ==> NoLostWakeups()
      ensures SameOutside(old(table[..]), table[..], inode, first, last) && AllWithin(old(table[..]), table[..])
      ensures o == NoLocks ==> nrLocks == NR_LOCKS && waiting == old(waiting)
      ensures o == NoLocks ==> (NoLostWakeups() <==>
        forall k ::
          0 <= k < |waiting| ==> Blocked(Remains(old(table[..]), old(nrLocks), inode, first, last), waiting[k]))
    {
      ghost var t0, n0 := table[..], nrLocks;
      var ok, unlocking := CutAll(inode, first, last);
      StillConflictFree(t0, table[..]);
      if !ok {
        StillWaiting(table[..], Remains(t0, n0, inode, first, last), waiting);
        return NoLocks;
      }
      UnlockedAtEnd(t0, table[..], inode, first, last);
      if unlocking { waiting := []; }     // lock_revive
      o := Granted;
    }

    /** One round of the loop of lock_op when unlocking. */
    method CutRound(ghost t0: seq<Lock>, ghost n0: int, ghost done: seq<Lock>, i: nat, inode: nat, first: nat,
                    last: nat)
      returns (ok: bool, cut: bool, ghost more: seq<Lock>)
      requires Shaped(table[..]) && nrLocks == Used(table[..]) && i < NR_LOCKS == |t0| && first <= last < OFF_T
      requires Unlocking(t0, table[..], inode, first, last, i)
      requires Visited(t0, n0, table[..], nrLocks, done, i, inode, first, last)
      modifies table, this`nrLocks
      ensures Shaped(table[..]) && nrLocks == Used(table[..]) && (!cut ==> table[..] == old(table[..]))
      ensures ok ==> Unlocking(t0, table[..], inode, first, last, i + 1)
      ensures ok ==> Visited(t0, n0, table[..], nrLocks, more, i + 1, inode, first, last)
      ensures !ok ==> nrLocks == NR_LOCKS && AllCut(t0, n0, table[..], false, inode, first, last)
    {
      ghost var t, n := table[..], nrLocks;
      more := done + Pieces(t0[i], inode, first, last);
      cut, ok := Overlaps(table[i], inode, first, last), true;
      if cut {
        ok := CutNext(t0, i, inode, first, last);
      } else {
        NextSlot(t0, table[..], inode, first, last, i);
      }
      if ok {
        Visit(t0, n0, t, n, table[..], done, i, inode, first, last);
      } else {
        StopVisit(t0, n0, table[..], nrLocks, done, i, inode, first, last);
      }
    }

    /** The loop of lock_op when unlocking. */
    method CutAll(inode: nat, first: nat, last: nat) returns (ok: bool, unlocking: bool)
      requires Shaped(table[..]) && nrLocks == Used(table[..]) && first <= last < OFF_T
      modifies table, this`nrLocks
      ensures Shaped(table[..]) && nrLocks == Used(table[..])
      ensures AllCut(old(table[..]), old(nrLocks), table[..], ok, inode, first, last)
      ensures !unlocking ==> table[..] == old(table[..])
      ensures !ok ==> nrLocks == NR_LOCKS
    {
      ghost var t0, n0, done := table[..], nrLocks, [];
      var i := 0;
      unlocking, ok := false, true;
      VisitNone(t0, n0, inode, first, last);
      while i < NR_LOCKS
        invariant 0 <= i <= NR_LOCKS && Shaped(table[..]) && nrLocks == Used(table[..])
        invariant Unlocking(t0, table[..], inode, first, last, i)
        invariant Visited(t0, n0, table[..], nrLocks, done, i, inode, first, last)
        invariant !unlocking ==> table[..] == t0
      {
        var cut;
        ok, cut, done := CutRound(t0, n0, done, i, inode, first, last);
        unlocking := unlocking || cut;
        if !ok { return; }
        i := i + 1;
      }
      EndVisit(t0, n0, table[..], nrLocks, done, inode, first, last);
    }

    /** The search of lock_op for a lock in the way of a request, and for a free slot before it. */
    method Search(r: Region) returns (conflict: Option<nat>, empty: Option<nat>)
      requires table.Length == NR_LOCKS
      ensures conflict.Some? ==> conflict.value < NR_LOCKS && Conflicts(table[conflict.value], r)
      ensures conflict == None <==> !Blocked(table[..], r)
      ensures conflict == None ==> (empty == None <==> forall i :: 0 <= i < NR_LOCKS ==> table[i].kind != Unused)
      ensures empty.Some? ==> FirstFree(table[..], empty.value)
      ensures forall i :: 0 <= i < (if conflict.Some? then conflict.value else NR_LOCKS) ==> !Conflicts(table[i], r)
    {
      empty := None;
      var i := 0;
      while i < NR_LOCKS
        invariant 0 <= i <= NR_LOCKS && forall m :: 0 <= m < i ==> !Conflicts(table[m], r)
        invariant empty == None <==> forall m :: 0 <= m < i ==> table[m].kind != Unused
        invariant empty.Some? ==> empty.value < i && FirstFree(table[..], empty.value)
      {
        if table[i].kind == Unused {
          if empty == None { empty := Some(i); }
        } else if Conflicts(table[i], r) {
          assert Conflicts(table[..][i], r);
          return Some(i), empty;
        }
        i := i + 1;
      }
      conflict := None;
    }

    /** lock_op for F_GETLK: the first lock in the way, if there is one. */
    method GetLock(r: Region) returns (found: Option<Lock>)
      requires Valid()
      ensures found == None <==> !Blocked(table[..], r)
      ensures found.Some? ==> Conflicts(found.value, r) && found.value in table[..]
    {
      var conflict, empty := Search(r);
      found := if conflict == None then None else Some(table[conflict.value]);
    }

    /** lock_op for F_SETLK and F_SETLKW with a read or write lock. */
    method SetLock(r: Region, wait: bool) returns (o: Outcome)
      requires Valid() && r.kind != Unused && r.first <= r.last < OFF_T
      modifies table, this`nrLocks, this`waiting
      ensures Valid() && (old(NoLostWakeups()) ==> NoLostWakeups())
      ensures o == Granted <==> !Blocked(old(table[..]), r) && old(nrLocks) < NR_LOCKS
      ensures o == NoLocks <==> !Blocked(old(table[..]), r) && old(nrLocks) == NR_LOCKS
      ensures Blocked(old(table[..]), r) ==> o == if wait then Waits else Again
      ensures waiting == if o == Waits then old(waiting) + [r] else old(waiting)
      ensures o != Granted ==> table[..] == old(table[..]) && nrLocks == old(nrLocks)
      ensures o == Granted ==>
        forall ino: nat, pid: nat, kind: Kind, b: nat {:trigger Covers(table[..], ino, pid, kind, b)} ::
        Covers(table[..], ino, pid, kind, b) <==>
        Covers(old(table[..]), ino, pid, kind, b)
          || (ino == r.inode && pid == r.pid && kind == r.kind && r.first <= b <= r.last)
      ensures o == Granted ==> Placed(old(table[..]), table[..], LockFor(r)) && nrLocks == old(nrLocks) + 1
    {
      AllUsed(table[..]);
      var conflict, empty := Search(r);
      if conflict.Some? {
        if !wait { return Again; }
        waiting := waiting + [r];
        return Waits;
      }
      if empty == None {
        assert forall i :: 0 <= i < |table[..]| ==> table[..][i].kind != Unused;
        return NoLocks;
      }
      o := Granted;
      Enter(empty.value, r);
    }

    method Enter(e: nat, r: Region)
      requires Valid() && r.kind != Unused && r.first <= r.last < OFF_T && FirstFree(table[..], e)
      requires forall i :: 0 <= i < NR_LOCKS ==> !Conflicts(table[i], r)
      modifies table, this`nrLocks
      ensures Valid() && nrLocks == old(nrLocks) + 1 && (old(NoLostWakeups()) ==> NoLostWakeups())
      ensures Placed(old(table[..]), table[..], LockFor(r))
      ensures forall ino: nat, pid: nat, kind: Kind, b: nat {:trigger Covers(table[..], ino, pid, kind, b)} ::
        Covers(table[..], ino, pid, kind, b) <==>
        Covers(old(table[..]), ino, pid, kind, b)
          || (ino == r.inode && pid == r.pid && kind == r.kind && r.first <= b <= r.last)
    {
      ghost var t := table[..];
      var l := LockFor(r);
      AddedConflictFree(t, e, r);
      AddedCovers(t, e, r);
      UsedChanged(t, e, l);
      table[e] := l;
      nrLocks := nrLocks + 1;
      assert table[..] == t[e := l];
      if forall k :: 0 <= k < |waiting| ==> Blocked(t, waiting[k]) { BlockedStays(t, table[..], waiting); }
    }

    /** The end of do_close: the process gives up all its locks on the inode, and those who wait are revived. */
    method ReleaseAll(inode: nat, pid: nat)
      requires Valid()
      modifies table, this`nrLocks, this`waiting
      ensures Valid() && (old(NoLostWakeups()) ==> NoLostWakeups())
      ensures forall i :: 0 <= i < NR_LOCKS ==> table[i] == GivenUp(old(table[i]), inode, pid)
    {
      if nrLocks == 0 {
        AllFree(table[..]);
      } else {
        ReleaseSome(inode, pid);
      }
    }

    method ReleaseSome(inode: nat, pid: nat)
      requires Valid()
      modifies table, this`nrLocks, this`waiting
      ensures Valid() && (waiting == [] || (waiting == old(waiting) && table[..] == old(table[..])))
      ensures forall i :: 0 <= i < NR_LOCKS ==> table[i] == GivenUp(old(table[i]), inode, pid)
    {
      ghost var t0 := table[..];
      var lockCount := nrLocks;
      GiveUp(inode, pid);
      AllWithinGivenUp(t0, table[..], inode, pid);
      StillConflictFree(t0, table[..]);
      if nrLocks < lockCount { waiting := []; }     // lock_revive
    }

    /** The loop at the end of do_close. */
    method GiveUp(inode: nat, pid: nat)
      requires Shaped(table[..]) && nrLocks == Used(table[..])
      modifies table, this`nrLocks
      ensures Shaped(table[..]) && nrLocks == Used(table[..]) <= old(nrLocks)
      ensures forall i :: 0 <= i < NR_LOCKS ==> table[i] == GivenUp(old(table[i]), inode, pid)
      ensures nrLocks == old(nrLocks) ==> table[..] == old(table[..])
    {
      ghost var t0, lockCount := table[..], nrLocks;
      var i := 0;
      while i < NR_LOCKS
        invariant 0 <= i <= NR_LOCKS && Shaped(table[..]) && nrLocks == Used(table[..]) <= lockCount
        invariant forall m :: 0 <= m < NR_LOCKS ==> table[m] == if m < i then GivenUp(t0[m], inode, pid) else t0[m]
        invariant nrLocks == lockCount ==> table[..] == t0
      {
        if table[i].kind != Unused && table[i].inode == inode && table[i].pid == pid {
          UsedChanged(table[..], i, table[i].(kind := Unused));
          table[i] := table[i].(kind := Unused);
          nrLocks := nrLocks - 1;
        }
        i := i + 1;
      }
    }

    /** A lock is split in two by unlocking the middle. */
    method SplitAt(i: nat, k: nat, ghost inode: nat, first: nat, last: nat)
      requires Shaped(table[..]) && nrLocks == Used(table[..]) && i < NR_LOCKS && k < NR_LOCKS
        && table[k].kind == Unused
      requires Splits(table[i], inode, first, last) && first <= last < OFF_T
      modifies table, this`nrLocks
      ensures Shaped(table[..]) && nrLocks == Used(table[..]) == old(nrLocks) + 1
        && CutCounts(old(table[..]), table[..], i, inode, first, last)
      ensures table[..] == old(table[..])[k := old(table[i]).(first := last + 1)][i :=
        old(table[i]).(last := first - 1)]
    {
      ghost var t := table[..];
      UsedChanged(t, k, table[i].(first := last + 1));
      table[k] := table[i].(first := last + 1);
      UsedChanged(table[..], i, table[i].(last := first - 1));
      table[i] := table[i].(last := first - 1);
      nrLocks := nrLocks + 1;
      TwoCut(t, i, k, inode, first, last);
    }
  }

  lemma OneCut(t: seq<Lock>, i: nat, k: Lock, inode: nat, first: nat, last: nat)
    requires i < |t| && Overlaps(t[i], inode, first, last) && !Splits(t[i], inode, first, last)
    requires Pieces(t[i], inode, first, last) == if k.kind == Unused then [] else [k]
    ensures CutCounts(t, t[i := k], i, inode, first, last)
    ensures Used(t[i := k]) == Used(t) + Extra(t[i], inode, first, last)
  {
    UsedChanged(t, i, k);
    forall l: Lock | l.kind != Unused
      ensures Count(t[i := k], l) == Count(t, l) - Is(t[i], l) + Count(Pieces(t[i], inode, first, last), l)
    {
      CountChanged(t, i, k, l);
      CountOne(k, l);
    }
  }

  lemma TwoCut(t: seq<Lock>, i: nat, k: nat, inode: nat, first: nat, last: nat)
    requires i < |t| && k < |t| && Splits(t[i], inode, first, last) && t[k].kind == Unused && first <= last
    ensures CutCounts(t, t[k := t[i].(first := last + 1)][i := t[i].(last := first - 1)], i, inode, first, last)
  {
    var a, b := t[i].(last := first - 1), t[i].(first := last + 1);
    forall l: Lock | l.kind != Unused
      ensures Count(t[k := b][i := a], l) == Count(t, l) - Is(t[i], l) + Count(Pieces(t[i], inode, first, last), l)
    {
      CountChanged(t, k, b, l);
      CountChanged(t[k := b], i, a, l);
      assert Pieces(t[i], inode, first, last) == [a] + [b];
      CountTwo([a], [b], l);
      CountOne(a, l);
      CountOne(b, l);
    }
  }

  /** Cutting locks back keeps the table free of conflicts. */
  lemma StillConflictFree(t0: seq<Lock>, t: seq<Lock>)
    requires ConflictFree(t0) && AllWithin(t0, t)
    ensures ConflictFree(t)
  {
    forall i, j | 0 <= i < |t| && 0 <= j < |t| ensures Compatible(t[i], t[j]) {
      assert PartOf(t0, t[i]) && PartOf(t0, t[j]);
      var m :| 0 <= m < |t0| && Within(t[i], t0[m]);
      var n :| 0 <= n < |t0| && Within(t[j], t0[n]);
      assert Compatible(t0[m], t0[n]);
    }
  }

  lemma StillWaiting(t: seq<Lock>, u: seq<Lock>, waiting: seq<Region>)
    requires SameLocks(t, u)
    ensures (forall k :: 0 <= k < |waiting| ==> Blocked(t, waiting[k])) <==>
      (forall k :: 0 <= k < |waiting| ==> Blocked(u, waiting[k]))
  {
    assert SameLocks(u, t);
    forall k | 0 <= k < |waiting| ensures Blocked(t, waiting[k]) <==> Blocked(u, waiting[k]) {
      if Blocked(t, waiting[k]) { SameBlocked(t, u, waiting[k]); }
      if Blocked(u, waiting[k]) { SameBlocked(u, t, waiting[k]); }
    }
  }

  lemma AllWithinGivenUp(t: seq<Lock>, u: seq<Lock>, inode: nat, pid: nat)
    requires |u| == |t| && forall i :: 0 <= i < |t| ==> u[i] == GivenUp(t[i], inode, pid)
    ensures AllWithin(t, u)
  {
    forall m | 0 <= m < |u| ensures PartOf(t, u[m]) { assert Within(u[m], t[m]); }
  }

  lemma StartUnlock(t: seq<Lock>, inode: nat, first: nat, last: nat)
    ensures SameOutside(t, t, inode, first, last) && AllWithin(t, t)
  {
    forall i | 0 <= i < |t| ensures PartOf(t, t[i]) { assert Within(t[i], t[i]); }
  }

  /** No lock that is part of an earlier one, and no table without conflicts for it, is spoiled by a new lock. */
  lemma AddedConflictFree(t: seq<Lock>, e: nat, r: Region)
    requires ConflictFree(t) && e < |t| && t[e].kind == Unused && r.kind != Unused && forall i ::
      0 <= i < |t| ==> !Conflicts(t[i], r)
    ensures ConflictFree(t[e := Lock(r.kind, r.pid, r.inode, r.first, r.last)])
  {
    var u := t[e := Lock(r.kind, r.pid, r.inode, r.first, r.last)];
    forall i, j | 0 <= i < |u| && 0 <= j < |u| ensures Compatible(u[i], u[j]) {
      if i != e && j != e { assert Compatible(t[i], t[j]); }
      if i == e && j != e { assert !Conflicts(t[j], r); }
      if i != e && j == e { assert !Conflicts(t[i], r); }
    }
  }

  lemma AddedCovers(t: seq<Lock>, e: nat, r: Region)
    requires e < |t| && t[e].kind == Unused && r.kind != Unused
    ensures var u := t[e := Lock(r.kind, r.pid, r.inode, r.first, r.last)];
      forall ino: nat, pid: nat, kind: Kind, b: nat {:trigger Covers(u, ino, pid, kind, b)} ::
        Covers(u, ino, pid, kind, b) <==> Covers(t, ino, pid, kind, b) || LockHas(u[e], ino, pid, kind, b)
  {
    var u := t[e := Lock(r.kind, r.pid, r.inode, r.first, r.last)];
    forall ino: nat, pid: nat, kind: Kind, b: nat
      ensures Covers(u, ino, pid, kind, b) <==> Covers(t, ino, pid, kind, b) || LockHas(u[e], ino, pid, kind, b)
    {
      if Covers(u, ino, pid, kind, b) {
        var m :| 0 <= m < |u| && LockHas(u[m], ino, pid, kind, b);
        if m != e { CoveredBy(t, m, ino, pid, kind, b); }
      }
      if Covers(t, ino, pid, kind, b) {
        var m :| 0 <= m < |t| && LockHas(t[m], ino, pid, kind, b);
        CoveredBy(u, m, ino, pid, kind, b);
      }
      if LockHas(u[e], ino, pid, kind, b) { CoveredBy(u, e, ino, pid, kind, b); }
    }
  }

  lemma BlockedStays(t: seq<Lock>, u: seq<Lock>, waiting: seq<Region>)
    requires |u| == |t| && forall i :: 0 <= i < |t| && t[i].kind != Unused ==> u[i] == t[i]
    requires forall k :: 0 <= k < |waiting| ==> Blocked(t, waiting[k])
    ensures forall k :: 0 <= k < |waiting| ==> Blocked(u, waiting[k])
  {
    forall k | 0 <= k < |waiting| ensures Blocked(u, waiting[k]) {
      var i :| 0 <= i < |t| && Conflicts(t[i], waiting[k]);
      assert Conflicts(u[i], waiting[k]);
    }
  }

  // ---------- a lost wakeup ----------

  /** Two read locks of inode 1 that overlap, and locks elsewhere in the other slots. */
  function FullSlot(k: nat): Lock {
    if k == 0 then Lock(ReadLock, 1, 1, 0, 10) else if k == 1 then Lock(ReadLock, 2, 1, 0, 40)
      else Lock(ReadLock, 3, 9, 0, 0)
  }

  function FullTable(): (t: seq<Lock>)
    ensures |t| == NR_LOCKS && forall k :: 0 <= k < NR_LOCKS ==> t[k] == FullSlot(k)
  {
    seq(NR_LOCKS, k requires 0 <= k < NR_LOCKS => FullSlot(k))
  }

  /** Process 2 asks for a byte that process 1 has locked. */
  const Wanted: Region := Region(2, 1, WriteLock, 8, 8)

  /** An unlock that runs out of slots has cut the only lock that process 2 waits for. */
  lemma WakeupLost()
    ensures Blocked(FullTable(), Wanted) && Overflow(FullTable(), NR_LOCKS, 1, 5, 30)
    ensures !Blocked(Remains(FullTable(), NR_LOCKS, 1, 5, 30), Wanted)
  {
    var t := FullTable();
    assert Conflicts(t[0], Wanted);
    assert Extra(t[0], 1, 5, 30) == 0 && t[1..][0] == FullSlot(1);
    assert Pieces(t[0], 1, 5, 30) == [t[0].(last := 4)];
    var u := Remains(t, NR_LOCKS, 1, 5, 30);
    assert u == [t[0].(last := 4)] + t[1..];
    forall k | 0 <= k < |u| ensures !Conflicts(u[k], Wanted) {
      assert k > 0 ==> u[k] == FullSlot(k);
    }
  }

  /** The calls that lead there: the unlock returns without reviving anyone, and nothing blocks process 2 any longer. */
  method LoseWakeup() returns (lt: LockTable, o: Outcome)
    ensures fresh(lt) && lt.Valid() && o == NoLocks && lt.waiting == [Wanted] && !Blocked(lt.table[..], Wanted)
      && !lt.NoLostWakeups()
  {
    lt := new LockTable();
    var k := 0;
    while k < NR_LOCKS
      invariant 0 <= k <= NR_LOCKS && fresh(lt) && fresh(lt.table) && lt.Valid() && lt.nrLocks == k && lt.waiting == []
      invariant forall m ::
        0 <= m < NR_LOCKS ==> if m < k then lt.table[m] == FullSlot(m) else lt.table[m].kind == Unused
    {
      ghost var t := lt.table[..];
      var l := FullSlot(k);
      assert forall m :: 0 <= m < NR_LOCKS ==> t[m] == lt.table[m];
      o := lt.SetLock(Region(l.pid, l.inode, l.kind, l.first, l.last), false);
      OnlyPlace(t, lt.table[..], l, k);
      k := k + 1;
    }
    assert lt.table[..] == FullTable();
    WakeupLost();
    o := lt.SetLock(Wanted, true);
    o := lt.Unlock(1, 5, 30);
  }

  lemma OnlyPlace(t: seq<Lock>, u: seq<Lock>, l: Lock, k: nat)
    requires Placed(t, u, l) && FirstFree(t, k)
    ensures u == t[k := l]
  {
  }

  lemma {:induction false} AllFree(t: seq<Lock>)
    requires Used(t) == 0
    ensures forall i :: 0 <= i < |t| ==> t[i].kind == Unused
  {
    if t != [] {
      AllFree(t[1..]);
      forall i | 0 <= i < |t| ensures t[i].kind == Unused { if i > 0 { assert t[i] == t[1..][i - 1]; } }
    }
  }

  lemma {:induction false} NoneUsed(t: seq<Lock>)
    requires forall i :: 0 <= i < |t| ==> t[i].kind == Unused
    ensures Used(t) == 0
  {
    if t != [] { NoneUsed(t[1..]); }
  }
}
