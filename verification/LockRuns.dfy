/** Whole runs of lock calls and closes. */
module LockRuns {
  import opened Locks

  datatype Call = Set(r: Region, wait: bool) | Unset(inode: nat, first: nat, last: nat) | Close(inode: nat, pid: nat)

  /** The region is one that lock_op accepts. */
  predicate Legal(c: Call) {
    match c
    case Set(r, _) => r.kind != Unused && r.first <= r.last < OFF_T
    case Unset(_, first, last) => first <= last < OFF_T
    case Close(_, _) => true
  }

  /** The bytes of the region are added to those the process has locked in that way. */
  ghost predicate Gains(t: seq<Lock>, u: seq<Lock>, r: Region) {
    forall ino: nat, pid: nat, kind: Kind, b: nat {:trigger Covers(u, ino, pid, kind, b)} ::
      Covers(u, ino, pid, kind, b) <==>
      Covers(t, ino, pid, kind, b) || (ino == r.inode && pid == r.pid && kind == r.kind && r.first <= b <= r.last)
  }

  /** What a call does to the table, and what it answers. */
  ghost predicate Does(t: seq<Lock>, c: Call, o: Outcome, u: seq<Lock>) {
    match c
    case Set(r, wait) =>
      && (o == Granted <==> !Blocked(t, r) && Used(t) < NR_LOCKS)
      && (o == NoLocks <==> !Blocked(t, r) && Used(t) == NR_LOCKS)
      && (Blocked(t, r) ==> o == if wait then Waits else Again)
      && if o == Granted then Gains(t, u, r) else u == t
    case Unset(inode, first, last) =>
      && o == (if Overflow(t, Used(t), inode, first, last) then NoLocks else Granted)
      && SameLocks(u, Remains(t, Used(t), inode, first, last)) && (o == Granted ==> Unlocked(t, u, inode, first, last))
    case Close(inode, pid) =>
      o == Granted && |u| == |t| && forall i :: 0 <= i < |t| ==> u[i] == GivenUp(t[i], inode, pid)
  }

  /** An unlock that runs out of slots. */
  predicate CutShort(c: Call, o: Outcome) { c.Unset? && o == NoLocks }

  /** One call; whoever waits is still blocked, unless it is an unlock that runs out of slots. */
  method Step(lt: LockTable, c: Call) returns (o: Outcome)
    requires lt.Valid() && Legal(c)
    modifies lt, lt.table
    ensures lt.Valid() && Does(old(lt.table[..]), c, o, lt.table[..])
    ensures old(lt.NoLostWakeups()) && !CutShort(c, o) ==> lt.NoLostWakeups()
  {
    AllUsed(lt.table[..]);
    match c {
      case Set(r, wait) => o := lt.SetLock(r, wait);
      case Unset(inode, first, last) => o := lt.Unlock(inode, first, last);
      case Close(inode, pid) =>
        lt.ReleaseAll(inode, pid);
        o := Granted;
    }
  }

  /**
   In every run no two locks conflict, nr_locks counts the slots in use, and as long as no unlock
   runs out of slots nobody waits for nothing.
   */
  method Run(lt: LockTable, calls: seq<Call>) returns (got: seq<Outcome>, ghost trace: seq<seq<Lock>>)
    requires lt.Valid() && forall k :: 0 <= k < |calls| ==> Legal(calls[k])
    modifies lt, lt.table
    ensures lt.Valid() && |got| == |calls| && |trace| == |calls| + 1 && trace[0] == old(lt.table[..])
      && trace[|calls|] == lt.table[..]
    ensures forall k :: 0 <= k < |calls| ==> Does(trace[k], calls[k], got[k], trace[k + 1])
    ensures forall k :: 0 <= k <= |calls| ==> ConflictFree(trace[k])
    ensures old(lt.NoLostWakeups()) && (forall k :: 0 <= k < |calls| ==> !CutShort(calls[k], got[k])) ==>
      lt.NoLostWakeups()
  {
    got, trace := [], [lt.table[..]];
    var k := 0;
    while k < |calls|
      invariant 0 <= k <= |calls| && lt.Valid() && |got| == k && |trace| == k + 1 && trace[0] == old(lt.table[..])
        && trace[k] == lt.table[..]
      invariant forall m :: 0 <= m < k ==> Does(trace[m], calls[m], got[m], trace[m + 1])
      invariant forall m :: 0 <= m <= k ==> ConflictFree(trace[m]) == true
      invariant old(lt.NoLostWakeups()) && (forall m :: 0 <= m < k ==> !CutShort(calls[m], got[m])) ==>
        lt.NoLostWakeups()
    {
      var o := Step(lt, calls[k]);
      got, trace := got + [o], trace + [lt.table[..]];
      k := k + 1;
    }
  }
}
