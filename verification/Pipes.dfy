/**
 The pipe protocol of pipe.c: reads and writes that suspend their process, the
 releases that wake it, and the revival step of get_work, as a system of steps
 over processes and pipes.
 */
module Pipes {
  import opened Base

  const PIPE_SIZE: nat := 7168      // V1_NR_DZONES blocks

  /** One end of a pipe; each end is one filp, shared by all descriptors for it. */
  datatype End = End(pipe: nat, write: bool)

  /** The call a process is suspended in: what it wants to read, or what it has yet to write. */
  datatype Call = Read(n: nat) | Write(data: seq<byte>)

  /** fp_suspended, fp_revived, fp_fd with fp_buffer and fp_nbytes, fp_cum_io_partial, and fp_filp. */
  datatype Proc = Proc(susp: bool, rev: bool, pipe: nat, call: Call, cum: nat, fds: multiset<End>)

  /** The filp_count, filp_pos and O_NONBLOCK of the two ends, and the bytes of the inode up to i_size. */
  datatype Pipe = Pipe(readers: nat, writers: nat, rpos: nat, wpos: nat, data: seq<byte>, rNonblock: bool,
                       wNonblock: bool)

  // ---------- counting ----------

  predicate Asleep(p: Proc) { p.susp && !p.rev }

  function Sleeping(procs: seq<Proc>): nat {
    if procs == [] then 0 else (if Asleep(procs[0]) then 1 else 0) + Sleeping(procs[1..])
  }

  function Waking(procs: seq<Proc>): nat {
    if procs == [] then 0 else (if procs[0].rev then 1 else 0) + Waking(procs[1..])
  }

  /** The descriptors for one end of a pipe. */
  function Held(procs: seq<Proc>, e: End): nat {
    if procs == [] then 0 else procs[0].fds[e] + Held(procs[1..], e)
  }

  lemma {:induction false} Changed(procs: seq<Proc>, i: nat, p: Proc)
    requires i < |procs|
    ensures Sleeping(procs[i := p]) == Sleeping(procs)
      + (if Asleep(p) then 1 else 0) - (if Asleep(procs[i]) then 1 else 0)
    ensures Waking(procs[i := p]) == Waking(procs) + (if p.rev then 1 else 0) - (if procs[i].rev then 1 else 0)
  {
    if i > 0 {
      Changed(procs[1..], i - 1, p);
      assert procs[i := p][1..] == procs[1..][i - 1 := p];
    } else {
      assert procs[i := p][1..] == procs[1..];
    }
  }

  lemma {:induction false} HeldChanged(procs: seq<Proc>, i: nat, p: Proc, e: End)
    requires i < |procs|
    ensures Held(procs[i := p], e) == Held(procs, e) + p.fds[e] - procs[i].fds[e]
  {
    if i > 0 {
      HeldChanged(procs[1..], i - 1, p, e);
      assert procs[i := p][1..] == procs[1..][i - 1 := p];
    } else {
      assert procs[i := p][1..] == procs[1..];
    }
  }

  lemma {:induction false} HeldAtLeast(procs: seq<Proc>, i: nat, e: End)
    requires i < |procs|
    ensures Held(procs, e) >= procs[i].fds[e]
  {
    if i > 0 { HeldAtLeast(procs[1..], i - 1, e); }
  }

  lemma {:induction false} SomeWaking(procs: seq<Proc>)
    requires Waking(procs) > 0
    ensures exists i :: 0 <= i < |procs| && procs[i].rev
  {
    if !procs[0].rev {
      SomeWaking(procs[1..]);
      var i :| 0 <= i < |procs[1..]| && procs[1..][i].rev;
      assert procs[i + 1].rev;
    }
  }

  // ---------- release ----------

  /** The process sleeps on the pipe in the given kind of call. */
  predicate On(p: Proc, k: nat, write: bool) {
    Asleep(p) && p.pipe == k && p.call.Write? == write
  }

  function Matches(procs: seq<Proc>, k: nat, write: bool): nat {
    if procs == [] then 0 else (if On(procs[0], k, write) then 1 else 0) + Matches(procs[1..], k, write)
  }

  lemma {:induction false} MatchesAtMost(procs: seq<Proc>, k: nat, write: bool)
    ensures Matches(procs, k, write) <= Sleeping(procs) <= |procs|
  {
    if procs != [] { MatchesAtMost(procs[1..], k, write); }
  }

  lemma {:induction false} NoMatches(procs: seq<Proc>, k: nat, write: bool)
    requires Matches(procs, k, write) == 0
    ensures forall i :: 0 <= i < |procs| ==> !On(procs[i], k, write)
  {
    if procs != [] {
      NoMatches(procs[1..], k, write);
      forall i | 0 <= i < |procs| ensures !On(procs[i], k, write) {
        if i > 0 { assert procs[i] == procs[1..][i - 1]; }
      }
    }
  }

  /** Every sleeper of that kind has been revived; nothing else has changed. */
  ghost predicate Released(p0: seq<Proc>, p1: seq<Proc>, k: nat, write: bool) {
    |p1| == |p0| && forall i :: 0 <= i < |p0| ==> p1[i] == if On(p0[i], k, write) then p0[i].(rev := true) else p0[i]
  }

  /** The same for the first i processes. */
  ghost predicate ReleasedTo(p0: seq<Proc>, p1: seq<Proc>, k: nat, write: bool, i: nat) {
    |p1| == |p0| && forall j ::
      0 <= j < |p0| ==> p1[j] == if j < i && On(p0[j], k, write) then p0[j].(rev := true) else p0[j]
  }

  /** How many of the first i processes match. */
  lemma {:induction false} MatchesSplit(procs: seq<Proc>, k: nat, write: bool, i: nat)
    requires i < |procs|
    ensures Matches(procs[i..], k, write) == (if On(procs[i], k, write) then 1 else 0)
      + Matches(procs[i + 1..], k, write)
  {
    assert procs[i..][1..] == procs[i + 1..];
  }

  lemma DoneEarly(p0: seq<Proc>, p1: seq<Proc>, k: nat, write: bool, i: nat)
    requires i < |p0| && ReleasedTo(p0, p1, k, write, i + 1) && Matches(p0[i + 1..], k, write) == 0
    ensures Released(p0, p1, k, write)
  {
    NoMatches(p0[i + 1..], k, write);
    forall j | i < j < |p0| ensures !On(p0[j], k, write) { assert p0[j] == p0[i + 1..][j - (i + 1)]; }
  }

  lemma {:induction false} HeldReleased(p0: seq<Proc>, p1: seq<Proc>, k: nat, write: bool, e: End)
    requires Released(p0, p1, k, write)
    ensures Held(p1, e) == Held(p0, e)
  {
    if p0 != [] {
      HeldReleased(p0[1..], p1[1..], k, write, e);
    }
  }

  // ---------- what every step keeps ----------

  /** A suspended process holds a descriptor for the end it sleeps on. */
  ghost predicate ProcOk(procs: seq<Proc>, pipes: seq<Pipe>, i: nat)
    requires i < |procs|
  {
    var p := procs[i];
    && (p.rev ==> p.susp) && (forall e: End :: p.fds[e] > 0 ==> e.pipe < |pipes|)
    && (p.susp ==> p.pipe < |pipes| && p.fds[End(p.pipe, p.call.Write?)] > 0 && (p.call.Write? ==> p.call.data != []))
  }

  /** The positions stay within the pipe; an empty pipe starts at position 0 again. */
  ghost predicate PipeOk(pipe: Pipe) {
    && |pipe.data| <= PIPE_SIZE && (if pipe.data == [] then pipe.rpos == 0 else pipe.rpos < |pipe.data|)
    && (pipe.writers > 0 ==> pipe.wpos == |pipe.data|)
  }

  ghost predicate EndsOk(procs: seq<Proc>, pipes: seq<Pipe>, k: nat)
    requires k < |pipes|
  {
    pipes[k].readers == Held(procs, End(k, false)) && pipes[k].writers == Held(procs, End(k, true))
  }

  /**
   A sleeping reader waits on an empty pipe that can still be written, a sleeping writer on one that
   can still be read.
   */
  ghost predicate SleepOk(procs: seq<Proc>, pipes: seq<Pipe>, i: nat)
    requires i < |procs|
  {
    var p := procs[i];
    Asleep(p) && p.pipe < |pipes| ==>
      if p.call.Read? then pipes[p.pipe].data == [] && pipes[p.pipe].writers > 0 else pipes[p.pipe].readers > 0
  }

  ghost predicate NoneOn(procs: seq<Proc>, k: nat, write: bool) {
    forall i :: 0 <= i < |procs| ==> !On(procs[i], k, write)
  }

  /** No reader and writer sleep on the same pipe. */
  ghost predicate NotBoth(procs: seq<Proc>, k: nat) {
    NoneOn(procs, k, false) || NoneOn(procs, k, true)
  }

  ghost predicate GoodParts(procs: seq<Proc>, pipes: seq<Pipe>) {
    && (forall i {:trigger ProcOk(procs, pipes, i)} :: 0 <= i < |procs| ==> ProcOk(procs, pipes, i))
    && (forall k {:trigger PipeOk(pipes[k])} :: 0 <= k < |pipes| ==> PipeOk(pipes[k]))
    && (forall k {:trigger EndsOk(procs, pipes, k)} :: 0 <= k < |pipes| ==> EndsOk(procs, pipes, k))
    && (forall i {:trigger SleepOk(procs, pipes, i)} :: 0 <= i < |procs| ==> SleepOk(procs, pipes, i))
    && (forall k {:trigger NotBoth(procs, k)} :: 0 <= k < |pipes| ==> NotBoth(procs, k))
  }

  ghost predicate Good(procs: seq<Proc>, pipes: seq<Pipe>) {
    GoodParts(procs, pipes) == true
  }

  /** susp_count counts the sleeping processes, reviving those that have been released but not resumed. */
  ghost predicate Counted(procs: seq<Proc>, suspCount: int, reviving: int) {
    suspCount == Sleeping(procs) && reviving == Waking(procs)
  }

  /** Waking sleepers of one kind is always safe. */
  lemma ReleaseGood(p0: seq<Proc>, p1: seq<Proc>, pipes: seq<Pipe>, k: nat, write: bool)
    requires Good(p0, pipes) && Released(p0, p1, k, write)
    ensures Good(p1, pipes) && NoneOn(p1, k, write)
  {
    forall i | 0 <= i < |p1| ensures ProcOk(p1, pipes, i) && SleepOk(p1, pipes, i) {
      assert ProcOk(p0, pipes, i) && SleepOk(p0, pipes, i);
    }
    forall m | 0 <= m < |pipes| ensures EndsOk(p1, pipes, m) && NotBoth(p1, m) {
      assert EndsOk(p0, pipes, m) && NotBoth(p0, m);
      HeldReleased(p0, p1, k, write, End(m, false));
      HeldReleased(p0, p1, k, write, End(m, true));
      forall w | NoneOn(p0, m, w) ensures NoneOn(p1, m, w) {
        forall i | 0 <= i < |p1| ensures !On(p1[i], m, w) { assert !On(p0[i], m, w); }
      }
    }
  }

  /** A process changes that neither sleeps before nor after, and keeps its descriptors. */
  lemma AwakeGood(p0: seq<Proc>, pipes: seq<Pipe>, i: nat, p: Proc)
    requires Good(p0, pipes) && i < |p0| && !Asleep(p0[i]) && !p.susp && !p.rev && p.fds == p0[i].fds
    ensures Good(p0[i := p], pipes)
  {
    var p1 := p0[i := p];
    forall j | 0 <= j < |p1| ensures ProcOk(p1, pipes, j) && SleepOk(p1, pipes, j) {
      assert ProcOk(p0, pipes, j) && SleepOk(p0, pipes, j) && ProcOk(p0, pipes, i);
    }
    forall m | 0 <= m < |pipes| ensures EndsOk(p1, pipes, m) && NotBoth(p1, m) {
      assert EndsOk(p0, pipes, m) && NotBoth(p0, m);
      HeldChanged(p0, i, p, End(m, false));
      HeldChanged(p0, i, p, End(m, true));
      forall w | NoneOn(p0, m, w) ensures NoneOn(p1, m, w) {
        forall j | 0 <= j < |p1| ensures !On(p1[j], m, w) { assert j != i ==> !On(p0[j], m, w); }
      }
    }
  }

  /** A process goes to sleep when its partner does not. */
  lemma SleepGood(p0: seq<Proc>, pipes: seq<Pipe>, i: nat, p: Proc)
    requires Good(p0, pipes) && i < |p0| && !p0[i].susp && p.susp && !p.rev && p.fds == p0[i].fds
    requires p.pipe < |pipes| && p.fds[End(p.pipe, p.call.Write?)] > 0 && (p.call.Write? ==> p.call.data != [])
    requires if p.call.Read? then pipes[p.pipe].data == [] && pipes[p.pipe].writers > 0 else pipes[p.pipe].readers > 0
    requires NoneOn(p0, p.pipe, !p.call.Write?)
    ensures Good(p0[i := p], pipes)
  {
    var p1 := p0[i := p];
    forall j | 0 <= j < |p1| ensures ProcOk(p1, pipes, j) && SleepOk(p1, pipes, j) {
      assert ProcOk(p0, pipes, j) && SleepOk(p0, pipes, j) && ProcOk(p0, pipes, i);
    }
    forall m | 0 <= m < |pipes| ensures EndsOk(p1, pipes, m) && NotBoth(p1, m) {
      assert EndsOk(p0, pipes, m) && NotBoth(p0, m);
      HeldChanged(p0, i, p, End(m, false));
      HeldChanged(p0, i, p, End(m, true));
      SleepBoth(p0, i, p, m);
    }
  }

  lemma SleepBoth(p0: seq<Proc>, i: nat, p: Proc, m: nat)
    requires i < |p0| && NotBoth(p0, m) && (m == p.pipe ==> NoneOn(p0, m, !p.call.Write?))
    ensures NotBoth(p0[i := p], m)
  {
    var p1 := p0[i := p];
    forall w | NoneOn(p0, m, w) && (m == p.pipe ==> w == !p.call.Write?) ensures NoneOn(p1, m, w) {
      forall j | 0 <= j < |p1| ensures !On(p1[j], m, w) { assert j != i ==> !On(p0[j], m, w); }
    }
  }

  /** The contents and positions of one pipe change while nobody waits for it to be empty. */
  lemma PipeGood(procs: seq<Proc>, pipes: seq<Pipe>, k: nat, pipe: Pipe)
    requires Good(procs, pipes) && k < |pipes| && PipeOk(pipe) && pipe.readers == pipes[k].readers
      && pipe.writers == pipes[k].writers
    requires pipe.data != [] ==> NoneOn(procs, k, false)
    ensures Good(procs, pipes[k := pipe])
  {
    var q := pipes[k := pipe];
    forall i | 0 <= i < |procs| ensures ProcOk(procs, q, i) && SleepOk(procs, q, i) {
      assert ProcOk(procs, pipes, i) && SleepOk(procs, pipes, i);
      if pipe.data != [] { assert !On(procs[i], k, false); }
    }
    forall m | 0 <= m < |q| ensures PipeOk(q[m]) && EndsOk(procs, q, m) {
      assert EndsOk(procs, pipes, m) && PipeOk(pipes[m]);
    }
  }

  /** The count of one end of a pipe. */
  function WithCount(pipe: Pipe, write: bool, n: nat): Pipe {
    if write then pipe.(writers := n) else pipe.(readers := n)
  }

  function EndCount(pipe: Pipe, write: bool): nat { if write then pipe.writers else pipe.readers }

  /**
   A process gains or loses one descriptor of an end; before the last one goes, the other end's
   sleepers have been woken.
   */
  lemma DescriptorGood(p0: seq<Proc>, pipes: seq<Pipe>, i: nat, p: Proc, e: End, pipe: Pipe)
    requires Good(p0, pipes) && i < |p0| && !p0[i].susp && e.pipe < |pipes|
    requires forall d: End :: d != e ==> p.fds[d] == p0[i].fds[d]
    requires p == p0[i].(fds := p.fds) && EndCount(pipes[e.pipe], e.write) + p.fds[e] - p0[i].fds[e] >= 0
    requires pipe == WithCount(pipes[e.pipe], e.write, EndCount(pipes[e.pipe], e.write) + p.fds[e] - p0[i].fds[e])
    requires EndCount(pipe, e.write) == 0 ==> NoneOn(p0, e.pipe, !e.write)
    requires e.write ==> EndCount(pipes[e.pipe], true) > 0
    ensures Good(p0[i := p], pipes[e.pipe := pipe])
  {
    var p1, q := p0[i := p], pipes[e.pipe := pipe];
    forall j | 0 <= j < |p1| ensures ProcOk(p1, q, j) && SleepOk(p1, q, j) {
      assert ProcOk(p0, pipes, j) && SleepOk(p0, pipes, j);
      if j == i { forall d: End | p.fds[d] > 0 ensures d.pipe < |q| { assert d == e || p0[i].fds[d] > 0; } }
      if NoneOn(p0, e.pipe, !e.write) { assert !On(p0[j], e.pipe, !e.write); }
    }
    forall m | 0 <= m < |q| ensures PipeOk(q[m]) && EndsOk(p1, q, m) && NotBoth(p1, m) {
      assert EndsOk(p0, pipes, m) && PipeOk(pipes[m]) && NotBoth(p0, m);
      HeldChanged(p0, i, p, End(m, false));
      HeldChanged(p0, i, p, End(m, true));
      assert !p.susp;
      AwakeBoth(p0, i, p, m);
    }
  }

  lemma AwakeBoth(p0: seq<Proc>, i: nat, p: Proc, m: nat)
    requires i < |p0| && NotBoth(p0, m) && !Asleep(p)
    ensures NotBoth(p0[i := p], m)
  {
    var p1 := p0[i := p];
    forall w | NoneOn(p0, m, w) ensures NoneOn(p1, m, w) {
      forall j | 0 <= j < |p1| ensures !On(p1[j], m, w) { assert j != i ==> !On(p0[j], m, w); }
    }
  }

  lemma {:induction false} HeldNone(procs: seq<Proc>, e: End)
    requires forall i :: 0 <= i < |procs| ==> procs[i].fds[e] == 0
    ensures Held(procs, e) == 0
  {
    if procs != [] { HeldNone(procs[1..], e); }
  }

  const IDLE := Proc(false, false, 0, Read(0), 0, multiset{})
  const NEW_PIPE := Pipe(1, 1, 0, 0, [], false, false)

  /** do_pipe */
  lemma NewPipeGood(p0: seq<Proc>, pipes: seq<Pipe>, i: nat, p: Proc)
    requires Good(p0, pipes) && i < |p0| && !p0[i].susp
    requires p == p0[i].(fds := p0[i].fds + multiset{End(|pipes|, false), End(|pipes|, true)})
    ensures Good(p0[i := p], pipes + [NEW_PIPE])
  {
    var p1, q := p0[i := p], pipes + [NEW_PIPE];
    var n := |pipes|;
    forall j | 0 <= j < |p0| ensures p0[j].fds[End(n, false)] == 0 && p0[j].fds[End(n, true)] == 0 {
      assert ProcOk(p0, pipes, j);
    }
    HeldNone(p0, End(n, false));
    HeldNone(p0, End(n, true));
    forall j | 0 <= j < |p1| ensures ProcOk(p1, q, j) && SleepOk(p1, q, j) {
      assert ProcOk(p0, pipes, j) && SleepOk(p0, pipes, j);
      if j == i { forall d: End | p.fds[d] > 0 ensures d.pipe < |q| { assert d.pipe == n || p0[i].fds[d] > 0; } }
    }
    forall m | 0 <= m < |q| ensures PipeOk(q[m]) && EndsOk(p1, q, m) && NotBoth(p1, m) {
      HeldChanged(p0, i, p, End(m, false));
      HeldChanged(p0, i, p, End(m, true));
      if m < n {
        assert EndsOk(p0, pipes, m) && PipeOk(pipes[m]) && NotBoth(p0, m);
        AwakeBoth(p0, i, p, m);
      } else {
        NoneYet(p0, pipes, p1, i);
      }
    }
  }

  lemma NoneYet(p0: seq<Proc>, pipes: seq<Pipe>, p1: seq<Proc>, i: nat)
    requires Good(p0, pipes) && i < |p0| == |p1| && p1 == p0[i := p1[i]] && !p1[i].susp
    ensures NotBoth(p1, |pipes|)
  {
    forall j | 0 <= j < |p1| ensures !On(p1[j], |pipes|, false) { assert ProcOk(p0, pipes, j); }
  }

  /** A process as suspend leaves it. */
  function Slept(p: Proc, k: nat, call: Call, cum: nat): Proc {
    p.(susp := true, rev := false, pipe := k, call := call, cum := cum)
  }

  /** Other processes than i have at most been woken. */
  ghost predicate Woken(p0: seq<Proc>, p1: seq<Proc>, k: nat, i: nat) {
    |p1| == |p0| && forall j ::
      0 <= j < |p0| && j != i ==> p1[j] == p0[j] || (On(p0[j], k, false) && p1[j] == p0[j].(rev := true))
  }

  // ---------- the server ----------

  datatype Reply = Bytes(n: nat) | EAGAIN | EPIPE | NoReply

  /** Bytes taken out of each pipe, those still in it, and the bytes that were ever accepted. */
  ghost predicate Stream(pipes: seq<Pipe>, accepted: seq<seq<byte>>, delivered: seq<seq<byte>>, k: nat)
    requires k < |pipes| == |accepted| == |delivered|
  {
    pipes[k].rpos <= |pipes[k].data| && accepted[k] == delivered[k] + pipes[k].data[pipes[k].rpos..]
  }

  ghost predicate Streams(pipes: seq<Pipe>, accepted: seq<seq<byte>>, delivered: seq<seq<byte>>) {
    && |pipes| == |accepted| == |delivered|
    && forall k {:trigger Stream(pipes, accepted, delivered, k)} ::
      0 <= k < |pipes| ==> Stream(pipes, accepted, delivered, k)
  }

  class Server {
    var procs: seq<Proc>
    var pipes: seq<Pipe>
    var suspCount: int
    var reviving: int
    ghost var accepted: seq<seq<byte>>
    ghost var delivered: seq<seq<byte>>

    constructor (n: nat)
      ensures Valid() && |procs| == n && pipes == [] && reviving == 0 && forall i :: 0 <= i < n ==> procs[i] == IDLE
    {
      procs := seq(n, _ => IDLE);
      pipes, suspCount, reviving, accepted, delivered := [], 0, 0, [], [];
      new;
      NoneCounted(procs);
    }

    ghost predicate Valid()
      reads this
    {
      Good(procs, pipes) && Counted(procs, suspCount, reviving) && Streams(pipes, accepted, delivered) == true
    }

    /** The process is running and has a descriptor for that end. */
    ghost predicate Runs(i: nat, e: End)
      reads this
    {
      i < |procs| && !procs[i].susp && procs[i].fds[e] > 0
    }

    /** release; the count given is never too small to reach every sleeper of that kind. */
    method Release(k: nat, write: bool, count: int)
      requires Counted(procs, suspCount, reviving) && count >= Matches(procs, k, write)
      modifies this`procs, this`suspCount, this`reviving
      ensures Counted(procs, suspCount, reviving) && Released(old(procs), procs, k, write)
    {
      ghost var p0 := procs;
      var left, i := count, 0;
      assert p0[0..] == p0;
      while i < |procs|
        invariant 0 <= i <= |procs| == |p0| && left >= Matches(p0[i..], k, write)
        invariant Counted(procs, suspCount, reviving) && ReleasedTo(p0, procs, k, write, i)
      {
        MatchesSplit(p0, k, write, i);
        if On(procs[i], k, write) {
          Revive(i);
          left := left - 1;
          if left == 0 {
            DoneEarly(p0, procs, k, write, i);
            return;
          }
        }
        i := i + 1;
      }
    }

    /** revive, for a process that sleeps on a pipe, and the susp_count-- that follows it. */
    method Revive(i: nat)
      requires i < |procs| && Asleep(procs[i]) && Counted(procs, suspCount, reviving)
      modifies this`procs, this`suspCount, this`reviving
      ensures Counted(procs, suspCount, reviving) && procs == old(procs)[i := old(procs)[i].(rev := true)]
    {
      Changed(procs, i, procs[i].(rev := true));
      procs := procs[i := procs[i].(rev := true)];
      reviving := reviving + 1;
      suspCount := suspCount - 1;
    }

    /** Waking every sleeper of one kind on a pipe. */
    method Wake(k: nat, write: bool, count: int)
      requires Valid() && count >= Matches(procs, k, write)
      modifies this`procs, this`suspCount, this`reviving
      ensures Valid() && Released(old(procs), procs, k, write) && NoneOn(procs, k, write)
    {
      Release(k, write, count);
      ReleaseGood(old(procs), procs, pipes, k, write);
    }

    /** suspend, on a pipe whose other end has no sleeper. */
    method Suspend(i: nat, k: nat, call: Call)
      requires Valid() && Runs(i, End(k, call.Write?)) && k < |pipes| && (call.Write? ==> call.data != [])
      requires if call.Read? then pipes[k].data == [] && pipes[k].writers > 0 else pipes[k].readers > 0
      requires NoneOn(procs, k, !call.Write?)
      modifies this`procs, this`suspCount
      ensures Valid() && procs == old(procs)[i := old(procs)[i].(susp := true, rev := false, pipe := k, call := call)]
    {
      var p := procs[i].(susp := true, rev := false, pipe := k, call := call);
      assert ProcOk(procs, pipes, i);
      Changed(procs, i, p);
      SleepGood(procs, pipes, i, p);
      suspCount := suspCount + 1;
      procs := procs[i := p];
    }

    /** pipe_check for a reader that finds the pipe empty while it has a writer: suspend, then wake the writers. */
    method SleepReader(i: nat, k: nat, n: nat)
      requires Valid() && Runs(i, End(k, false)) && k < |pipes| && pipes[k].data == [] && pipes[k].writers > 0
      modifies this`procs, this`suspCount, this`reviving
      ensures Valid() && |procs| == |old(procs)| && NoneOn(procs, k, true) && On(procs[i], k, false)
      ensures Released(old(procs)[i := procs[i]], procs, k, true)
        && procs[i] == Slept(old(procs)[i], k, Read(n), old(procs)[i].cum)
    {
      ghost var p0 := procs;
      var p := procs[i].(susp := true, rev := false, pipe := k, call := Read(n));
      assert ProcOk(procs, pipes, i);
      Changed(procs, i, p);
      suspCount := suspCount + 1;
      procs := procs[i := p];
      ghost var p1 := procs;
      MatchesAtMost(procs, k, true);
      if suspCount > 0 { Release(k, true, suspCount); }
      ghost var q := procs[i := p0[i]];
      assert Released(p0, q, k, true) by { assert !On(p, k, true) && !On(p0[i], k, true); }
      ReleaseGood(p0, q, pipes, k, true);
      SleepGood(q, pipes, i, p);
      assert q[i := p] == procs;
      assert forall j :: 0 <= j < |procs| ==> !On(procs[j], k, true);
    }

    // ---------- read ----------

    /** Reading from a pipe, for a new call or for one that has been revived. */
    method DoRead(i: nat, k: nat, n: nat) returns (reply: Reply, ghost got: seq<byte>)
      requires Valid() && Runs(i, End(k, false)) && k < |pipes|
      modifies this`procs, this`pipes, this`suspCount, this`reviving, this`delivered
      ensures Valid() && |procs| == |old(procs)| && |pipes| == |old(pipes)|
      ensures delivered == old(delivered)[k := old(delivered)[k] + got]
      ensures reply != EPIPE
      ensures reply == NoReply <==>
        n > 0 && old(pipes)[k].data == [] && old(pipes)[k].writers > 0 && !old(pipes)[k].rNonblock
      ensures reply == EAGAIN <==>
        n > 0 && old(pipes)[k].data == [] && old(pipes)[k].writers > 0 && old(pipes)[k].rNonblock
      ensures reply.Bytes? ==> |got| == (if n < Unread(old(pipes)[k]) then n else Unread(old(pipes)[k]))
      ensures reply.Bytes? && (n == 0 || Unread(old(pipes)[k]) == 0) ==> reply.n == 0
      ensures reply.Bytes? && n > 0 && Unread(old(pipes)[k]) > 0 ==> reply.n == old(procs)[i].cum + |got|
      ensures reply.Bytes? && got != [] ==> (reply.n == |got| <==> old(procs)[i].cum == 0)
      ensures pipes == old(pipes)[k := pipes[k]] && SameEnds(old(pipes)[k], pipes[k])
      ensures !reply.Bytes? ==> got == [] && NoneOn(procs, k, true) && pipes == old(pipes)
      ensures reply == NoReply ==>
        Released(old(procs)[i := procs[i]], procs, k, true)
        && procs[i] == Slept(old(procs)[i], k, Read(n), old(procs)[i].cum)
      ensures reply.Bytes? ==> procs == old(procs)[i := procs[i]]
      ensures reply == EAGAIN ==> Released(old(procs), procs, k, true)
      ensures reply != NoReply ==> procs[i] == old(procs)[i].(cum := procs[i].cum)
      ensures procs[i].cum == if reply.Bytes? && n > 0 && Unread(old(pipes)[k]) > 0 then 0 else old(procs)[i].cum
    {
      got := [];
      assert Stream(pipes, accepted, delivered, k) && PipeOk(pipes[k]) && ProcOk(procs, pipes, i);
      assert delivered[k] + [] == delivered[k];
      if n == 0 { return Bytes(0), []; }
      if pipes[k].rpos >= |pipes[k].data| {
        reply := Bytes(0);
        if pipes[k].writers > 0 {
          if pipes[k].rNonblock {
            reply := EAGAIN;
            MatchesAtMost(procs, k, true);
            Wake(k, true, suspCount);
          } else {
            reply := NoReply;
            SleepReader(i, k, n);
          }
        }
        return;
      }
      reply, got := Transfer(i, k, n);
    }

    /** The bytes that can be read. */
    static function Unread(pipe: Pipe): nat
    {
      if pipe.rpos <= |pipe.data| then |pipe.data| - pipe.rpos else 0
    }

    /** The transfer of a read; a pipe that has been drained starts at position 0 again. */
    method Transfer(i: nat, k: nat, n: nat) returns (reply: Reply, ghost got: seq<byte>)
      requires Valid() && Runs(i, End(k, false)) && k < |pipes| && n > 0 && pipes[k].rpos < |pipes[k].data|
      modifies this`procs, this`pipes, this`delivered
      ensures Valid() && |procs| == |old(procs)| && |pipes| == |old(pipes)|
      ensures delivered == old(delivered)[k := old(delivered)[k] + got]
      ensures |got| == (if n < Unread(old(pipes)[k]) then n else Unread(old(pipes)[k]))
        && reply == Bytes(old(procs)[i].cum + |got|)
      ensures procs == old(procs)[i := old(procs)[i].(cum := 0)]
      ensures pipes == old(pipes)[k := pipes[k]] && SameEnds(old(pipes)[k], pipes[k])
    {
      assert Stream(pipes, accepted, delivered, k) && PipeOk(pipes[k]) && ProcOk(procs, pipes, i);
      var pipe := pipes[k];
      var left := |pipe.data| - pipe.rpos;
      var m := if n < left then n else left;
      got := pipe.data[pipe.rpos..pipe.rpos + m];
      var position := pipe.rpos + m;
      if position >= |pipe.data| {
        pipe := pipe.(data := [], rpos := 0, wpos := if pipe.writers > 0 then 0 else pipe.wpos);
      } else {
        pipe := pipe.(rpos := position);
      }
      NoSleeper(procs, pipes, k);
      PipeGood(procs, pipes, k, pipe);
      assert pipes[k].data[pipes[k].rpos..] == got + pipe.data[pipe.rpos..];
      StreamStep(pipes, accepted, delivered, k, pipe, got);
      pipes := pipes[k := pipe];
      delivered := delivered[k := delivered[k] + got];
      reply := Bytes(procs[i].cum + m);
      SetCum(i, 0);
    }

    // ---------- write ----------

    /** Writing to a pipe, for a new call or for the rest of one that has been revived; n bytes are accepted now. */
    method DoWrite(i: nat, k: nat, data: seq<byte>) returns (reply: Reply, ghost n: nat)
      requires Valid() && Runs(i, End(k, true)) && k < |pipes|
      modifies this`procs, this`pipes, this`suspCount, this`reviving, this`accepted
      ensures Valid() && |procs| == |old(procs)| && |pipes| == |old(pipes)| && n <= |data|
      ensures accepted == old(accepted)[k := old(accepted)[k] + data[..n]]
      ensures WriteReply(old(pipes)[k], |data|, old(procs)[i].cum, n, reply)
      ensures reply == NoReply ==> procs[i] == Slept(old(procs)[i], k, Write(data[n..]), old(procs)[i].cum + n)
      ensures reply == NoReply && n == 0 ==>
        procs == old(procs)[i := procs[i]] && pipes == old(pipes) && pipes[k].data != []
      ensures pipes == old(pipes)[k := old(pipes)[k].(data := old(pipes)[k].data + data[..n],
        wpos := old(pipes)[k].wpos + n)]
      ensures reply in {EPIPE, EAGAIN} <==> Refused(old(pipes)[k], |data|)
      ensures reply.Bytes? && n > 0 ==> (reply.n == n <==> old(procs)[i].cum == 0)
      ensures Woken(old(procs), procs, k, i) && (reply != NoReply ==> procs[i] == old(procs)[i].(cum := procs[i].cum))
      ensures procs[i].cum == match reply
        case Bytes(_) => if data == [] then old(procs)[i].cum else 0
        case NoReply => old(procs)[i].cum + n
        case _ => old(procs)[i].cum
      ensures n > 0 ==> NoneOn(procs, k, false)
    {
      n := 0;
      assert Stream(pipes, accepted, delivered, k) && PipeOk(pipes[k]) && ProcOk(procs, pipes, i)
        && EndsOk(procs, pipes, k);
      HeldAtLeast(procs, i, End(k, true));
      assert accepted[k] + data[..0] == accepted[k];
      assert pipes[k].data + data[..0] == pipes[k].data;
      if data == [] { return Bytes(0), 0; }
      if pipes[k].readers == 0 { return EPIPE, 0; }
      var bytes, room, nonblock := |data|, PIPE_SIZE - pipes[k].wpos, pipes[k].wNonblock;
      if bytes > room {
        if nonblock && bytes < PIPE_SIZE {
          return EAGAIN, 0;
        }
        if bytes > PIPE_SIZE && room > 0 {
          reply := WritePart(i, k, data, room);
          n := room;
        } else if nonblock && bytes > PIPE_SIZE {
          reply := EAGAIN;
        } else {
          reply := NoReply;
          NoSleeper(procs, pipes, k);
          Suspend(i, k, Write(data));
          assert data[0..] == data;
        }
        return;
      }
      reply := WriteWhole(i, k, data);
      n := bytes;
      assert data[..n] == data;
    }

    /** A partial write: it wakes the readers and fills the pipe. */
    method WritePart(i: nat, k: nat, data: seq<byte>, room: nat) returns (reply: Reply)
      requires Valid() && Runs(i, End(k, true)) && k < |pipes| && pipes[k].readers > 0 && pipes[k].writers > 0
      requires room == PIPE_SIZE - pipes[k].wpos && 0 < room < |data|
      modifies this`procs, this`pipes, this`suspCount, this`reviving, this`accepted
      ensures Valid() && |procs| == |old(procs)| && |pipes| == |old(pipes)| && NoneOn(procs, k, false)
      ensures accepted == old(accepted)[k := old(accepted)[k] + data[..room]]
      ensures pipes == old(pipes)[k := old(pipes)[k].(data := old(pipes)[k].data + data[..room],
        wpos := old(pipes)[k].wpos + room)]
      ensures reply == if old(pipes)[k].wNonblock then Bytes(old(procs)[i].cum + room) else NoReply
      ensures procs[i] == if reply == NoReply
        then Slept(old(procs)[i], k, Write(data[room..]), old(procs)[i].cum + room)
        else old(procs)[i].(cum := 0)
      ensures Woken(old(procs), procs, k, i)
    {
      MatchesAtMost(procs, k, false);
      Wake(k, false, suspCount);
      Append(k, data[..room]);
      var cum := procs[i].cum + room;
      if pipes[k].wNonblock {
        reply := Bytes(cum);
        SetCum(i, 0);
      } else {
        reply := NoReply;
        SetCum(i, cum);
        Suspend(i, k, Write(data[room..]));
      }
    }

    /** A write that fits. */
    method WriteWhole(i: nat, k: nat, data: seq<byte>) returns (reply: Reply)
      requires Valid() && Runs(i, End(k, true)) && k < |pipes| && pipes[k].writers > 0
      requires data != [] && pipes[k].wpos + |data| <= PIPE_SIZE
      modifies this`procs, this`pipes, this`suspCount, this`reviving, this`accepted
      ensures Valid() && |procs| == |old(procs)| && |pipes| == |old(pipes)| && NoneOn(procs, k, false)
      ensures accepted == old(accepted)[k := old(accepted)[k] + data]
      ensures pipes == old(pipes)[k := old(pipes)[k].(data := old(pipes)[k].data + data,
        wpos := old(pipes)[k].wpos + |data|)]
      ensures reply == Bytes(old(procs)[i].cum + |data|) && procs[i] == old(procs)[i].(cum := 0)
      ensures Woken(old(procs), procs, k, i)
    {
      assert PipeOk(pipes[k]);
      if pipes[k].wpos == 0 {
        MatchesAtMost(procs, k, false);
        Wake(k, false, suspCount);
      } else {
        NoSleeper(procs, pipes, k);
      }
      Append(k, data);
      reply := Bytes(procs[i].cum + |data|);
      SetCum(i, 0);
    }

    /** The transfer of a write. */
    method Append(k: nat, bytes: seq<byte>)
      requires Valid() && k < |pipes| && pipes[k].writers > 0 && NoneOn(procs, k, false) && bytes != []
      requires pipes[k].wpos + |bytes| <= PIPE_SIZE
      modifies this`pipes, this`accepted
      ensures Valid() && accepted == old(accepted)[k := old(accepted)[k] + bytes]
      ensures pipes == old(pipes)[k := old(pipes)[k].(data := old(pipes)[k].data + bytes,
        wpos := old(pipes)[k].wpos + |bytes|)]
    {
      assert Stream(pipes, accepted, delivered, k) && PipeOk(pipes[k]);
      var pipe := pipes[k].(data := pipes[k].data + bytes, wpos := pipes[k].wpos + |bytes|);
      PipeGood(procs, pipes, k, pipe);
      StreamMore(pipes, accepted, delivered, k, pipe, bytes);
      pipes := pipes[k := pipe];
      accepted := accepted[k := accepted[k] + bytes];
    }

    // ---------- descriptors ----------

    /** do_pipe, when descriptors and an inode are to be had. */
    method NewPipe(i: nat) returns (k: nat)
      requires Valid() && i < |procs| && !procs[i].susp
      modifies this`procs, this`pipes, this`accepted, this`delivered
      ensures Valid() && |procs| == |old(procs)| && k == |old(pipes)| && pipes == old(pipes) + [NEW_PIPE]
      ensures Runs(i, End(k, false)) && Runs(i, End(k, true))
      ensures accepted == old(accepted) + [[]] && delivered == old(delivered) + [[]]
      ensures procs == old(procs)[i := old(procs)[i].(fds := old(procs)[i].fds + multiset{End(k, false), End(k, true)})]
    {
      k := |pipes|;
      var p := procs[i].(fds := procs[i].fds + multiset{End(k, false), End(k, true)});
      NewPipeGood(procs, pipes, i, p);
      Changed(procs, i, p);
      StreamsNew(pipes, accepted, delivered);
      procs := procs[i := p];
      pipes := pipes + [NEW_PIPE];
      accepted, delivered := accepted + [[]], delivered + [[]];
    }

    /** do_dup, and each round of do_fork: one more descriptor for an end that is open. */
    method Share(i: nat, e: End)
      requires Valid() && i < |procs| && !procs[i].susp && e.pipe < |pipes| && EndCount(pipes[e.pipe], e.write) > 0
      modifies this`procs, this`pipes
      ensures Valid() && Runs(i, e) && procs == old(procs)[i := old(procs)[i].(fds := old(procs)[i].fds + multiset{e})]
      ensures pipes == old(pipes)[e.pipe := WithCount(old(pipes)[e.pipe], e.write,
        EndCount(old(pipes)[e.pipe], e.write) + 1)]
    {
      var p := procs[i].(fds := procs[i].fds + multiset{e});
      var pipe := WithCount(pipes[e.pipe], e.write, EndCount(pipes[e.pipe], e.write) + 1);
      DescriptorGood(procs, pipes, i, p, e, pipe);
      Changed(procs, i, p);
      StreamsKept(pipes, accepted, delivered, e.pipe, pipe);
      procs := procs[i := p];
      pipes := pipes[e.pipe := pipe];
    }

    /**
     do_close of a descriptor for a pipe: everyone who sleeps at the other end is woken before the
     count goes down.
     */
    method Close(i: nat, e: End)
      requires Valid() && Runs(i, e) && e.pipe < |pipes|
      modifies this`procs, this`pipes, this`suspCount, this`reviving
      ensures Valid() && |procs| == |old(procs)| && NoneOn(procs, e.pipe, !e.write)
      ensures procs[i] == old(procs)[i].(fds := old(procs)[i].fds - multiset{e})
      ensures Released(old(procs), procs[i := old(procs)[i]], e.pipe, !e.write)
      ensures EndCount(old(pipes)[e.pipe], e.write) > 0
      ensures pipes == old(pipes)[e.pipe := WithCount(old(pipes)[e.pipe], e.write,
        EndCount(old(pipes)[e.pipe], e.write) - 1)]
    {
      MatchesAtMost(procs, e.pipe, !e.write);
      ghost var p0 := procs;
      Wake(e.pipe, !e.write, |procs|);
      ghost var p1 := procs;
      LetGo(i, e);
      assert procs[i := p0[i]] == p1;
    }

    /** The descriptor goes, once nobody sleeps at the other end. */
    method LetGo(i: nat, e: End)
      requires Valid() && Runs(i, e) && e.pipe < |pipes| && NoneOn(procs, e.pipe, !e.write)
      modifies this`procs, this`pipes
      ensures Valid() && procs == old(procs)[i := old(procs)[i].(fds := old(procs)[i].fds - multiset{e})]
      ensures EndCount(old(pipes)[e.pipe], e.write) > 0 && NoneOn(procs, e.pipe, !e.write)
      ensures pipes == old(pipes)[e.pipe := WithCount(old(pipes)[e.pipe], e.write,
        EndCount(old(pipes)[e.pipe], e.write) - 1)]
    {
      assert EndsOk(procs, pipes, e.pipe);
      HeldAtLeast(procs, i, e);
      var p := procs[i].(fds := procs[i].fds - multiset{e});
      var pipe := WithCount(pipes[e.pipe], e.write, EndCount(pipes[e.pipe], e.write) - 1);
      DescriptorGood(procs, pipes, i, p, e, pipe);
      Changed(procs, i, p);
      StreamsKept(pipes, accepted, delivered, e.pipe, pipe);
      procs := procs[i := p];
      pipes := pipes[e.pipe := pipe];
    }

    /** fcntl(F_SETFL): the O_NONBLOCK flag of an end. */
    method SetFlags(e: End, nonblock: bool)
      requires Valid() && e.pipe < |pipes|
      modifies this`pipes
      ensures Valid()
      ensures pipes == old(pipes)[e.pipe := if e.write then old(pipes)[e.pipe].(wNonblock := nonblock)
        else old(pipes)[e.pipe].(rNonblock := nonblock)]
    {
      var pipe := pipes[e.pipe];
      pipe := if e.write then pipe.(wNonblock := nonblock) else pipe.(rNonblock := nonblock);
      assert PipeOk(pipes[e.pipe]);
      if pipe.data != [] { NoSleeper(procs, pipes, e.pipe); }
      PipeGood(procs, pipes, e.pipe, pipe);
      StreamsKept(pipes, accepted, delivered, e.pipe, pipe);
      pipes := pipes[e.pipe := pipe];
    }

    // ---------- get_work ----------

    /** The revival half of get_work: while anyone is being revived there is a process to resume, so it never panics. */
    method GetWork() returns (i: nat)
      requires Valid() && reviving != 0
      modifies this`procs, this`reviving
      ensures Valid() && i < |procs| == |old(procs)| && old(procs)[i].rev && reviving == old(reviving) - 1
      ensures procs == old(procs)[i := old(procs)[i].(susp := false, rev := false)]
      ensures procs[i].pipe < |pipes| && Runs(i, End(procs[i].pipe, procs[i].call.Write?))
      ensures forall j :: 0 <= j < i ==> !old(procs)[j].rev
    {
      SomeWaking(procs);
      i := 0;
      while !procs[i].rev
        invariant i < |procs| && forall j :: 0 <= j < i ==> !procs[j].rev
        decreases |procs| - i
      {
        i := i + 1;
      }
      ResumeGood(procs, pipes, i);
      Changed(procs, i, procs[i].(susp := false, rev := false));
      reviving := reviving - 1;
      procs := procs[i := procs[i].(susp := false, rev := false)];
    }

    /** fp_cum_io_partial */
    method SetCum(i: nat, cum: nat)
      requires Valid() && i < |procs| && !procs[i].susp
      modifies this`procs
      ensures Valid() && procs == old(procs)[i := old(procs)[i].(cum := cum)]
    {
      assert ProcOk(procs, pipes, i);
      AwakeGood(procs, pipes, i, procs[i].(cum := cum));
      Changed(procs, i, procs[i].(cum := cum));
      procs := procs[i := procs[i].(cum := cum)];
    }
  }

  /** Taking one more descriptor for an end, or the two ends of a new pipe, changes no stream. */
  lemma StreamsKept(pipes: seq<Pipe>, accepted: seq<seq<byte>>, delivered: seq<seq<byte>>, k: nat, pipe: Pipe)
    requires Streams(pipes, accepted, delivered) && k < |pipes| && pipe.data == pipes[k].data
      && pipe.rpos == pipes[k].rpos
    ensures Streams(pipes[k := pipe], accepted, delivered)
  {
    var q := pipes[k := pipe];
    forall m | 0 <= m < |q| ensures Stream(q, accepted, delivered, m) { assert Stream(pipes, accepted, delivered, m); }
  }

  lemma StreamsNew(pipes: seq<Pipe>, accepted: seq<seq<byte>>, delivered: seq<seq<byte>>)
    requires Streams(pipes, accepted, delivered)
    ensures Streams(pipes + [NEW_PIPE], accepted + [[]], delivered + [[]])
  {
    var q, a, d := pipes + [NEW_PIPE], accepted + [[]], delivered + [[]];
    forall m | 0 <= m < |q| ensures Stream(q, a, d, m) {
      if m < |pipes| { assert Stream(pipes, accepted, delivered, m); }
    }
  }

  /** A process resumes its call. */
  lemma ResumeGood(p0: seq<Proc>, pipes: seq<Pipe>, i: nat)
    requires Good(p0, pipes) && i < |p0| && p0[i].rev
    ensures Good(p0[i := p0[i].(susp := false, rev := false)], pipes) && p0[i].susp
    ensures p0[i].pipe < |pipes| && p0[i].fds[End(p0[i].pipe, p0[i].call.Write?)] > 0
  {
    assert ProcOk(p0, pipes, i);
    AwakeGood(p0, pipes, i, p0[i].(susp := false, rev := false));
  }

  /** A pipe that holds bytes has no sleeping reader. */
  lemma NoSleeper(procs: seq<Proc>, pipes: seq<Pipe>, k: nat)
    requires Good(procs, pipes) && k < |pipes| && pipes[k].data != []
    ensures NoneOn(procs, k, false)
  {
    forall i | 0 <= i < |procs| ensures !On(procs[i], k, false) { assert SleepOk(procs, pipes, i); }
  }

  /** A write of that many bytes is turned away: nobody can read the pipe, or it would have to wait and must not. */
  predicate Refused(pipe: Pipe, bytes: nat) {
    bytes > 0 && (pipe.readers == 0 ||
      (pipe.wNonblock && pipe.wpos + bytes > PIPE_SIZE
        && (bytes < PIPE_SIZE || (bytes > PIPE_SIZE && pipe.wpos == PIPE_SIZE))))
  }

  /** The counts and flags of the ends are as before. */
  predicate SameEnds(p: Pipe, q: Pipe) {
    q.readers == p.readers && q.writers == p.writers && q.rNonblock == p.rNonblock && q.wNonblock == p.wNonblock
  }

  /** What a write of `bytes` bytes replies; cum bytes of it were written before the process was suspended. */
  ghost predicate WriteReply(pipe: Pipe, bytes: nat, cum: nat, n: nat, reply: Reply) {
    // "true ==" makes this one fact to prove, not one for each part.
    true == (
      && (bytes == 0 ==> reply == Bytes(0)) && (reply == NoReply ==> n < bytes)
      && (reply == EPIPE <==> bytes > 0 && pipe.readers == 0) && (reply == EPIPE ==> n == 0)
      && (reply == EAGAIN ==> n == 0 && pipe.wNonblock && bytes != PIPE_SIZE && pipe.wpos + bytes > PIPE_SIZE)
      && (reply.Bytes? && bytes > 0 ==> reply.n == cum + n && n > 0)
      && (reply.Bytes? && !pipe.wNonblock ==> n == bytes)
      && (0 < n < bytes ==> bytes > PIPE_SIZE && pipe.wpos + n == PIPE_SIZE && (reply == NoReply <==> !pipe.wNonblock))
      && (reply == NoReply && n == 0 ==> pipe.wpos + bytes > PIPE_SIZE && (pipe.wNonblock ==> bytes == PIPE_SIZE))
      && (pipe.readers > 0 && pipe.wpos + bytes <= PIPE_SIZE ==> n == bytes)
      && (pipe.readers > 0 && bytes > PIPE_SIZE && pipe.wpos < PIPE_SIZE ==> pipe.wpos + n == PIPE_SIZE)
      && (n == 0 && bytes > 0 && pipe.readers > 0 ==> reply == if pipe.wNonblock && bytes != PIPE_SIZE then EAGAIN
        else NoReply))
  }

  lemma StreamMore(pipes: seq<Pipe>, accepted: seq<seq<byte>>, delivered: seq<seq<byte>>, k: nat, pipe: Pipe,
                   bytes: seq<byte>)
    requires Streams(pipes, accepted, delivered) && k < |pipes|
      && pipe == pipes[k].(data := pipes[k].data + bytes, wpos := pipe.wpos)
    ensures Streams(pipes[k := pipe], accepted[k := accepted[k] + bytes], delivered)
  {
    var q, a := pipes[k := pipe], accepted[k := accepted[k] + bytes];
    forall m | 0 <= m < |q| ensures Stream(q, a, delivered, m) {
      assert Stream(pipes, accepted, delivered, m);
      if m == k {
        assert pipe.data[pipe.rpos..] == pipes[k].data[pipes[k].rpos..] + bytes;
        assert delivered[k] + (pipes[k].data[pipes[k].rpos..] + bytes) == a[k];
      }
    }
  }

  /** Bytes taken from the front of a pipe. */
  lemma StreamStep(pipes: seq<Pipe>, accepted: seq<seq<byte>>, delivered: seq<seq<byte>>, k: nat, pipe: Pipe,
                   got: seq<byte>)
    requires Streams(pipes, accepted, delivered) && k < |pipes| && pipe.rpos <= |pipe.data|
      && pipes[k].rpos <= |pipes[k].data|
    requires pipes[k].data[pipes[k].rpos..] == got + pipe.data[pipe.rpos..]
    ensures Streams(pipes[k := pipe], accepted, delivered[k := delivered[k] + got])
  {
    var q, d := pipes[k := pipe], delivered[k := delivered[k] + got];
    forall m | 0 <= m < |q| ensures Stream(q, accepted, d, m) {
      assert Stream(pipes, accepted, delivered, m);
      if m == k { assert delivered[k] + (got + pipe.data[pipe.rpos..]) == d[k] + pipe.data[pipe.rpos..]; }
    }
  }

  lemma {:induction false} NoneCounted(procs: seq<Proc>)
    requires forall i :: 0 <= i < |procs| ==> !procs[i].susp && !procs[i].rev
    ensures Sleeping(procs) == 0 && Waking(procs) == 0
  {
    if procs != [] { NoneCounted(procs[1..]); }
  }
}
