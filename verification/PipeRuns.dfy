/** Runs of the pipe protocol: the revival loop comes to an end, and what calls return when processes resume. */
module PipeRuns {
  import opened Base
  import opened Pipes

  // ---------- the revival loop ends ----------

  function Suspended(procs: seq<Proc>): nat {
    if procs == [] then 0 else (if procs[0].susp then 1 else 0) + Suspended(procs[1..])
  }

  function Pending(p: Proc): nat {
    if p.susp && p.call.Write? then |p.call.data| else 0
  }

  /** The bytes that suspended writers have yet to write. */
  function Remaining(procs: seq<Proc>): nat {
    if procs == [] then 0 else Pending(procs[0]) + Remaining(procs[1..])
  }

  /** A writer that sleeps although its pipe is empty. */
  predicate StuckOne(p: Proc, pipes: seq<Pipe>) {
    Asleep(p) && p.call.Write? && p.pipe < |pipes| && pipes[p.pipe].data == []
  }

  function Stuck(procs: seq<Proc>, pipes: seq<Pipe>): nat {
    if procs == [] then 0 else (if StuckOne(procs[0], pipes) then 1 else 0) + Stuck(procs[1..], pipes)
  }

  lemma {:induction false} OneChanged(procs: seq<Proc>, pipes: seq<Pipe>, i: nat, p: Proc)
    requires i < |procs|
    ensures Suspended(procs[i := p]) == Suspended(procs) + (if p.susp then 1 else 0) - (if procs[i].susp then 1 else 0)
    ensures Remaining(procs[i := p]) == Remaining(procs) + Pending(p) - Pending(procs[i])
    ensures Stuck(procs[i := p], pipes) == Stuck(procs, pipes)
      + (if StuckOne(p, pipes) then 1 else 0) - (if StuckOne(procs[i], pipes) then 1 else 0)
  {
    if i > 0 {
      OneChanged(procs[1..], pipes, i - 1, p);
      assert procs[i := p][1..] == procs[1..][i - 1 := p];
    } else {
      assert procs[i := p][1..] == procs[1..];
    }
  }

  /** Waking processes does not change what is suspended and what is left to write. */
  lemma {:induction false} SameCalls(p0: seq<Proc>, p1: seq<Proc>)
    requires |p0| == |p1| && forall j :: 0 <= j < |p0| ==> p1[j].susp == p0[j].susp && p1[j].call == p0[j].call
    ensures Suspended(p1) == Suspended(p0) && Remaining(p1) == Remaining(p0)
  {
    if p0 != [] { SameCalls(p0[1..], p1[1..]); }
  }

  /** Waking the writers of an empty pipe: fewer are stuck, or there was none to wake. */
  lemma {:induction false} FewerStuck(p0: seq<Proc>, p1: seq<Proc>, pipes: seq<Pipe>, k: nat)
    requires Released(p0, p1, k, true) && k < |pipes| && pipes[k].data == []
    ensures Stuck(p1, pipes) < Stuck(p0, pipes) || (p1 == p0 && Stuck(p1, pipes) == Stuck(p0, pipes))
  {
    if p0 != [] {
      FewerStuck(p0[1..], p1[1..], pipes, k);
      assert p0 == [p0[0]] + p0[1..] && p1 == [p1[0]] + p1[1..];
    }
  }

  /** What falls with every round of the revival loop. */
  ghost predicate Less(p0: seq<Proc>, q0: seq<Pipe>, p1: seq<Proc>, q1: seq<Pipe>) {
    || Suspended(p1) < Suspended(p0)
    || (Suspended(p1) == Suspended(p0) && Remaining(p1) < Remaining(p0))
    || (Suspended(p1) == Suspended(p0) && Remaining(p1) == Remaining(p0) && Stuck(p1, q1) < Stuck(p0, q0))
    || (Suspended(p1) == Suspended(p0) && Remaining(p1) == Remaining(p0) && Stuck(p1, q1) == Stuck(p0, q0)
      && Waking(p1) < Waking(p0))
  }

  /** A resumed call that replies leaves one process fewer suspended. */
  lemma Replied(p0: seq<Proc>, q0: seq<Pipe>, p1: seq<Proc>, q1: seq<Pipe>, i: nat)
    requires i < |p0| == |p1| && p0[i].susp && !p1[i].susp
    requires forall j :: 0 <= j < |p0| && j != i ==> p1[j].susp == p0[j].susp && p1[j].call == p0[j].call
    ensures Less(p0, q0, p1, q1)
  {
    var mid := p0[i := p1[i]];
    OneChanged(p0, q0, i, p1[i]);
    SameCalls(mid, p1);
  }

  /** A resumed write that goes back to sleep after n more bytes. */
  lemma PartWritten(p0: seq<Proc>, q0: seq<Pipe>, p1: seq<Proc>, q1: seq<Pipe>, i: nat)
    requires i < |p0| == |p1| && p0[i].susp && p1[i].susp && p0[i].call.Write? && p1[i].call.Write?
      && |p1[i].call.data| < |p0[i].call.data|
    requires forall j :: 0 <= j < |p0| && j != i ==> p1[j].susp == p0[j].susp && p1[j].call == p0[j].call
    ensures Less(p0, q0, p1, q1)
  {
    var mid := p0[i := p1[i]];
    OneChanged(p0, q0, i, p1[i]);
    SameCalls(mid, p1);
  }

  /** A resumed write that finds no room. */
  lemma NoRoom(p0: seq<Proc>, q: seq<Pipe>, p1: seq<Proc>, i: nat)
    requires i < |p0| == |p1| && p0[i].rev && p0[i].susp && p1 == p0[i := p1[i]] && p1[i] == p0[i].(rev := false)
    requires p0[i].call.Write? && p0[i].pipe < |q| && q[p0[i].pipe].data != []
    ensures Less(p0, q, p1, q)
  {
    OneChanged(p0, q, i, p1[i]);
    Changed(p0, i, p1[i]);
  }

  /** A resumed read that finds its pipe empty again. */
  lemma StillEmpty(p0: seq<Proc>, q: seq<Pipe>, p1: seq<Proc>, i: nat, k: nat)
    requires i < |p0| == |p1| && p0[i].rev && p0[i].susp && p0[i].call.Read? && p1[i] == p0[i].(rev := false)
      && k == p0[i].pipe < |q| && q[k].data == []
    requires Released(p0[i := p1[i]], p1, k, true)
    ensures Less(p0, q, p1, q)
  {
    var mid := p0[i := p1[i]];
    OneChanged(p0, q, i, p1[i]);
    Changed(p0, i, p1[i]);
    SameCalls(mid, p1);
    FewerStuck(mid, p1, q, k);
  }

  // ---------- what calls are told, and what has been moved ----------

  /** A reply that process i has been given. */
  datatype Answer = Answer(i: nat, reply: Reply)

  function Amount(reply: Reply): nat { if reply.Bytes? then reply.n else 0 }

  /** The sum of the numbers that calls were told. */
  function Told(log: seq<Answer>): nat {
    if log == [] then 0 else Told(log[..|log| - 1]) + Amount(log[|log| - 1].reply)
  }

  lemma {:induction false} ToldBoth(a: seq<Answer>, b: seq<Answer>)
    ensures Told(a + b) == Told(a) + Told(b)
  {
    if b == [] {
      assert a + b == a;
    } else {
      ToldBoth(a, b[..|b| - 1]);
      assert (a + b)[..|a + b| - 1] == a + b[..|b| - 1];
    }
  }

  function Counts(procs: seq<Proc>): nat {
    if procs == [] then 0 else procs[0].cum + Counts(procs[1..])
  }

  function Sizes(streams: seq<seq<byte>>): nat {
    if streams == [] then 0 else |streams[0]| + Sizes(streams[1..])
  }

  lemma {:induction false} CountChanged(procs: seq<Proc>, i: nat, p: Proc)
    requires i < |procs|
    ensures Counts(procs[i := p]) == Counts(procs) + p.cum - procs[i].cum
  {
    if i > 0 {
      CountChanged(procs[1..], i - 1, p);
      assert procs[i := p][1..] == procs[1..][i - 1 := p];
    } else {
      assert procs[i := p][1..] == procs[1..];
    }
  }

  lemma {:induction false} SameCounts(p0: seq<Proc>, p1: seq<Proc>)
    requires |p0| == |p1| && forall j :: 0 <= j < |p0| ==> p1[j].cum == p0[j].cum
    ensures Counts(p1) == Counts(p0)
  {
    if p0 != [] { SameCounts(p0[1..], p1[1..]); }
  }

  lemma {:induction false} NoCounts(procs: seq<Proc>)
    requires forall j :: 0 <= j < |procs| ==> procs[j] == IDLE
    ensures Counts(procs) == 0
  {
    if procs != [] { NoCounts(procs[1..]); }
  }

  lemma {:induction false} SizeGrown(streams: seq<seq<byte>>, k: nat, more: seq<byte>)
    requires k < |streams|
    ensures Sizes(streams[k := streams[k] + more]) == Sizes(streams) + |more|
  {
    if k > 0 {
      SizeGrown(streams[1..], k - 1, more);
      assert streams[k := streams[k] + more][1..] == streams[1..][k - 1 := streams[1..][k - 1] + more];
    } else {
      assert streams[k := streams[k] + more][1..] == streams[1..];
    }
  }

  lemma {:induction false} SizeNew(streams: seq<seq<byte>>)
    ensures Sizes(streams + [[]]) == Sizes(streams)
  {
    if streams != [] {
      SizeNew(streams[1..]);
      assert (streams + [[]])[1..] == streams[1..] + [[]];
    }
  }

  /** The bytes moved into and out of pipes, but for those that partial counts stand for. */
  ghost function Moved(procs: seq<Proc>, accepted: seq<seq<byte>>, delivered: seq<seq<byte>>): int {
    Sizes(accepted) + Sizes(delivered) - Counts(procs)
  }

  /** A call of process i has moved n bytes: they are told, or added to its partial count. */
  ghost predicate OneCounted(p0: seq<Proc>, p1: seq<Proc>, i: nat, n: nat, reply: Reply) {
    true == (
      && i < |p0| == |p1| && p1[i].cum + Amount(reply) == p0[i].cum + n
      && forall j :: 0 <= j < |p0| && j != i ==> p1[j].cum == p0[j].cum)
  }

  lemma CallCounted(p0: seq<Proc>, p1: seq<Proc>, i: nat, n: nat, reply: Reply)
    requires OneCounted(p0, p1, i, n, reply)
    ensures Counts(p1) + Amount(reply) == Counts(p0) + n
  {
    CountChanged(p0, i, p1[i]);
    SameCounts(p0[i := p1[i]], p1);
  }

  lemma ReadMoved(p0: seq<Proc>, p1: seq<Proc>, accepted: seq<seq<byte>>, d0: seq<seq<byte>>, d1: seq<seq<byte>>,
                  i: nat, k: nat, got: seq<byte>, reply: Reply)
    requires OneCounted(p0, p1, i, |got|, reply) && k < |d0| && d1 == d0[k := d0[k] + got]
    ensures Moved(p1, accepted, d1) == Moved(p0, accepted, d0) + Amount(reply)
  {
    CallCounted(p0, p1, i, |got|, reply);
    SizeGrown(d0, k, got);
  }

  lemma WriteMoved(p0: seq<Proc>, p1: seq<Proc>, a0: seq<seq<byte>>, a1: seq<seq<byte>>, delivered: seq<seq<byte>>,
                   i: nat, k: nat, data: seq<byte>, n: nat, reply: Reply)
    requires n <= |data| && OneCounted(p0, p1, i, n, reply) && k < |a0| && a1 == a0[k := a0[k] + data[..n]]
    ensures Moved(p1, a1, delivered) == Moved(p0, a0, delivered) + Amount(reply)
  {
    CallCounted(p0, p1, i, n, reply);
    SizeGrown(a0, k, data[..n]);
  }

  // ---------- fp_cum_io_partial ----------

  /** The partial count of a process is zero unless it is suspended in the middle of a write. */
  ghost predicate CumOk(procs: seq<Proc>) {
    forall i :: 0 <= i < |procs| && procs[i].cum > 0 ==> procs[i].susp && procs[i].call.Write?
  }

  /** The process is in the middle of a write that is going to be turned away: its partial count stays behind. */
  ghost predicate LosesCount(p: Proc, pipes: seq<Pipe>) {
    p.cum > 0 && p.call.Write? && p.pipe < |pipes| && Refused(pipes[p.pipe], |p.call.data|)
  }

  /** The process that get_work is going to resume. */
  ghost predicate FirstRevived(procs: seq<Proc>, i: nat) {
    i < |procs| && procs[i].rev && forall j :: 0 <= j < i ==> !procs[j].rev
  }

  /** No write is larger than the pipe, so none is ever split. */
  ghost predicate Small(procs: seq<Proc>) {
    forall i ::
      0 <= i < |procs| ==>
      procs[i].cum == 0 && (procs[i].susp && procs[i].call.Write? ==> |procs[i].call.data| <= PIPE_SIZE)
  }

  ghost predicate SamePipeEnds(q0: seq<Pipe>, q1: seq<Pipe>) {
    |q1| == |q0| && forall k :: 0 <= k < |q0| ==> SameEnds(q0[k], q1[k])
  }

  /** Every pipe can be read, and writers may wait. */
  ghost predicate AllOpen(pipes: seq<Pipe>) {
    forall k :: 0 <= k < |pipes| ==> pipes[k].readers > 0 && !pipes[k].wNonblock
  }

  /** One round of the main loop while processes are being revived. */
  method ResumeOne(s: Server) returns (i: nat, reply: Reply)
    requires s.Valid() && s.reviving != 0
    modifies s
    ensures s.Valid() && i < |s.procs| == |old(s.procs)| && |s.pipes| == |old(s.pipes)|
    ensures Less(old(s.procs), old(s.pipes), s.procs, s.pipes)
    ensures FirstRevived(old(s.procs), i)
    ensures CumOk(old(s.procs)) ==> (CumOk(s.procs) <==> !LosesCount(old(s.procs)[i], old(s.pipes)))
    ensures SamePipeEnds(old(s.pipes), s.pipes) && (Small(old(s.procs)) ==> Small(s.procs))
    ensures Moved(s.procs, s.accepted, s.delivered) == old(Moved(s.procs, s.accepted, s.delivered)) + Amount(reply)
  {
    ghost var p0, q0 := s.procs, s.pipes;
    i := s.GetWork();
    SameCounts(p0, s.procs);
    assert ProcOk(p0, q0, i) by { assert Good(p0, q0); }
    if s.procs[i].call.Read? {
      reply := ResumeRead(s, i, p0);
    } else {
      reply := ResumeWrite(s, i, p0);
    }
  }

  /** The state in which get_work hands back process i. */
  ghost predicate Taken(s: Server, i: nat, p0: seq<Proc>)
    reads s
  {
    && s.Valid() && i < |p0| && p0[i].rev && p0[i].susp && s.procs == p0[i := p0[i].(susp := false, rev := false)]
    && p0[i].pipe < |s.pipes| && s.Runs(i, End(p0[i].pipe, p0[i].call.Write?))
    && (p0[i].call.Write? ==> p0[i].call.data != [])
  }

  method ResumeRead(s: Server, i: nat, ghost p0: seq<Proc>) returns (reply: Reply)
    requires Taken(s, i, p0) && p0[i].call.Read?
    modifies s
    ensures s.Valid() && |s.procs| == |p0| && |s.pipes| == |old(s.pipes)| && Less(p0, old(s.pipes), s.procs, s.pipes)
    ensures CumOk(p0) ==> CumOk(s.procs) && p0[i].cum == 0
    ensures SamePipeEnds(old(s.pipes), s.pipes) && (Small(p0) ==> Small(s.procs))
    ensures Moved(s.procs, s.accepted, s.delivered) == old(Moved(s.procs, s.accepted, s.delivered)) + Amount(reply)
  {
    ghost var q0, p1, d0 := s.pipes, s.procs, s.delivered;
    var p := s.procs[i];
    ghost var got;
    reply, got := s.DoRead(i, p.pipe, p.call.n);
    forall j | 0 <= j < |p0| && j != i
      ensures s.procs[j].susp == p0[j].susp && s.procs[j].call == p0[j].call && s.procs[j].cum == p0[j].cum
    {
      assert p1[j] == p0[j];
    }
    ReadMoved(p1, s.procs, s.accepted, d0, s.delivered, i, p.pipe, got, reply);
    if reply == NoReply {
      assert s.procs[i] == p0[i].(rev := false);
      assert p0[i := s.procs[i]] == p0[i := p][i := s.procs[i]];
      StillEmpty(p0, q0, s.procs, i, p.pipe);
    } else {
      Replied(p0, q0, s.procs, s.pipes, i);
    }
  }

  method ResumeWrite(s: Server, i: nat, ghost p0: seq<Proc>) returns (reply: Reply)
    requires Taken(s, i, p0) && p0[i].call.Write?
    modifies s
    ensures s.Valid() && |s.procs| == |p0| && |s.pipes| == |old(s.pipes)| && Less(p0, old(s.pipes), s.procs, s.pipes)
    ensures CumOk(p0) ==> (CumOk(s.procs) <==> !LosesCount(p0[i], old(s.pipes)))
    ensures SamePipeEnds(old(s.pipes), s.pipes) && (Small(p0) ==> Small(s.procs))
    ensures Moved(s.procs, s.accepted, s.delivered) == old(Moved(s.procs, s.accepted, s.delivered)) + Amount(reply)
  {
    ghost var q0, p1, a0 := s.pipes, s.procs, s.accepted;
    var p := s.procs[i];
    ghost var n;
    reply, n := s.DoWrite(i, p.pipe, p.call.data);
    WriteMoved(p1, s.procs, a0, s.accepted, s.delivered, i, p.pipe, p.call.data, n, reply);
    if reply != NoReply {
      Replied(p0, q0, s.procs, s.pipes, i);
    } else if n > 0 {
      PartWritten(p0, q0, s.procs, s.pipes, i);
    } else {
      assert p.call.data[0..] == p.call.data;
      assert s.procs[i] == p0[i].(rev := false);
      assert s.procs == p0[i := s.procs[i]];
      NoRoom(p0, q0, s.procs, i);
    }
  }

  /** The main loop resumes processes until none is being revived; it gets there. */
  method Drain(s: Server) returns (log: seq<Answer>)
    requires s.Valid()
    modifies s
    ensures s.Valid() && s.reviving == 0 && |s.procs| == |old(s.procs)| && SamePipeEnds(old(s.pipes), s.pipes)
    ensures Small(old(s.procs)) ==> Small(s.procs)
    ensures CumOk(old(s.procs)) && AllOpen(old(s.pipes)) ==> CumOk(s.procs)
    ensures Moved(s.procs, s.accepted, s.delivered) == old(Moved(s.procs, s.accepted, s.delivered)) + Told(log)
  {
    log := [];
    while s.reviving != 0
      invariant s.Valid() && |s.procs| == |old(s.procs)| && SamePipeEnds(old(s.pipes), s.pipes)
      invariant Small(old(s.procs)) ==> Small(s.procs)
      invariant CumOk(old(s.procs)) && AllOpen(old(s.pipes)) ==> CumOk(s.procs)
      invariant Moved(s.procs, s.accepted, s.delivered) == old(Moved(s.procs, s.accepted, s.delivered)) + Told(log)
      decreases Suspended(s.procs), Remaining(s.procs), Stuck(s.procs, s.pipes), Waking(s.procs)
    {
      var i, reply := ResumeOne(s);
      log := log + [Answer(i, reply)];
    }
  }

  // ---------- runs ----------

  datatype Request = PipeCall(i: nat) | ReadCall(i: nat, k: nat, n: nat) | WriteCall(i: nat, k: nat, data: seq<byte>)
                   | CloseCall(i: nat, e: End) | ShareCall(i: nat, e: End) | FlagsCall(e: End, nonblock: bool)

  /** A request that a running process can make. */
  predicate CanMake(procs: seq<Proc>, pipes: seq<Pipe>, r: Request) {
    match r
    case PipeCall(i) => i < |procs| && !procs[i].susp
    case ReadCall(i, k, _) => i < |procs| && !procs[i].susp && k < |pipes| && procs[i].fds[End(k, false)] > 0
    case WriteCall(i, k, _) => i < |procs| && !procs[i].susp && k < |pipes| && procs[i].fds[End(k, true)] > 0
    case CloseCall(i, e) => i < |procs| && !procs[i].susp && e.pipe < |pipes| && procs[i].fds[e] > 0
    case ShareCall(i, e) => i < |procs| && !procs[i].susp && e.pipe < |pipes| && EndCount(pipes[e.pipe], e.write) > 0
    case FlagsCall(e, _) => e.pipe < |pipes|
  }

  /** Who makes the request; for the flags of an end it does not matter. */
  function Caller(r: Request): nat { if r.FlagsCall? then 0 else r.i }

  /** No write is larger than the pipe. */
  predicate FitsPipe(r: Request) { r.WriteCall? ==> |r.data| <= PIPE_SIZE }

  /** No descriptor for the reading end is closed, and no writer is told not to wait. */
  predicate Patient(r: Request) {
    (r.CloseCall? ==> r.e.write) && (r.FlagsCall? && r.e.write ==> !r.nonblock)
  }

  /**
   What a call moves and what it replies: with no count left over from an earlier write, the reply
   is what was moved.
   */
  method Serve(s: Server, r: Request) returns (reply: Reply, ghost moved: nat)
    requires s.Valid() && CanMake(s.procs, s.pipes, r)
    modifies s
    ensures s.Valid() && |s.procs| == |old(s.procs)|
    ensures (r.ReadCall? || r.WriteCall?) && reply.Bytes? && moved > 0 ==>
      (reply.n == moved <==> old(s.procs)[r.i].cum == 0)
    ensures CumOk(old(s.procs)) ==> CumOk(s.procs) && (reply.Bytes? ==> reply.n == moved)
    ensures Small(old(s.procs)) && FitsPipe(r) ==> Small(s.procs)
    ensures AllOpen(old(s.pipes)) && Patient(r) ==> AllOpen(s.pipes)
    ensures Moved(s.procs, s.accepted, s.delivered) == old(Moved(s.procs, s.accepted, s.delivered)) + Amount(reply)
  {
    match r {
      case ReadCall(i, k, n) => reply, moved := ServeRead(s, i, k, n);
      case WriteCall(i, k, data) => reply, moved := ServeWrite(s, i, k, data);
      case _ =>
        reply, moved := NoReply, 0;
        ServeOther(s, r);
    }
  }

  method ServeRead(s: Server, i: nat, k: nat, n: nat) returns (reply: Reply, ghost moved: nat)
    requires s.Valid() && CanMake(s.procs, s.pipes, ReadCall(i, k, n))
    modifies s
    ensures s.Valid() && |s.procs| == |old(s.procs)| && SamePipeEnds(old(s.pipes), s.pipes)
    ensures reply.Bytes? && moved > 0 ==> (reply.n == moved <==> old(s.procs)[i].cum == 0)
    ensures CumOk(old(s.procs)) ==> CumOk(s.procs) && (reply.Bytes? ==> reply.n == moved)
    ensures Small(old(s.procs)) ==> Small(s.procs)
    ensures Moved(s.procs, s.accepted, s.delivered) == old(Moved(s.procs, s.accepted, s.delivered)) + Amount(reply)
  {
    ghost var p0, d0, got := s.procs, s.delivered, [];
    reply, got := s.DoRead(i, k, n);
    moved := |got|;
    assert forall j :: 0 <= j < |p0| && j != i ==> SameWork(p0[j], s.procs[j]);
    ReadMoved(p0, s.procs, s.accepted, d0, s.delivered, i, k, got, reply);
  }

  /** The process is in the same call, with the same count. */
  predicate SameWork(p: Proc, q: Proc) {
    q.susp == p.susp && q.call == p.call && q.cum == p.cum
  }

  method ServeWrite(s: Server, i: nat, k: nat, data: seq<byte>) returns (reply: Reply, ghost moved: nat)
    requires s.Valid() && CanMake(s.procs, s.pipes, WriteCall(i, k, data))
    modifies s
    ensures s.Valid() && |s.procs| == |old(s.procs)| && SamePipeEnds(old(s.pipes), s.pipes)
    ensures reply.Bytes? && moved > 0 ==> (reply.n == moved <==> old(s.procs)[i].cum == 0)
    ensures CumOk(old(s.procs)) ==> CumOk(s.procs) && (reply.Bytes? ==> reply.n == moved)
    ensures Small(old(s.procs)) && |data| <= PIPE_SIZE ==> Small(s.procs)
    ensures Moved(s.procs, s.accepted, s.delivered) == old(Moved(s.procs, s.accepted, s.delivered)) + Amount(reply)
  {
    ghost var p0, a0 := s.procs, s.accepted;
    reply, moved := s.DoWrite(i, k, data);
    assert forall j :: 0 <= j < |p0| && j != i ==> SameWork(p0[j], s.procs[j]);
    WriteMoved(p0, s.procs, a0, s.accepted, s.delivered, i, k, data, moved, reply);
  }

  /** The calls that change descriptors and flags. */
  method ServeOther(s: Server, r: Request)
    requires s.Valid() && CanMake(s.procs, s.pipes, r) && !r.ReadCall? && !r.WriteCall?
    modifies s
    ensures s.Valid() && |s.procs| == |old(s.procs)| && forall j ::
      0 <= j < |s.procs| ==> SameWork(old(s.procs)[j], s.procs[j])
    ensures AllOpen(old(s.pipes)) && Patient(r) ==> AllOpen(s.pipes)
    ensures Moved(s.procs, s.accepted, s.delivered) == old(Moved(s.procs, s.accepted, s.delivered))
  {
    ghost var first := s.procs;
    match r {
      case PipeCall(i) => ServePipe(s, i);
      case CloseCall(i, e) => ServeClose(s, i, e);
      case ShareCall(i, e) => s.Share(i, e);
      case FlagsCall(e, nonblock) => s.SetFlags(e, nonblock);
    }
    SameWorkCounts(first, s.procs);
  }

  lemma SameWorkCounts(p0: seq<Proc>, p1: seq<Proc>)
    requires |p1| == |p0| && forall j :: 0 <= j < |p1| ==> SameWork(p0[j], p1[j])
    ensures Counts(p1) == Counts(p0)
  {
    SameCounts(p0, p1);
  }

  method ServePipe(s: Server, i: nat)
    requires s.Valid() && CanMake(s.procs, s.pipes, PipeCall(i))
    modifies s`procs, s`pipes, s`accepted, s`delivered
    ensures s.Valid() && |s.procs| == |old(s.procs)| && forall j ::
      0 <= j < |s.procs| ==> SameWork(old(s.procs)[j], s.procs[j])
    ensures AllOpen(old(s.pipes)) ==> AllOpen(s.pipes)
    ensures Sizes(s.accepted) == Sizes(old(s.accepted)) && Sizes(s.delivered) == Sizes(old(s.delivered))
  {
    SizeNew(s.accepted);
    SizeNew(s.delivered);
    var k := s.NewPipe(i);
  }

  method ServeClose(s: Server, i: nat, e: End)
    requires s.Valid() && CanMake(s.procs, s.pipes, CloseCall(i, e))
    modifies s`procs, s`pipes, s`suspCount, s`reviving
    ensures s.Valid() && |s.procs| == |old(s.procs)| && forall j ::
      0 <= j < |s.procs| ==> SameWork(old(s.procs)[j], s.procs[j])
    ensures AllOpen(old(s.pipes)) && Patient(CloseCall(i, e)) ==> AllOpen(s.pipes)
  {
    ghost var p0 := s.procs;
    s.Close(i, e);
    ReleasedWork(p0, s.procs, i, e);
  }

  lemma ReleasedWork(p0: seq<Proc>, p1: seq<Proc>, i: nat, e: End)
    requires |p1| == |p0| && i < |p0| && Released(p0, p1[i := p0[i]], e.pipe, !e.write)
      && p1[i] == p0[i].(fds := p1[i].fds)
    ensures forall j :: 0 <= j < |p0| ==> SameWork(p0[j], p1[j])
  {
    var q := p1[i := p0[i]];
    forall j | 0 <= j < |p0| ensures SameWork(p0[j], p1[j]) {
      if j != i { assert q[j] == p1[j]; }
    }
  }

  /**
   Every run of the file system on pipes, from start to finish; requests nobody
   can make do not arrive.  The log holds every reply in the order given: what
   the calls were told adds up to the bytes that went into and out of the
   pipes, but for the partial counts that processes still have.
   */
  method Run(n: nat, requests: seq<Request>) returns (s: Server, log: seq<Answer>)
    ensures s.Valid() && s.reviving == 0 && |s.procs| == n
    ensures NobodyStuck(s.procs, s.pipes)
    ensures Told(log) + Counts(s.procs) == Sizes(s.accepted) + Sizes(s.delivered)
    ensures
      ((forall k :: 0 <= k < |requests| ==> FitsPipe(requests[k]))
        || (forall k :: 0 <= k < |requests| ==> Patient(requests[k]))) ==>
      CumOk(s.procs)
  {
    s := new Server(n);
    log := [];
    NoCounts(s.procs);
    for k := 0 to |requests|
      invariant s.Valid() && s.reviving == 0 && |s.procs| == n && fresh(s)
      invariant Moved(s.procs, s.accepted, s.delivered) == Told(log)
      invariant (forall j :: 0 <= j < k ==> FitsPipe(requests[j])) ==> Small(s.procs)
      invariant (forall j :: 0 <= j < k ==> Patient(requests[j])) ==> AllOpen(s.pipes) && CumOk(s.procs)
    {
      if CanMake(s.procs, s.pipes, requests[k]) {
        var reply, moved := Serve(s, requests[k]);
        var later := Drain(s);
        ToldBoth(log + [Answer(Caller(requests[k]), reply)], later);
        log := log + [Answer(Caller(requests[k]), reply)] + later;
      }
    }
    Waits(s.procs, s.pipes, s.suspCount, s.reviving);
  }

  // ---------- a stale count ----------

  /** A writer whose 8000 bytes do not fit sleeps after PIPE_SIZE of them. */
  method HalfWritten() returns (s: Server)
    ensures fresh(s) && s.Valid() && |s.procs| == 2 && |s.pipes| == 1 && s.pipes[0].readers == 1
    ensures On(s.procs[0], 0, true) && |s.procs[0].call.data| == 8000 - PIPE_SIZE && s.procs[0].cum == PIPE_SIZE
      && s.Runs(1, End(0, false)) && !s.procs[1].rev
  {
    s := new Server(2);
    var k := s.NewPipe(0);
    s.Share(1, End(0, false));
    s.Close(0, End(0, false));
    var reply, n := s.DoWrite(0, 0, seq<byte>(8000, _ => 1));
    assert reply == NoReply && n == PIPE_SIZE;
  }

  /** When the last reader has gone, the rest of the write is turned away. */
  method TurnedAway() returns (s: Server)
    ensures fresh(s) && s.Valid() && |s.procs| == 2 && |s.pipes| == 1 && !s.procs[0].susp
      && s.procs[0].cum == PIPE_SIZE && !CumOk(s.procs)
  {
    s := HalfWritten();
    s.Close(1, End(0, false));
    assert s.procs[0].rev;
    var i := s.GetWork();
    var reply, n := s.DoWrite(0, 0, s.procs[0].call.data);
    assert reply == EPIPE;
  }

  /** Its next write, of one byte to a new pipe, reports 7169. */
  method OverReport() returns (reply: Reply, ghost moved: nat)
    ensures reply == Bytes(PIPE_SIZE + 1) && moved == 1
  {
    var s := TurnedAway();
    var k := s.NewPipe(0);
    reply, moved := s.DoWrite(0, k, [1]);
  }

  /**
   Between requests, every suspended process really has to wait: a reader for bytes of a live
   writer, a writer for a live reader, never both on one pipe.
   */
  ghost predicate NobodyStuck(procs: seq<Proc>, pipes: seq<Pipe>) {
    && (forall i :: 0 <= i < |procs| && procs[i].susp ==>
      procs[i].pipe < |pipes| &&
      if procs[i].call.Read? then pipes[procs[i].pipe].data == [] && pipes[procs[i].pipe].writers > 0
        else pipes[procs[i].pipe].readers > 0)
    && (forall i, j ::
      0 <= i < |procs| && 0 <= j < |procs| && procs[i].susp && procs[j].susp && procs[i].pipe == procs[j].pipe ==>
      procs[i].call.Read? == procs[j].call.Read?)
  }

  lemma Waits(procs: seq<Proc>, pipes: seq<Pipe>, suspCount: int, reviving: int)
    requires Good(procs, pipes) && Counted(procs, suspCount, reviving) && reviving == 0
    ensures NobodyStuck(procs, pipes)
  {
    NoneWaking(procs);
    forall i | 0 <= i < |procs| && procs[i].susp ensures procs[i].pipe < |pipes| &&
      if procs[i].call.Read? then pipes[procs[i].pipe].data == [] && pipes[procs[i].pipe].writers > 0
        else pipes[procs[i].pipe].readers > 0
    {
      assert ProcOk(procs, pipes, i) && SleepOk(procs, pipes, i);
    }
    forall i, j | 0 <= i < |procs| && 0 <= j < |procs| && procs[i].susp && procs[j].susp
      && procs[i].pipe == procs[j].pipe
      ensures procs[i].call.Read? == procs[j].call.Read?
    {
      var k := procs[i].pipe;
      assert NotBoth(procs, k);
      assert On(procs[i], k, procs[i].call.Write?) && On(procs[j], k, procs[j].call.Write?);
    }
  }

  lemma {:induction false} NoneWaking(procs: seq<Proc>)
    requires Waking(procs) == 0
    ensures forall i :: 0 <= i < |procs| ==> !procs[i].rev
  {
    if procs != [] {
      NoneWaking(procs[1..]);
      forall i | 0 <= i < |procs| ensures !procs[i].rev { if i > 0 { assert procs[i] == procs[1..][i - 1]; } }
    }
  }
}
