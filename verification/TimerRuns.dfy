/** Whole runs of timer calls: what is active, and that the next timer is always noticed. */
module TimerRuns {
  import opened Base
  import opened Timers

  datatype Op = SetOp(x: nat, timeout: nat) | CancelOp(x: nat) | TickOp | ResetOp | ExpireOp(script: seq<seq<Action>>)

  /** The timers exist. */
  predicate Legal(op: Op, n: nat) {
    match op
    case SetOp(x, _) => x < n
    case CancelOp(x) => x < n
    case TickOp => true
    case ResetOp => true
    case ExpireOp(script) => forall k, a :: 0 <= k < |script| && a in script[k] ==> a.i < n
  }

  /** What an operation does to the times of the timers, now; fired are those whose functions it has called. */
  ghost predicate Does(t: seq<Option<nat>>, op: Op, u: seq<Option<nat>>, fired: seq<nat>, now: nat) {
    match op
    case SetOp(x, timeout) => u == Act(t, Set(x, timeout)) && fired == []
    case CancelOp(x) => u == Act(t, Cancel(x)) && fired == []
    case TickOp => u == t && fired == []
    case ResetOp => u == t && fired == []
    case ExpireOp(script) => Expired(t, u, script, fired, now)
  }

  /** The times of the timers, and curr_time. */
  datatype State = State(times: seq<Option<nat>>, currTime: nat)

  ghost predicate StepDone(a: State, op: Op, b: State, fired: seq<nat>, uptime: nat) {
    && Does(a.times, op, b.times, fired, Now(a.currTime, uptime))
    && if op.ResetOp? then b.currTime == 0 else Asked(a.currTime, b.currTime, uptime)
  }

  method Step(c: Clock, op: Op, uptime: nat) returns (fired: seq<nat>)
    requires c.Valid() && c.Wakes() && Legal(op, |c.timers|)
    modifies c
    ensures c.Valid() && c.Wakes() && |c.timers| == |old(c.timers)|
    ensures StepDone(State(Times(old(c.timers)), old(c.currTime)), op, State(Times(c.timers), c.currTime), fired,
      uptime)
  {
    fired := [];
    match op {
      case SetOp(x, timeout) => c.SetOne(x, timeout, uptime);
      case CancelOp(x) => c.Untimer(x, uptime);
      case TickOp => c.Tick(uptime);
      case ResetOp => c.ResetTime();
      case ExpireOp(script) => fired := c.ExpireTimers(script, uptime);
    }
  }

  /**
   After every operation of a run the chain is sorted and complete, and its
   head will be noticed; every timer that fires is due at that moment and the
   earliest of all, and every expiry leaves none overdue.
   */
  method Run(c: Clock, ops: seq<Op>, uptimes: seq<nat>) returns (fired: seq<seq<nat>>, ghost trace: seq<State>)
    requires c.Valid() && c.Wakes() && |uptimes| == |ops| && forall k :: 0 <= k < |ops| ==> Legal(ops[k], |c.timers|)
    modifies c
    ensures c.Valid() && c.Wakes() && |fired| == |ops| && |trace| == |ops| + 1
    ensures trace[0] == State(Times(old(c.timers)), old(c.currTime))
      && trace[|ops|] == State(Times(c.timers), c.currTime)
    ensures forall k :: 0 <= k < |ops| ==> StepDone(trace[k], ops[k], trace[k + 1], fired[k], uptimes[k])
  {
    fired, trace := [], [State(Times(c.timers), c.currTime)];
    var k := 0;
    while k < |ops|
      invariant 0 <= k <= |ops| && c.Valid() && c.Wakes() && |c.timers| == |old(c.timers)| && |fired| == k
        && |trace| == k + 1
      invariant trace[0] == State(Times(old(c.timers)), old(c.currTime))
        && trace[k] == State(Times(c.timers), c.currTime)
      invariant forall m :: 0 <= m < k ==> StepDone(trace[m], ops[m], trace[m + 1], fired[m], uptimes[m])
    {
      var f := Step(c, ops[k], uptimes[k]);
      fired, trace := fired + [f], trace + [State(Times(c.timers), c.currTime)];
      k := k + 1;
    }
  }
}
