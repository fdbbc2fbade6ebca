/** The timer chain of the network server (inet/clock.c): sorted, complete, and never forgotten by the clock task. */
module Timers {
  import opened Base
  import opened Lists

  /** tim_next, tim_time and tim_active of one timer. */
  datatype Timer = Timer(next: int, time: nat, active: bool)

  /** What an expiry function does to the chain: it sets timers and cancels timers. */
  datatype Action = Set(i: nat, timeout: nat) | Cancel(i: nat)

  ghost predicate LinkOk(t: seq<Timer>, list: seq<nat>, k: nat)
    requires InRange(list, |t|) && k < |list|
  {
    t[list[k]].next == At(list, k + 1)
  }

  ghost predicate TimeSorted(t: seq<Timer>, list: seq<nat>)
    requires InRange(list, |t|)
  {
    forall i, j :: 0 <= i < j < |list| ==> t[list[i]].time <= t[list[j]].time
  }

  /** The chain runs through exactly the active timers, each once, in the order of their times. */
  ghost predicate ChainOk(t: seq<Timer>, head: int, list: seq<nat>) {
    && InRange(list, |t|) && Distinct(list) && head == At(list, 0) && TimeSorted(t, list)
    && (forall k :: 0 <= k < |list| ==> LinkOk(t, list, k))
    && (forall i :: 0 <= i < |t| ==> (t[i].active <==> i in list))
  }

  ghost predicate Chain(t: seq<Timer>, head: int, list: seq<nat>) {
    ChainOk(t, head, list) == true
  }

  // ---------- inserting ----------

  function Inserted(list: seq<nat>, j: nat, x: nat): seq<nat>
    requires j <= |list|
  {
    list[..j] + [x] + list[j..]
  }

  /** x is linked in behind the first j timers of the chain. */
  ghost predicate InsertAt(t0: seq<Timer>, list: seq<nat>, j: nat, x: nat, time: nat, t1: seq<Timer>) {
    && j <= |list| && InRange(list, |t0|) && x < |t0| == |t1| && t1[x] == Timer(At(list, j), time, true)
    && (forall i :: 0 <= i < |t0| && i != x ==> t1[i] == if j > 0 && i == list[j - 1] then t0[i].(next := x) else t0[i])
    && (forall k :: 0 <= k < j ==> t0[list[k]].time <= time)
    && (forall k :: j <= k < |list| ==> time <= t0[list[k]].time)
  }

  /** Where the elements of the list have gone. */
  ghost predicate Spread(list: seq<nat>, j: nat, x: nat, l: seq<nat>) {
    true == (
      && |l| == |list| + 1 && j <= |list|
      && forall m :: 0 <= m < |l| ==> l[m] == if m < j then list[m] else if m == j then x else list[m - 1])
  }

  lemma InsertOk(t0: seq<Timer>, head: int, list: seq<nat>, j: nat, x: nat, time: nat, t1: seq<Timer>)
    requires Chain(t0, head, list) && x !in list && InsertAt(t0, list, j, x, time, t1)
    ensures Chain(t1, if j == 0 then x else head, Inserted(list, j, x))
  {
    var l := Inserted(list, j, x);
    InsertedAt(list, j, x, |t0|);
    InsertLinks(t0, head, list, j, x, time, t1, l);
    forall i | 0 <= i < |t1| ensures t1[i].active <==> i in l { InsertActive(t0, head, list, j, x, time, t1, i); }
    InsertSorted(t0, list, j, x, time, t1, l);
  }

  lemma InsertLinks(t0: seq<Timer>, head: int, list: seq<nat>, j: nat, x: nat, time: nat, t1: seq<Timer>, l: seq<nat>)
    requires Chain(t0, head, list) && x !in list && InsertAt(t0, list, j, x, time, t1) && l == Inserted(list, j, x)
    requires InRange(l, |t1|) && Spread(list, j, x, l)
    ensures forall k :: 0 <= k < |l| ==> LinkOk(t1, l, k)
  {
    forall k | 0 <= k < |l| ensures LinkOk(t1, l, k) { InsertLink(t0, head, list, j, x, time, t1, l, k); }
  }

  lemma InsertedAt(list: seq<nat>, j: nat, x: nat, n: nat)
    requires j <= |list| && x !in list && Distinct(list) && InRange(list, n) && x < n
    ensures var l := Inserted(list, j, x);
      Distinct(l) && InRange(l, n) && l[0] == (if j == 0 then x else list[0]) && Spread(list, j, x, l)
  {
  }

  lemma InsertActive(t0: seq<Timer>, head: int, list: seq<nat>, j: nat, x: nat, time: nat, t1: seq<Timer>, i: nat)
    requires Chain(t0, head, list) && x !in list && InsertAt(t0, list, j, x, time, t1) && i < |t1|
    ensures t1[i].active <==> i in Inserted(list, j, x)
  {
    if i == x { assert Inserted(list, j, x)[j] == x; } else { InsertMember(list, j, x, i); }
  }

  lemma InsertMember(list: seq<nat>, j: nat, x: nat, i: nat)
    requires j <= |list| && i != x
    ensures i in Inserted(list, j, x) <==> i in list
  {
    assert list == list[..j] + list[j..];
  }

  lemma InsertLink(t0: seq<Timer>, head: int, list: seq<nat>, j: nat, x: nat, time: nat, t1: seq<Timer>, l: seq<nat>,
                   k: nat)
    requires Chain(t0, head, list) && x !in list && InsertAt(t0, list, j, x, time, t1) && l == Inserted(list, j, x)
      && k < |l| && InRange(l, |t1|)
    requires Spread(list, j, x, l)
    ensures LinkOk(t1, l, k)
  {
    if k < j {
      assert LinkOk(t0, list, k);
      if k + 1 < j { assert list[k] != list[j - 1]; }
    } else if k > j {
      assert LinkOk(t0, list, k - 1);
      if j > 0 { assert list[k - 1] != list[j - 1]; }
    }
  }

  lemma InsertSorted(t0: seq<Timer>, list: seq<nat>, j: nat, x: nat, time: nat, t1: seq<Timer>, l: seq<nat>)
    requires InRange(list, |t0|) && TimeSorted(t0, list) && x !in list && InsertAt(t0, list, j, x, time, t1)
      && l == Inserted(list, j, x)
    requires Spread(list, j, x, l)
    ensures InRange(l, |t1|) && TimeSorted(t1, l)
  {
    forall m | 0 <= m < |list| ensures t1[list[m]].time == t0[list[m]].time { assert list[m] != x; }
  }

  // ---------- removing ----------

  /** The k-th timer of the chain is taken out. */
  ghost predicate RemoveAt(t0: seq<Timer>, list: seq<nat>, k: nat, t1: seq<Timer>) {
    && k < |list| && InRange(list, |t0|) && |t1| == |t0| && t1[list[k]] == t0[list[k]].(active := false)
    && (forall i ::
      0 <= i < |t0| && i != list[k] ==> t1[i] == if k > 0 && i == list[k - 1] then t0[i].(next := t0[list[k]].next)
      else t0[i])
  }

  lemma RemoveOk(t0: seq<Timer>, head: int, list: seq<nat>, k: nat, t1: seq<Timer>)
    requires Chain(t0, head, list) && RemoveAt(t0, list, k, t1)
    ensures Chain(t1, if k == 0 then t0[list[0]].next else head, Without(list, k))
  {
    var l := Without(list, k);
    WithoutMembers(list, k);
    assert LinkOk(t0, list, k) && LinkOk(t0, list, 0);
    assert InRange(l, |t1|);
    RemoveLinks(t0, head, list, k, t1, l);
    RemoveSorted(t0, list, k, t1, l);
  }

  lemma RemoveLinks(t0: seq<Timer>, head: int, list: seq<nat>, k: nat, t1: seq<Timer>, l: seq<nat>)
    requires Chain(t0, head, list) && RemoveAt(t0, list, k, t1) && l == Without(list, k) && InRange(l, |t1|)
    ensures forall m :: 0 <= m < |l| ==> LinkOk(t1, l, m)
  {
    forall m | 0 <= m < |l| ensures LinkOk(t1, l, m) { RemoveLink(t0, head, list, k, t1, l, m); }
  }

  lemma RemoveSorted(t0: seq<Timer>, list: seq<nat>, k: nat, t1: seq<Timer>, l: seq<nat>)
    requires InRange(list, |t0|) && TimeSorted(t0, list) && RemoveAt(t0, list, k, t1) && l == Without(list, k)
      && InRange(l, |t1|)
    ensures TimeSorted(t1, l)
  {
    forall i | 0 <= i < |t0| ensures t1[i].time == t0[i].time {}
    forall a, b | 0 <= a < b < |l| ensures t1[l[a]].time <= t1[l[b]].time {
      var a1, b1 := if a < k then a else a + 1, if b < k then b else b + 1;
      assert l[a] == list[a1] && l[b] == list[b1];
    }
  }

  lemma RemoveLink(t0: seq<Timer>, head: int, list: seq<nat>, k: nat, t1: seq<Timer>, l: seq<nat>, m: nat)
    requires Chain(t0, head, list) && RemoveAt(t0, list, k, t1) && l == Without(list, k) && m < |l| && InRange(l, |t1|)
    ensures LinkOk(t1, l, m)
  {
    assert LinkOk(t0, list, k);
    if m < k {
      assert LinkOk(t0, list, m) && list[m] != list[k];
      if m + 1 < k { assert list[m] != list[k - 1]; }
    } else {
      assert LinkOk(t0, list, m + 1) && list[m + 1] != list[k];
      if k > 0 { assert list[m + 1] != list[k - 1]; }
    }
  }

  // ---------- the clock ----------

  class Clock {
    var timers: seq<Timer>
    var timerChain: int
    var nextTimeout: nat        // next_timeout, 0 when no alarm is set
    var callExpire: bool        // clck_call_expire
    var currTime: nat           // curr_time, 0 when it must be asked for
    ghost var list: seq<nat>

    constructor (n: nat)
      ensures Valid() && Wakes() && |timers| == n && list == []
    {
      timers := seq(n, _ => Timer(NIL, 0, false));
      timerChain, nextTimeout, callExpire, currTime, list := NIL, 0, false, 0, [];
    }

    ghost predicate Valid()
      reads this
    {
      Chain(timers, timerChain, list)
    }

    /**
     A timer in the chain will be noticed: expiry has been requested, or an alarm is due no later
     than the first one.
     */
    ghost predicate Wakes()
      reads this
    {
      timerChain == NIL || callExpire || (0 <= timerChain < |timers| && 0 < nextTimeout <= timers[timerChain].time)
    }

    /** get_time; uptime is what the clock task answers. */
    method GetTime(uptime: nat) returns (now: nat)
      modifies this`currTime
      ensures now == if old(currTime) != 0 then old(currTime) else uptime
      ensures currTime == now
    {
      if currTime == 0 { currTime := uptime; }
      now := currTime;
    }

    /** reset_time: the clock task will be asked again. */
    method ResetTime()
      modifies this`currTime
      ensures currTime == 0
    {
      currTime := 0;
    }

    /** set_timer: afterwards the first timer of the chain will be noticed. */
    method SetTimer(uptime: nat)
      requires Valid()
      modifies this`nextTimeout, this`callExpire, this`currTime
      ensures Valid() && Wakes() && (old(callExpire) ==> callExpire) && Asked(old(currTime), currTime, uptime)
    {
      if timerChain == NIL { return; }
      var now := GetTime(uptime);
      var newTime := timers[timerChain].time;
      if newTime <= now {
        callExpire := true;
        return;
      }
      if nextTimeout == 0 || newTime < nextTimeout {
        nextTimeout := newTime;     // and the clock task is asked for an alarm after newTime - now ticks
      }
    }

    /** clck_fast_release */
    method FastRelease(x: nat)
      requires Valid() && x < |timers|
      modifies this`timers, this`timerChain, this`list
      ensures Valid() && |timers| == |old(timers)| && !timers[x].active
      ensures forall i ::
        0 <= i < |timers| && i != x ==>
        timers[i].active == old(timers)[i].active && timers[i].time == old(timers)[i].time
      ensures !old(timers)[x].active ==> timers == old(timers) && list == old(list) && timerChain == old(timerChain)
      ensures timerChain == NIL || (0 <= timerChain < |timers| && 0 <= old(timerChain) < |timers|
        && old(timers)[old(timerChain)].time <= timers[timerChain].time)
    {
      if !timers[x].active { return; }
      ghost var k :| 0 <= k < |list| && list[k] == x;
      ghost var t0 := timers;
      Unlink(x, k);
      RemoveOk(t0, old(timerChain), list, k, timers);
      HeadLater(t0, list, k, timers);
      list := Without(list, k);
    }

    method Unlink(x: nat, ghost k: nat)
      requires Valid() && k < |list| && list[k] == x
      modifies this`timers, this`timerChain
      ensures RemoveAt(old(timers), list, k, timers)
      ensures timerChain == if k == 0 then old(timers)[list[0]].next else old(timerChain)
    {
      if x == timerChain {
        HeadOnly(timers, timerChain, list, k);
        timerChain := timers[x].next;
        timers := timers[x := timers[x].(active := false)];
      } else {
        var p := Predecessor(x, k);
        timers := timers[p := timers[p].(next := timers[x].next)][x := timers[x].(active := false)];
      }
    }

    /** The search for the timer in front of x. */
    method Predecessor(x: nat, ghost k: nat) returns (p: nat)
      requires Valid() && k < |list| && list[k] == x != timerChain
      ensures k > 0 && p == list[k - 1] && p != x
    {
      var i := timerChain;
      ghost var m := 0;
      while timers[i].next != x
        invariant 0 <= m < k && i == list[m]
        decreases k - m
      {
        assert LinkOk(timers, list, m);
        i := timers[i].next;
        m := m + 1;
      }
      assert LinkOk(timers, list, m);
      p := i;
    }

    // ---------- setting and cancelling ----------

    /** clck_timer */
    method SetOne(x: nat, timeout: nat, uptime: nat)
      requires Valid() && x < |timers|
      modifies this
      ensures Valid() && |timers| == |old(timers)| && timers[x].active && timers[x].time == timeout
      ensures forall i ::
        0 <= i < |timers| && i != x ==>
        timers[i].active == old(timers)[i].active && timers[i].time == old(timers)[i].time
      ensures Wakes() && Asked(old(currTime), currTime, uptime)
    {
      FastRelease(x);
      Link(x, timeout);
      if nextTimeout == 0 || timers[timerChain].time < nextTimeout {
        SetTimer(uptime);
      }
    }

    /** The insertion of clck_timer. */
    method Link(x: nat, timeout: nat)
      requires Valid() && x < |timers| && !timers[x].active
      modifies this`timers, this`timerChain, this`list
      ensures Valid() && |timers| == |old(timers)| && timers[x].active && timers[x].time == timeout
        && 0 <= timerChain < |timers|
      ensures forall i ::
        0 <= i < |timers| && i != x ==>
        timers[i].active == old(timers)[i].active && timers[i].time == old(timers)[i].time
      ensures timerChain == x || (timerChain == old(timerChain) && timers[timerChain].time <= timeout)
    {
      var t0, h0 := timers, timerChain;
      ghost var j := 0;
      if timerChain == NIL || timeout < timers[timerChain].time {
        HeadFirst(timers, timerChain, list, timeout);
        timers := timers[x := Timer(timerChain, timeout, true)];
        timerChain := x;
      } else {
        var p;
        p, j := Place(timeout);
        timers := timers[x := Timer(timers[p].next, timeout, true)][p := timers[p].(next := x)];
      }
      InsertOk(t0, h0, list, j, x, timeout, timers);
      list := Inserted(list, j, x);
    }

    /** The search for the timer behind which a timeout belongs. */
    method Place(timeout: nat) returns (p: nat, ghost j: nat)
      requires Valid() && timerChain != NIL && timers[timerChain].time <= timeout
      ensures 0 < j <= |list| && p == list[j - 1] && timers[p].next == At(list, j)
      ensures (forall k :: 0 <= k < j ==> timers[list[k]].time <= timeout)
        && (forall k :: j <= k < |list| ==> timeout <= timers[list[k]].time)
    {
      p, j := timerChain, 1;
      assert LinkOk(timers, list, 0);
      while timers[p].next != NIL && timers[timers[p].next].time < timeout
        invariant 0 < j <= |list| && p == list[j - 1] && timers[p].next == At(list, j)
        invariant forall k :: 0 <= k < j ==> timers[list[k]].time <= timeout
        decreases |list| - j
      {
        p := timers[p].next;
        assert LinkOk(timers, list, j);
        j := j + 1;
      }
    }

    /** clck_untimer */
    method Untimer(x: nat, uptime: nat)
      requires Valid() && x < |timers|
      modifies this
      ensures Valid() && Wakes() && |timers| == |old(timers)| && !timers[x].active
        && Asked(old(currTime), currTime, uptime)
      ensures forall i ::
        0 <= i < |timers| && i != x ==>
        timers[i].active == old(timers)[i].active && timers[i].time == old(timers)[i].time
    {
      FastRelease(x);
      SetTimer(uptime);
    }

    /** clck_tick: the alarm has gone off. */
    method Tick(uptime: nat)
      requires Valid()
      modifies this`nextTimeout, this`callExpire, this`currTime
      ensures Valid() && Wakes() && Asked(old(currTime), currTime, uptime)
    {
      nextTimeout := 0;
      SetTimer(uptime);
    }

    // ---------- expiry ----------

    /** What one expiry function does. */
    method Perform(actions: seq<Action>, uptime: nat)
      requires Valid() && forall a :: a in actions ==> a.i < |timers|
      modifies this
      ensures Valid() && |timers| == |old(timers)| && Asked(old(currTime), currTime, uptime)
      ensures Times(timers) == ActAll(Times(old(timers)), actions)
    {
      ghost var t0 := timers;
      for k := 0 to |actions|
        invariant Valid() && |timers| == |t0| && Asked(old(currTime), currTime, uptime)
        invariant Times(timers) == ActAll(Times(t0), actions[..k])
      {
        assert actions[..k + 1][..k] == actions[..k];
        match actions[k] {
          case Set(i, timeout) => SetOne(i, timeout, uptime);
          case Cancel(i) => Untimer(i, uptime);
        }
      }
      assert actions[..|actions|] == actions;
    }

    /** Taking the first timer off the chain. */
    method Pop() returns (x: nat)
      requires Valid() && timerChain != NIL
      modifies this`timers, this`timerChain, this`list
      ensures Valid() && x == old(timerChain) && |timers| == |old(timers)| && old(list) == [x] + list
        && !timers[x].active
      ensures forall i :: 0 <= i < |timers| && i != x ==> timers[i] == old(timers)[i]
    {
      ghost var t0 := timers;
      x := timerChain;
      timers := timers[x := timers[x].(active := false)];
      timerChain := timers[x].next;
      RemoveOk(t0, x, list, 0, timers);
      assert list == [list[0]] + Without(list, 0);
      list := Without(list, 0);
    }

    /**
     clck_expire_timers, where the expiry functions that are called do what the script says, one entry a call, and
     nothing once it has run out.  Each timer that fires is the earliest of those set at that moment, and due; when
     all is done no timer is overdue, and the next one will be noticed.
     */
    method ExpireTimers(script: seq<seq<Action>>, uptime: nat) returns (fired: seq<nat>)
      requires Valid() && forall k, a :: 0 <= k < |script| && a in script[k] ==> a.i < |timers|
      modifies this
      ensures Valid() && Wakes() && |timers| == |old(timers)| && Asked(old(currTime), currTime, uptime)
      ensures Expired(Times(old(timers)), Times(timers), script, fired, Now(old(currTime), uptime))
    {
      callExpire := false;
      fired := [];
      if timerChain == NIL {
        assert NoneDue(Times(timers), Now(currTime, uptime));
        return;
      }
      var now := GetTime(uptime);
      while timerChain != NIL && timers[timerChain].time <= now
        invariant Valid() && |timers| == |old(timers)| && currTime == now == Now(old(currTime), uptime)
        invariant Firing(Times(old(timers)), Times(timers), script, fired, now)
        decreases if |fired| < |script| then |script| - |fired| else 0, |list|
      {
        fired := FireOne(Times(old(timers)), script, fired, now, uptime);
      }
      AllLater(timers, timerChain, list, now);
      SetTimer(uptime);
    }

    /** One round of the expiry loop. */
    method FireOne(ghost t0: seq<Option<nat>>, script: seq<seq<Action>>, fired0: seq<nat>, now: nat, uptime: nat)
        returns (fired: seq<nat>)
      requires Valid() && timerChain != NIL && timers[timerChain].time <= now == currTime
      requires |t0| == |timers| && forall k, a :: 0 <= k < |script| && a in script[k] ==> a.i < |timers|
      requires Firing(t0, Times(timers), script, fired0, now)
      modifies this
      ensures Valid() && |timers| == |old(timers)| && (now != 0 ==> currTime == now) && Asked(now, currTime, uptime)
      ensures fired == fired0 + [old(timerChain)] && Firing(t0, Times(timers), script, fired, now)
      ensures |fired0| >= |script| ==> |list| < |old(list)|
    {
      ghost var before := timers;
      FirstEarliest(timers, timerChain, list);
      var x := Pop();
      fired := fired0 + [x];
      assert Times(timers) == Times(before)[x := None];
      if |fired0| < |script| {
        Perform(script[|fired0|], uptime);
      }
      FiredOne(t0, Times(before), Times(timers), script, fired0, x, now);
    }
  }

  // ---------- what an expiry does ----------

  /** When each timer is set to go off. */
  function Times(t: seq<Timer>): (r: seq<Option<nat>>)
    ensures |r| == |t|
  {
    seq(|t|, i requires 0 <= i < |t| => if t[i].active then Some(t[i].time) else None)
  }

  function Act(t: seq<Option<nat>>, a: Action): (r: seq<Option<nat>>)
    ensures |r| == |t|
  {
    if a.i >= |t| then t
    else match a
      case Set(i, timeout) => t[i := Some(timeout)]
      case Cancel(i) => t[i := None]
  }

  function ActAll(t: seq<Option<nat>>, actions: seq<Action>): (r: seq<Option<nat>>)
    ensures |r| == |t|
  {
    if actions == [] then t else Act(ActAll(t, actions[..|actions| - 1]), actions[|actions| - 1])
  }

  /** The timers after those named have fired, each calling the next entry of the script. */
  function AfterFiring(t: seq<Option<nat>>, script: seq<seq<Action>>, fired: seq<nat>): (r: seq<Option<nat>>)
    ensures |r| == |t|
  {
    if fired == [] then t
    else
      var n := |fired| - 1;
      var r := AfterFiring(t, script, fired[..n]);
      ActAll(if fired[n] < |r| then r[fired[n] := None] else r, if n < |script| then script[n] else [])
  }

  /** x is due, and no timer goes off before it. */
  ghost predicate Earliest(t: seq<Option<nat>>, x: nat, now: nat) {
    x < |t| && t[x].Some? && t[x].value <= now && forall i :: 0 <= i < |t| && t[i].Some? ==> t[x].value <= t[i].value
  }

  ghost predicate NoneDue(t: seq<Option<nat>>, now: nat) {
    forall i :: 0 <= i < |t| && t[i].Some? ==> now < t[i].value
  }

  /** The timers have fired in turn, each being due and the earliest. */
  ghost predicate Firing(t0: seq<Option<nat>>, t: seq<Option<nat>>, script: seq<seq<Action>>, fired: seq<nat>,
                         now: nat) {
    true == (
      && t == AfterFiring(t0, script, fired)
      && forall k :: 0 <= k < |fired| ==> Earliest(AfterFiring(t0, script, fired[..k]), fired[k], now))
  }

  ghost predicate Expired(t0: seq<Option<nat>>, t: seq<Option<nat>>, script: seq<seq<Action>>, fired: seq<nat>,
                          now: nat) {
    Firing(t0, t, script, fired, now) && NoneDue(t, now)
  }

  function Now(currTime: nat, uptime: nat): nat { if currTime != 0 then currTime else uptime }

  lemma FiredOne(t0: seq<Option<nat>>, t: seq<Option<nat>>, u: seq<Option<nat>>, script: seq<seq<Action>>,
                 fired: seq<nat>, x: nat, now: nat)
    requires Firing(t0, t, script, fired, now) && Earliest(t, x, now)
    requires u == ActAll(t[x := None], if |fired| < |script| then script[|fired|] else [])
    ensures Firing(t0, u, script, fired + [x], now)
  {
    var more := fired + [x];
    assert more[..|fired|] == fired;
    forall k | 0 <= k < |more| ensures Earliest(AfterFiring(t0, script, more[..k]), more[k], now) {
      if k < |fired| { assert more[..k] == fired[..k]; }
    }
  }

  /** The head of the chain is the earliest timer. */
  lemma FirstEarliest(t: seq<Timer>, head: int, list: seq<nat>)
    requires Chain(t, head, list) && head != NIL
    ensures 0 <= head < |t| && t[head].active && Earliest(Times(t), head, t[head].time)
  {
    assert list[0] in list;
    forall i | 0 <= i < |t| && t[i].active ensures t[head].time <= t[i].time {
      var k :| 0 <= k < |list| && list[k] == i;
      assert k == 0 || t[list[0]].time <= t[list[k]].time;
    }
  }

  lemma AllLater(t: seq<Timer>, head: int, list: seq<nat>, now: nat)
    requires Chain(t, head, list) && (head != NIL ==> 0 <= head < |t| && now < t[head].time)
    ensures NoneDue(Times(t), now)
  {
    if head != NIL { FirstEarliest(t, head, list); }
  }

  /** curr_time is kept once it has been asked for. */
  ghost predicate Asked(t0: nat, t1: nat, uptime: nat) {
    t1 == t0 || (t0 == 0 && t1 == uptime)
  }

  ghost predicate Cancelled(script: seq<seq<Action>>, i: nat) {
    exists k :: 0 <= k < |script| && Cancel(i) in script[k]
  }

  lemma {:induction false} StillSet(t: seq<Option<nat>>, actions: seq<Action>, i: nat)
    requires i < |t| && t[i].Some? && Cancel(i) !in actions
    ensures ActAll(t, actions)[i].Some?
  {
    if actions != [] { StillSet(t, actions[..|actions| - 1], i); }
  }

  /** A timer that was set and is not any more has fired, unless an expiry function has cancelled it. */
  lemma {:induction false} Accounted(t: seq<Option<nat>>, script: seq<seq<Action>>, fired: seq<nat>, i: nat)
    requires i < |t| && t[i].Some? && AfterFiring(t, script, fired)[i] == None && !Cancelled(script, i)
    ensures i in fired
  {
    var n := |fired| - 1;
    var r := AfterFiring(t, script, fired[..n]);
    if r[i] == None {
      Accounted(t, script, fired[..n], i);
    } else if fired[n] != i {
      StillSet(if fired[n] < |r| then r[fired[n] := None] else r, if n < |script| then script[n] else [], i);
    }
  }

  lemma HeadFirst(t: seq<Timer>, head: int, list: seq<nat>, timeout: nat)
    requires Chain(t, head, list) && (head == NIL || (0 <= head < |t| && timeout < t[head].time))
    ensures forall k :: 0 <= k < |list| ==> timeout <= t[list[k]].time
  {
    forall k | 0 <= k < |list|
      ensures timeout <= t[list[k]].time { if k > 0 { assert t[list[0]].time <= t[list[k]].time; } }
  }

  lemma HeadOnly(t: seq<Timer>, head: int, list: seq<nat>, k: nat)
    requires Chain(t, head, list) && k < |list| && list[k] == head
    ensures k == 0
  {
  }

  lemma HeadLater(t0: seq<Timer>, list: seq<nat>, k: nat, t1: seq<Timer>)
    requires InRange(list, |t0|) && TimeSorted(t0, list) && RemoveAt(t0, list, k, t1)
    ensures var l := Without(list, k); l != [] ==> l[0] < |t1| && t0[list[0]].time <= t1[l[0]].time
  {
  }
}
