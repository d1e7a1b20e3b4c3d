/**
 The log of a run as a trace: what a callback does stands right behind its event, and an
 added event is found in it at its tick.
 */
module TickTraces {
  import opened TickSpec
  import opened TickRuns

  /** What the operations of a callback leave in the log when n events have been added. */
  function Trace(ops: seq<Op>, now: nat, n: nat): seq<Happened>
    decreases ops
  {
    if ops == [] then []
    else
      match ops[0]
      case Add(delay, _) => [Added(n, now + delay)] + Trace(ops[1..], now, n + 1)
      case Invalidate(id) => (if id < n then [Invalidated(id)] else []) + Trace(ops[1..], now, n)
  }

  lemma {:induction false} OpsTrace(s: State, ops: seq<Op>)
    ensures RunOps(s, ops).log == s.log + Trace(ops, s.now, |s.events|)
    decreases ops
  {
    if ops == [] {
      assert s.log + [] == s.log;
    } else {
      OpsTrace(DoOp(s, ops[0]), ops[1..]);
      match ops[0] {
        case Add(delay, _) =>
          var rest := Trace(ops[1..], s.now, |s.events| + 1);
          assert s.log + [Added(|s.events|, s.now + delay)] + rest == s.log + ([Added(|s.events|, s.now + delay)] + rest);
        case Invalidate(id) =>
          var rest := Trace(ops[1..], s.now, |s.events|);
          assert s.log + [Invalidated(id)] + rest == s.log + ([Invalidated(id)] + rest);
          assert [] + rest == rest;
      }
    }
  }

  // -------------------------------------------------------- what a run only adds to

  /** Later states keep the log and what the events were added with. */
  predicate Extends(s: State, r: State)
  {
    && s.log <= r.log && |s.events| <= |r.events|
    && forall i :: 0 <= i < |s.events| ==>
      r.events[i].callback == s.events[i].callback && r.events[i].due == s.events[i].due
  }

  lemma ExtendsOn(s: State, r: State, q: State)
    requires Extends(s, r) && Extends(r, q)
    ensures Extends(s, q)
  {
  }

  lemma {:induction false} OpsExtend(s: State, ops: seq<Op>)
    ensures Extends(s, RunOps(s, ops)) && RunOps(s, ops).cleared == s.cleared
    decreases ops
  {
    if ops != [] {
      OpsExtend(DoOp(s, ops[0]), ops[1..]);
      ExtendsOn(s, DoOp(s, ops[0]), RunOps(s, ops));
    }
  }

  /** A part of the log begins with what the operations do at a tick. */
  ghost predicate GoesOnWith(log: seq<Happened>, ops: seq<Op>, tick: nat)
  {
    exists n: nat :: IsTrace(Trace(ops, tick, n), log)
  }

  predicate IsTrace(t: seq<Happened>, log: seq<Happened>) { t <= log }

  /** Behind every event that ran stands what its callback did. */
  ghost predicate TracedAt(s: State, i: nat)
    requires i < |s.log|
  {
    s.log[i].Handled? && s.log[i].ran ==>
      && s.log[i].id < |s.events|
      && GoesOnWith(s.log[i + 1..], s.events[s.log[i].id].callback.ops, s.log[i].tick)
  }

  ghost predicate Traced(s: State) { forall i :: 0 <= i < |s.log| ==> TracedAt(s, i) }

  lemma StaysTraced(s: State, r: State, i: nat)
    requires Extends(s, r) && i < |s.log| && TracedAt(s, i)
    ensures TracedAt(r, i)
  {
    assert r.log[i] == s.log[i] && s.log[i + 1..] <= r.log[i + 1..];
    if s.log[i].Handled? && s.log[i].ran {
      var ops, tick := s.events[s.log[i].id].callback.ops, s.log[i].tick;
      var n: nat :| IsTrace(Trace(ops, tick, n), s.log[i + 1..]);
      assert IsTrace(Trace(ops, tick, n), r.log[i + 1..]);
    }
  }

  lemma OpTraced(s: State, op: Op)
    requires Traced(s)
    ensures Traced(DoOp(s, op)) && Extends(s, DoOp(s, op)) && DoOp(s, op).cleared == s.cleared
  {
    hide Insert;
    var r := DoOp(s, op);
    forall i | 0 <= i < |r.log| ensures TracedAt(r, i) {
      if i < |s.log| { StaysTraced(s, r, i); }
    }
  }

  lemma PopTraced(s: State)
    requires Ok(s) && HasDue(s) && Traced(s)
    ensures Traced(PopOne(s)) && Extends(s, PopOne(s)) && PopOne(s).cleared == s.cleared
  {
    var id := s.queue[0].id;
    var e := s.events[id];
    var noted := Noted(s);
    var r := PopOne(s);
    OpsTrace(noted, e.callback.ops);
    OpsExtend(noted, e.callback.ops);
    assert Extends(s, noted);
    ExtendsOn(s, noted, r);
    hide Trace, RunOps;
    var k := |s.log|;
    var t := Trace(e.callback.ops, s.now, |s.events|);
    assert r.log == s.log + [Handled(id, s.now, e.valid)] + if e.valid then t else [];
    forall i | 0 <= i < |r.log| ensures TracedAt(r, i) {
      if i < k {
        StaysTraced(s, r, i);
      } else if i == k {
        assert e.valid ==> r.log[k + 1..] == t && IsTrace(t, r.log[k + 1..]);
      } else {
        assert e.valid;
        InTrace(e.callback.ops, s.now, |s.events|, i - k - 1);
        assert r.log[i] == t[i - k - 1];
      }
    }
  }

  lemma {:induction false} InTrace(ops: seq<Op>, now: nat, n: nat, i: nat)
    requires i < |Trace(ops, now, n)|
    ensures !Trace(ops, now, n)[i].Handled?
    decreases ops
  {
    match ops[0] {
      case Add(_, _) => if i > 0 { InTrace(ops[1..], now, n + 1, i - 1); }
      case Invalidate(id) =>
        if id >= n { InTrace(ops[1..], now, n, i); } else if i > 0 { InTrace(ops[1..], now, n, i - 1); }
    }
  }

  lemma {:induction false} DrainTraced(s: State)
    requires Ok(s) && Traced(s)
    ensures Traced(Drain(s)) && Extends(s, Drain(s)) && Drain(s).cleared == s.cleared
    decreases Weight(s)
  {
    hide Weight, PopOne, Traced;
    if HasDue(s) {
      PopOk(s); PopShrinks(s);
      PopTraced(s);
      DrainTraced(PopOne(s));
      ExtendsOn(s, PopOne(s), Drain(s));
    }
  }

  lemma StepTraced(s: State, step: Step)
    requires Ok(s) && Traced(s)
    ensures Traced(DoStep(s, step)) && Extends(s, DoStep(s, step))
    ensures step != Shutdown ==> DoStep(s, step).cleared == s.cleared
  {
    var r := DoStep(s, step);
    match step {
      case Outside(op) => OpTraced(s, op);
      case Tick =>
        DrainTraced(s);
        hide Drain;
        forall i | 0 <= i < |r.log| ensures TracedAt(r, i) { assert TracedAt(Drain(s), i); }
      case Shutdown => forall i | 0 <= i < |r.log| ensures TracedAt(r, i) { assert TracedAt(s, i); }
    }
  }

  lemma {:induction false} RunTraced(s: State, steps: seq<Step>, r: State)
    requires Reached(s, steps, r) && Traced(s)
    ensures Traced(r) && Extends(s, r)
    ensures Shutdown !in steps ==> r.cleared == s.cleared
    decreases steps
  {
    if steps != [] {
      StepTraced(s, steps[0]);
      assert steps == [steps[0]] + steps[1..];
      hide DoStep, Traced;
      RunTraced(DoStep(s, steps[0]), steps[1..], r);
      ExtendsOn(s, DoStep(s, steps[0]), r);
    }
  }

  // ------------------------------------------------------------- one added event

  /**
   From any state a run can reach: an event added with delay d has, once the clock is
   past its tick and nothing has been shut down, been handled exactly once, at that
   tick.  It ran unless it had been invalidated before, and then the log goes on with
   what its callback does.
   */
  lemma AddedEventIsHandled(pre: seq<Step>, s: State, d: nat, a: Action, steps: seq<Step>, r: State)
    requires Reached(Start, pre, s) && Reached(AddEvent(s, d, a), steps, r)
    requires Shutdown !in steps && r.now > s.now + d
    ensures InLog(r.log, |s.events|) == 1
    ensures forall i :: 0 <= i < |r.log| && r.log[i].Handled? && r.log[i].id == |s.events| ==>
      IsOutcome(r.log, i, s.now + d, a)
  {
    var s1 := AddEvent(s, d, a);
    Before(pre, s, d, a);
    hide Traced, Reached, AddEvent, Sound;
    RunSound(s1, steps, r);
    RunTraced(s1, steps, r);
    Outcome(s, d, a, r, |s.events|);
  }

  /** The entry of an event handled at this tick with this callback. */
  ghost predicate IsOutcome(log: seq<Happened>, i: nat, tick: nat, a: Action)
    requires i < |log| && log[i].Handled?
  {
    && log[i].tick == tick
    && (log[i].ran <==> Invalidated(log[i].id) !in log[..i])
    && (log[i].ran ==> GoesOnWith(log[i + 1..], a.ops, tick))
  }

  lemma Before(pre: seq<Step>, s: State, d: nat, a: Action)
    requires Reached(Start, pre, s)
    ensures Sound(AddEvent(s, d, a)) && Traced(AddEvent(s, d, a))
    ensures InCleared(AddEvent(s, d, a).cleared, |s.events|) == 0
  {
    StartIsSound();
    RunSound(Start, pre, s);
    RunTraced(Start, pre, s);
    NotCleared(s, AddEvent(s, d, a), |s.events|);
    hide Traced, Sound;
    OpSound(s, Add(d, a));
    OpTraced(s, Add(d, a));
  }

  lemma StartIsSound()
    ensures Sound(Start) && Traced(Start)
  {
    forall id: nat ensures Places(Start, id) == 0 {}
  }

  lemma NotCleared(s: State, s1: State, id: nat)
    requires Sound(s) && id == |s.events| && s1.cleared == s.cleared
    ensures InCleared(s1.cleared, id) == 0
  {
    assert Places(s, id) == 0;
  }

  lemma Outcome(s: State, d: nat, a: Action, r: State, id: nat)
    requires Sound(r) && Traced(r) && InCleared(r.cleared, id) == 0
    requires Extends(AddEvent(s, d, a), r) && id == |s.events| && r.now > s.now + d
    ensures InLog(r.log, id) == 1
    ensures forall i :: 0 <= i < |r.log| && r.log[i].Handled? && r.log[i].id == id ==> IsOutcome(r.log, i, s.now + d, a)
  {
    hide Insert, Trace;
    assert r.events[id].callback == a && r.events[id].due == s.now + d;
    assert Places(r, id) == 1;
    QueuedIsThere(r.queue, id);
    forall i | 0 <= i < |r.log| && r.log[i].Handled? && r.log[i].id == id ensures IsOutcome(r.log, i, s.now + d, a) {
      assert TracedAt(r, i);
    }
  }

  /** The clock counts the ticks of a run, and nothing else moves it. */
  function Ticks(steps: seq<Step>): nat
  {
    if steps == [] then 0 else (if steps[0] == Tick then 1 else 0) + Ticks(steps[1..])
  }

  lemma {:induction false} ClockCounts(s: State, steps: seq<Step>, r: State)
    requires Reached(s, steps, r)
    ensures r.now == s.now + Ticks(steps)
    decreases steps
  {
    if steps != [] {
      if steps[0] == Tick { DrainLeavesNoneDue(s); }
      hide Drain, Insert;
      ClockCounts(DoStep(s, steps[0]), steps[1..], r);
    }
  }
}
