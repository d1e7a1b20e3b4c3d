/**
 Whole runs of the scheduler: events added and invalidated between ticks, ticks,
 and the shutdown that clears what is left.
 */
module TickRuns {
  import opened TickSpec

  // --------------------------------------------------------------- bookkeeping

  function InQueue(q: seq<Entry>, id: nat): nat
  {
    if q == [] then 0 else (if q[0].id == id then 1 else 0) + InQueue(q[1..], id)
  }

  /** How often an event has been handled. */
  function InLog(l: seq<Happened>, id: nat): nat
  {
    if l == [] then 0 else InLog(l[..|l| - 1], id) + (if l[|l| - 1].Handled? && l[|l| - 1].id == id then 1 else 0)
  }

  function InCleared(c: seq<nat>, id: nat): nat
  {
    if c == [] then 0 else (if c[0] == id then 1 else 0) + InCleared(c[1..], id)
  }

  /** In how many places an event is: pending, handled or cleared. */
  function Places(s: State, id: nat): nat
  {
    InQueue(s.queue, id) + InLog(s.log, id) + InCleared(s.cleared, id)
  }

  /** Every added event is in exactly one place. */
  ghost predicate Accounted(s: State)
  {
    forall id: nat :: Places(s, id) == if id < |s.events| then 1 else 0
  }

  /** Pending events wait for their tick, and handled ones were handled at it. */
  predicate Timely(s: State)
  {
    && (forall i :: 0 <= i < |s.queue| ==>
      var e := s.queue[i]; e.id < |s.events| && e.tick == s.events[e.id].due && e.tick >= s.now)
    && (forall i :: 0 <= i < |s.log| && s.log[i].Handled? ==>
      var h := s.log[i]; h.id < |s.events| && h.tick == s.events[h.id].due)
  }

  /** An event is valid unless it has been invalidated, and it ran when it was handled
      unless that had happened by then. */
  ghost predicate Faithful(s: State)
  {
    && (forall i :: 0 <= i < |s.log| && s.log[i].Handled? ==> (s.log[i].ran <==> Invalidated(s.log[i].id) !in s.log[..i]))
    && (forall id :: 0 <= id < |s.events| ==> (s.events[id].valid <==> Invalidated(id) !in s.log))
    && (forall h :: h in s.log && (h.Invalidated? || h.Handled?) ==> h.id < |s.events|)
  }

  ghost predicate Sound(s: State) { Ok(s) && Accounted(s) && Timely(s) && Faithful(s) }

  lemma {:induction false} InsertCount(q: seq<Entry>, e: Entry, id: nat)
    ensures InQueue(Insert(q, e), id) == InQueue(q, id) + (if e.id == id then 1 else 0)
  {
    if q == [] || e.tick < q[0].tick {
      assert ([e] + q)[1..] == q;
    } else {
      InsertCount(q[1..], e, id);
      assert ([q[0]] + Insert(q[1..], e))[1..] == Insert(q[1..], e);
    }
  }

  lemma OpSound(s: State, op: Op)
    requires Sound(s)
    ensures Sound(DoOp(s, op))
  {
    hide Accounted, Ok, Faithful, Insert;
    OpKeeps(s, op);
    OpAccounted(s, op);
    OpTimely(s, op);
    OpFaithful(s, op);
  }

  lemma OpAccounted(s: State, op: Op)
    requires Accounted(s)
    ensures Accounted(DoOp(s, op))
  {
    var r := DoOp(s, op);
    assert r.log != s.log ==> r.log[..|r.log| - 1] == s.log;
    forall id: nat ensures Places(r, id) == if id < |r.events| then 1 else 0 {
      assert Places(s, id) == if id < |s.events| then 1 else 0;
      if op.Add? { InsertCount(s.queue, Entry(s.now + op.delay, |s.events|), id); }
    }
  }

  lemma OpTimely(s: State, op: Op)
    requires Timely(s)
    ensures Timely(DoOp(s, op))
  {
    hide Insert;
    if op.Add? {
      var e := Entry(s.now + op.delay, |s.events|);
      var r := DoOp(s, op);
      InsertElements(s.queue, e);
      forall i | 0 <= i < |r.queue|
        ensures var x := r.queue[i]; x.id < |r.events| && x.tick == r.events[x.id].due && x.tick >= r.now
      {
        assert r.queue[i] in r.queue;
      }
    }
  }

  lemma OpFaithful(s: State, op: Op)
    requires Faithful(s)
    ensures Faithful(DoOp(s, op))
  {
    var r := DoOp(s, op);
    forall i | 0 <= i < |s.log| ensures r.log[..i] == s.log[..i] && r.log[i] == s.log[i] {}
  }

  lemma {:induction false} OpsSound(s: State, ops: seq<Op>)
    requires Sound(s)
    ensures Sound(RunOps(s, ops))
    decreases ops
  {
    hide Sound, DoOp;
    if ops != [] {
      OpSound(s, ops[0]);
      OpsSound(DoOp(s, ops[0]), ops[1..]);
    }
  }

  /** The state in which the earliest event has been taken off and noted. */
  function Noted(s: State): State
    requires Ok(s) && HasDue(s)
  {
    var id := s.queue[0].id;
    s.(queue := s.queue[1..], log := s.log + [Handled(id, s.now, s.events[id].valid)])
  }

  lemma NotedSound(s: State)
    requires Sound(s) && HasDue(s)
    ensures Sound(Noted(s))
  {
    var r := Noted(s);
    SortedTail(s.queue);
    assert r.log[..|r.log| - 1] == s.log;
    forall id: nat ensures Places(r, id) == if id < |r.events| then 1 else 0 {
      assert Places(s, id) == if id < |s.events| then 1 else 0;
    }
    assert s.queue[0].tick == s.now;
    assert forall i :: 0 <= i < |r.queue| ==> r.queue[i] == s.queue[i + 1];
  }

  lemma PopSound(s: State)
    requires Sound(s) && HasDue(s)
    ensures Sound(PopOne(s))
  {
    hide Accounted, Timely, Faithful;
    NotedSound(s);
    OpsSound(Noted(s), s.events[s.queue[0].id].callback.ops);
  }

  lemma {:induction false} DrainSound(s: State)
    requires Sound(s)
    ensures Sound(Drain(s)) && Drain(s).now == s.now
    decreases Weight(s)
  {
    hide Accounted, Timely, Faithful, Weight, PopOne;
    if HasDue(s) {
      PopSound(s); PopOk(s); PopShrinks(s);
      DrainSound(PopOne(s));
    }
  }

  // ------------------------------------------------------------------------ runs

  datatype Step = Outside(op: Op) | Tick | Shutdown

  function Ids(q: seq<Entry>): seq<nat>
  {
    if q == [] then [] else [q[0].id] + Ids(q[1..])
  }

  function DoStep(s: State, step: Step): State
    requires Ok(s)
  {
    match step
    case Outside(op) => DoOp(s, op)
    case Tick => var d := Drain(s); d.(now := d.now + 1)
    case Shutdown => s.(queue := [], cleared := s.cleared + Ids(s.queue))
  }

  lemma {:induction false} ClearedCount(c: seq<nat>, q: seq<Entry>, id: nat)
    ensures InCleared(c + Ids(q), id) == InCleared(c, id) + InQueue(q, id)
    decreases |c| + |q|
  {
    if c != [] {
      assert (c + Ids(q))[0] == c[0] && (c + Ids(q))[1..] == c[1..] + Ids(q);
      ClearedCount(c[1..], q, id);
    } else if q != [] {
      assert c + Ids(q) == [q[0].id] + Ids(q[1..]);
      assert (c + Ids(q))[1..] == [] + Ids(q[1..]);
      ClearedCount([], q[1..], id);
    }
  }

  lemma StepSound(s: State, step: Step)
    requires Sound(s)
    ensures Sound(DoStep(s, step))
  {
    match step {
      case Outside(op) => OpSound(s, op);
      case Tick => TickSound(s);
      case Shutdown => ShutdownSound(s);
    }
  }

  lemma TickSound(s: State)
    requires Sound(s)
    ensures Sound(DoStep(s, Tick))
  {
    hide Places, Drain;
    DrainSound(s);
    DrainLeavesNoneDue(s);
    var d := Drain(s);
    var r := DoStep(s, Tick);
    forall id: nat ensures Places(r, id) == if id < |r.events| then 1 else 0 {
      assert Places(d, id) == if id < |d.events| then 1 else 0;
      SamePlaces(d, r, id);
    }
    forall i | 0 <= i < |r.queue| ensures r.queue[i].tick >= r.now {
      assert d.queue[i] in d.queue;
    }
  }

  lemma SamePlaces(a: State, b: State, id: nat)
    requires a.queue == b.queue && a.log == b.log && a.cleared == b.cleared
    ensures Places(a, id) == Places(b, id)
  {
  }

  lemma ShutdownSound(s: State)
    requires Sound(s)
    ensures Sound(DoStep(s, Shutdown))
  {
    var r := DoStep(s, Shutdown);
    forall id: nat ensures Places(r, id) == if id < |r.events| then 1 else 0 {
      assert Places(s, id) == if id < |s.events| then 1 else 0;
      ClearedCount(s.cleared, s.queue, id);
    }
  }

  ghost predicate Reached(s: State, steps: seq<Step>, r: State)
    decreases steps
  {
    Ok(s) && if steps == [] then r == s else Reached(DoStep(s, steps[0]), steps[1..], r)
  }

  lemma {:induction false} RunSound(s: State, steps: seq<Step>, r: State)
    requires Sound(s) && Reached(s, steps, r)
    ensures Sound(r)
    decreases steps
  {
    hide DoStep;
    if steps != [] {
      StepSound(s, steps[0]);
      RunSound(DoStep(s, steps[0]), steps[1..], r);
    }
  }

  /**
   Over any run from tick 0: every added event is in exactly one place, pending,
   handled or cleared; a handled one was handled at the tick it was added for, and
   a still pending one waits for a tick that has not passed.
   */
  lemma EveryEventOnce(steps: seq<Step>, r: State, id: nat)
    requires Reached(Start, steps, r)
    ensures Places(r, id) == if id < |r.events| then 1 else 0
    ensures forall h :: h in r.log && h.Handled? && h.id == id ==> id < |r.events| && h.tick == r.events[id].due
    ensures forall i :: 0 <= i < |r.log| && r.log[i].Handled? ==> (r.log[i].ran <==> Invalidated(r.log[i].id) !in r.log[..i])
    ensures forall e :: e in r.queue && e.id == id ==> id < |r.events| && e.tick == r.events[id].due >= r.now
    ensures id < |r.events| && r.events[id].due < r.now && id !in r.cleared ==> InLog(r.log, id) == 1
  {
    assert Accounted(Start) by {
      forall id: nat ensures Places(Start, id) == 0 {}
    }
    RunSound(Start, steps, r);
    QueuedIsThere(r.queue, id);
    ClearedIsThere(r.cleared, id);
  }

  lemma {:induction false} QueuedIsThere(q: seq<Entry>, id: nat)
    ensures InQueue(q, id) > 0 ==> exists e :: e in q && e.id == id
  {
    if q != [] {
      QueuedIsThere(q[1..], id);
      assert q[0] in q;
    }
  }

  lemma {:induction false} ClearedIsThere(c: seq<nat>, id: nat)
    ensures InCleared(c, id) > 0 ==> id in c
  {
    if c != [] { ClearedIsThere(c[1..], id); }
  }

  // -------------------------------------------------- invalidated events are skipped

  predicate NeverRan(s: State, id: nat)
  {
    && id < |s.events| && !s.events[id].valid
    && forall i :: 0 <= i < |s.log| && s.log[i].Handled? && s.log[i].id == id ==> !s.log[i].ran
  }

  lemma {:induction false} OpsNeverRun(s: State, ops: seq<Op>, id: nat)
    requires NeverRan(s, id)
    ensures NeverRan(RunOps(s, ops), id)
    decreases ops
  {
    if ops != [] { OpsNeverRun(DoOp(s, ops[0]), ops[1..], id); }
  }

  lemma {:induction false} DrainNeverRuns(s: State, id: nat)
    requires Ok(s) && NeverRan(s, id)
    ensures NeverRan(Drain(s), id)
    decreases Weight(s)
  {
    if HasDue(s) {
      OpsNeverRun(Noted(s), s.events[s.queue[0].id].callback.ops, id);
      hide RunOps, Weight;
      PopOk(s); PopShrinks(s);
      DrainNeverRuns(PopOne(s), id);
    }
  }

  /** An event invalidated before it was handled never runs. */
  lemma {:induction false} InvalidatedNeverRuns(s: State, steps: seq<Step>, r: State, id: nat)
    requires Reached(s, steps, r) && NeverRan(s, id)
    ensures NeverRan(r, id)
    decreases steps
  {
    if steps != [] {
      if steps[0].Tick? { DrainNeverRuns(s, id); }
      InvalidatedNeverRuns(DoStep(s, steps[0]), steps[1..], r, id);
    }
  }
}
