/**
 The tick scheduler as a function on values.  A callback is a finite tree of the
 events it adds and the invalidations it performs; `Drain` is the reference
 meaning of a tick: take the earliest event off the queue, one at a time.
 */
module TickSpec {

  datatype Action = Action(ops: seq<Op>)

  datatype Op = Add(delay: nat, action: Action) | Invalidate(id: nat)

  /** An event as the queue's owner sees it; `due` is the tick it was added for. */
  datatype TickEvent = TickEvent(valid: bool, callback: Action, due: nat)

  datatype Entry = Entry(tick: nat, id: nat)

  /** What happened: an event was handled at a tick, and its callback ran or was skipped;
      an event was invalidated; an event was added for a tick. */
  datatype Happened =
    | Handled(id: nat, tick: nat, ran: bool)
    | Invalidated(id: nat)
    | Added(id: nat, tick: nat)

  /** Events are numbered in the order in which they were added. */
  datatype State = State(now: nat, queue: seq<Entry>, events: seq<TickEvent>,
                         log: seq<Happened>, cleared: seq<nat>)

  const Start: State := State(0, [], [], [], [])

  // ------------------------------------------------------------------ the queue

  /** Insertion behind all entries with the same or a smaller tick. */
  function Insert(q: seq<Entry>, e: Entry): (r: seq<Entry>)
    ensures |r| == |q| + 1
  {
    if q == [] || e.tick < q[0].tick then [e] + q else [q[0]] + Insert(q[1..], e)
  }

  predicate Precedes(a: Entry, b: Entry) { a.tick < b.tick || (a.tick == b.tick && a.id < b.id) }

  /** Sorted by tick, and first in, first out among equal ticks. */
  predicate Sorted(q: seq<Entry>) { forall i, j :: 0 <= i < j < |q| ==> Precedes(q[i], q[j]) }

  predicate Ok(s: State)
  {
    Sorted(s.queue) && forall i :: 0 <= i < |s.queue| ==> s.queue[i].id < |s.events|
  }

  lemma {:induction false} InsertElements(q: seq<Entry>, e: Entry)
    ensures forall x :: x in Insert(q, e) <==> x in q || x == e
  {
    if !(q == [] || e.tick < q[0].tick) {
      InsertElements(q[1..], e);
      assert q == [q[0]] + q[1..];
    }
  }

  lemma SortedTail(q: seq<Entry>)
    requires Sorted(q) && q != []
    ensures Sorted(q[1..])
    ensures forall x :: x in q[1..] ==> Precedes(q[0], x)
  {
    forall x | x in q[1..] ensures Precedes(q[0], x) {
      var j :| 0 <= j < |q[1..]| && q[1..][j] == x;
      assert q[j + 1] == x;
    }
  }

  lemma SortedCons(e: Entry, q: seq<Entry>)
    requires Sorted(q) && forall x :: x in q ==> Precedes(e, x)
    ensures Sorted([e] + q)
  {
  }

  /** An entry with a fresh number keeps the queue sorted. */
  lemma {:induction false} InsertSorted(q: seq<Entry>, e: Entry)
    requires Sorted(q) && forall x :: x in q ==> x.id < e.id
    ensures Sorted(Insert(q, e))
  {
    if q == [] {
    } else {
      SortedTail(q);
      assert q == [q[0]] + q[1..];
      if e.tick < q[0].tick {
        SortedCons(e, q);
      } else {
        InsertSorted(q[1..], e);
        InsertElements(q[1..], e);
        SortedCons(q[0], Insert(q[1..], e));
      }
    }
  }

  /** Insertion does not disturb a front part that is not later. */
  lemma {:induction false} InsertBehind(b: seq<Entry>, q: seq<Entry>, e: Entry)
    requires forall x :: x in b ==> x.tick <= e.tick
    ensures Insert(b + q, e) == b + Insert(q, e)
  {
    if b == [] {
      assert b + q == q && b + Insert(q, e) == Insert(q, e);
    } else {
      assert b[0] in b;
      assert (b + q)[0] == b[0] && (b + q)[1..] == b[1..] + q;
      InsertBehind(b[1..], q, e);
      assert [b[0]] + (b[1..] + Insert(q, e)) == b + Insert(q, e);
    }
  }

  // ------------------------------------------------------------------ operations

  function AddEvent(s: State, delay: nat, callback: Action): State
  {
    s.(queue := Insert(s.queue, Entry(s.now + delay, |s.events|)),
       events := s.events + [TickEvent(true, callback, s.now + delay)],
       log := s.log + [Added(|s.events|, s.now + delay)])
  }

  function InvalidateEvent(s: State, id: nat): State
  {
    if id >= |s.events| then s
    else s.(events := s.events[id := s.events[id].(valid := false)], log := s.log + [Invalidated(id)])
  }

  function DoOp(s: State, op: Op): State
  {
    match op
    case Add(delay, action) => AddEvent(s, delay, action)
    case Invalidate(id) => InvalidateEvent(s, id)
  }

  function RunOps(s: State, ops: seq<Op>): State
    decreases ops
  {
    if ops == [] then s else RunOps(DoOp(s, ops[0]), ops[1..])
  }

  /** Handle an event taken off the queue: run it if it is still valid. */
  function Handle(s: State, id: nat): State
    requires id < |s.events|
  {
    var e := s.events[id];
    var s1 := s.(log := s.log + [Handled(id, s.now, e.valid)]);
    if e.valid then RunOps(s1, e.callback.ops) else s1
  }

  predicate HasDue(s: State) { s.queue != [] && s.queue[0].tick <= s.now }

  /** Handle the earliest event. */
  function PopOne(s: State): State
    requires Ok(s) && HasDue(s)
  {
    Handle(s.(queue := s.queue[1..]), s.queue[0].id)
  }

  /** The reference meaning of a tick: one event at a time, until none is due. */
  function Drain(s: State): State
    requires Ok(s)
    decreases Weight(s)
  {
    if !HasDue(s) then s
    else
      PopOk(s); PopShrinks(s);
      Drain(PopOne(s))
  }

  // ----------------------------------------------------------------- termination

  function Size(a: Action): nat
    decreases a
  {
    1 + OpsSize(a.ops)
  }

  function OpSize(op: Op): nat
    decreases op
  {
    match op
    case Add(_, action) => Size(action)
    case Invalidate(_) => 0
  }

  function OpsSize(ops: seq<Op>): nat
    decreases ops
  {
    if ops == [] then 0 else OpSize(ops[0]) + OpsSize(ops[1..])
  }

  /** The number of callbacks that can still happen. */
  function QueueWeight(q: seq<Entry>, events: seq<TickEvent>): nat
  {
    if q == [] then 0
    else (if q[0].id < |events| then Size(events[q[0].id].callback) else 0) + QueueWeight(q[1..], events)
  }

  function Weight(s: State): nat { QueueWeight(s.queue, s.events) }

  lemma {:induction false} InsertWeight(q: seq<Entry>, e: Entry, events: seq<TickEvent>)
    requires e.id < |events|
    ensures QueueWeight(Insert(q, e), events) == QueueWeight(q, events) + Size(events[e.id].callback)
  {
    if q == [] || e.tick < q[0].tick {
      assert ([e] + q)[1..] == q;
    } else {
      InsertWeight(q[1..], e, events);
      assert ([q[0]] + Insert(q[1..], e))[1..] == Insert(q[1..], e);
    }
  }

  /** Only the callbacks of queued events count. */
  lemma {:induction false} SameWeight(q: seq<Entry>, a: seq<TickEvent>, b: seq<TickEvent>)
    requires forall i :: 0 <= i < |q| ==> q[i].id < |a| && q[i].id < |b|
    requires forall i :: 0 <= i < |a| && i < |b| ==> a[i].callback == b[i].callback
    ensures QueueWeight(q, a) == QueueWeight(q, b)
  {
    if q != [] { SameWeight(q[1..], a, b); }
  }

  // ------------------------------------------------------- what operations keep

  lemma OpKeeps(s: State, op: Op)
    requires Ok(s)
    ensures var r := DoOp(s, op);
      && Ok(r) && r.now == s.now && s.log <= r.log && r.cleared == s.cleared
      && Weight(r) == Weight(s) + OpSize(op)
  {
    match op {
      case Add(delay, action) =>
        var e := Entry(s.now + delay, |s.events|);
        var r := DoOp(s, op);
        assert forall x :: x in s.queue ==> x.id < e.id;
        InsertSorted(s.queue, e);
        InsertElements(s.queue, e);
        InsertWeight(s.queue, e, r.events);
        SameWeight(s.queue, s.events, r.events);
        forall i | 0 <= i < |r.queue| ensures r.queue[i].id < |r.events| {
          assert r.queue[i] in r.queue;
        }
      case Invalidate(id) =>
        SameWeight(s.queue, s.events, InvalidateEvent(s, id).events);
    }
  }

  lemma {:induction false} OpsKeep(s: State, ops: seq<Op>)
    requires Ok(s)
    ensures var r := RunOps(s, ops);
      && Ok(r) && r.now == s.now && s.log <= r.log && r.cleared == s.cleared
      && Weight(r) == Weight(s) + OpsSize(ops)
    decreases ops
  {
    if ops != [] {
      hide Weight, DoOp, Ok;
      OpKeeps(s, ops[0]);
      OpsKeep(DoOp(s, ops[0]), ops[1..]);
    }
  }

  lemma PopOk(s: State)
    requires Ok(s) && HasDue(s)
    ensures Ok(PopOne(s)) && PopOne(s).now == s.now
  {
    var e := s.events[s.queue[0].id];
    var s1 := s.(queue := s.queue[1..], log := s.log + [Handled(s.queue[0].id, s.now, e.valid)]);
    SortedTail(s.queue);
    OpsKeep(s1, e.callback.ops);
  }

  lemma PopShrinks(s: State)
    requires Ok(s) && HasDue(s)
    ensures Weight(PopOne(s)) < Weight(s)
  {
    var e := s.events[s.queue[0].id];
    var s1 := s.(queue := s.queue[1..], log := s.log + [Handled(s.queue[0].id, s.now, e.valid)]);
    SortedTail(s.queue);
    OpsKeep(s1, e.callback.ops);
  }

  // ------------------------------------------------------------- after the drain

  lemma {:induction false} DrainLeavesNoneDue(s: State)
    requires Ok(s)
    ensures var r := Drain(s);
      Ok(r) && r.now == s.now && forall x :: x in r.queue ==> x.tick > r.now
    decreases Weight(s)
  {
    if HasDue(s) {
      PopOk(s); PopShrinks(s);
      DrainLeavesNoneDue(PopOne(s));
    } else if s.queue != [] {
      SortedTail(s.queue);
      assert s.queue == [s.queue[0]] + s.queue[1..];
    }
  }
}
